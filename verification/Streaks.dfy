// Daily goal statistics: the status of each day, and the current and longest streak.
module Streaks {
  import opened Wrappers
  import opened DailyGoals
  import RoutineLifecycle

  datatype Routine = Routine(
    id: string, includeInDailyGoal: bool, startDate: int, endDate: Option<int>,
    pauses: seq<RoutineLifecycle.Pause>)

  datatype DayStatus = DayStatus(
    date: int, checkedCount: nat, totalCount: nat, targetCount: Option<int>, goalAchieved: Option<bool>)

  // ---- The status of one day -----------------------------------------------------------------

  predicate IsActiveOn(r: Routine, day: int, today: int) {
    && r.startDate <= day
    && (r.endDate.Some? ==> day <= r.endDate.value)
    && !RoutineLifecycle.IsExcluded(r.pauses, day, today)
  }

  ghost predicate DistinctIds(routines: seq<Routine>) {
    forall i, j :: 0 <= i < j < |routines| ==> routines[i].id != routines[j].id
  }

  function ActiveIds(routines: seq<Routine>, day: int, today: int): set<string> {
    set i | 0 <= i < |routines| && routines[i].includeInDailyGoal && IsActiveOn(routines[i], day, today)
      :: routines[i].id
  }

  function CheckedIds(routines: seq<Routine>, logs: set<(string, int)>, day: int): set<string> {
    set i | 0 <= i < |routines| && routines[i].includeInDailyGoal && (routines[i].id, day) in logs
      :: routines[i].id
  }

  function TargetOf(goal: Goal, total: int): int {
    if goal.mode == COUNT && goal.count.Some? then goal.count.value else total
  }

  function StatusOf(day: int, checked: nat, total: nat, goal: Goal): DayStatus {
    if total == 0 then DayStatus(day, checked, 0, None, None)
    else
      var target := TargetOf(goal, total);
      DayStatus(day, checked, total, Some(target), Some(checked >= target))
  }

  function GoalOn(goals: map<int, Goal>, day: int): Goal {
    if day in goals then goals[day] else DEFAULT_GOAL
  }

  function StatusOn(routines: seq<Routine>, logs: set<(string, int)>, goals: map<int, Goal>, day: int, today: int): DayStatus {
    StatusOf(day, |CheckedIds(routines, logs, day)|, |ActiveIds(routines, day, today)|, GoalOn(goals, day))
  }

  lemma ActiveIdsStep(routines: seq<Routine>, n: nat, day: int, today: int)
    requires n < |routines| && DistinctIds(routines)
    ensures ActiveIds(routines[..n + 1], day, today)
         == ActiveIds(routines[..n], day, today)
            + if routines[n].includeInDailyGoal && IsActiveOn(routines[n], day, today) then {routines[n].id} else {}
    ensures routines[n].id !in ActiveIds(routines[..n], day, today)
  {
  }

  lemma CheckedIdsStep(routines: seq<Routine>, logs: set<(string, int)>, n: nat, day: int)
    requires n < |routines| && DistinctIds(routines)
    ensures CheckedIds(routines[..n + 1], logs, day)
         == CheckedIds(routines[..n], logs, day)
            + if routines[n].includeInDailyGoal && (routines[n].id, day) in logs then {routines[n].id} else {}
    ensures routines[n].id !in CheckedIds(routines[..n], logs, day)
  {
  }

  // Each habit of the daily goal counts once where it is active and once where it is checked, others never.
  lemma CountsStep(routines: seq<Routine>, logs: set<(string, int)>, n: nat, day: int, today: int)
    requires n < |routines| && DistinctIds(routines)
    ensures |ActiveIds(routines[..n + 1], day, today)| == |ActiveIds(routines[..n], day, today)|
      + if routines[n].includeInDailyGoal && IsActiveOn(routines[n], day, today) then 1 else 0
    ensures |CheckedIds(routines[..n + 1], logs, day)| == |CheckedIds(routines[..n], logs, day)|
      + if routines[n].includeInDailyGoal && (routines[n].id, day) in logs then 1 else 0
  {
    ActiveIdsStep(routines, n, day, today);
    CheckedIdsStep(routines, logs, n, day);
  }

  method ComputeDailyGoalStatus(
    routines: seq<Routine>, logs: set<(string, int)>, goals: map<int, Goal>, first: int, last: int, today: int)
    returns (statuses: seq<DayStatus>)
    requires DistinctIds(routines)
    ensures |statuses| == if first <= last then last - first + 1 else 0
    ensures forall i :: 0 <= i < |statuses| ==> statuses[i] == StatusOn(routines, logs, goals, first + i, today)
  {
    var days := ListDays(first, last);
    statuses := [];
    for n := 0 to |days|
      invariant |statuses| == n
      invariant forall i :: 0 <= i < n ==> statuses[i] == StatusOn(routines, logs, goals, first + i, today)
    {
      var total, checked := CountDay(routines, logs, days[n], today);
      statuses := statuses + [StatusOf(days[n], checked, total, GoalOn(goals, days[n]))];
    }
  }

  method CountDay(routines: seq<Routine>, logs: set<(string, int)>, day: int, today: int) returns (total: nat, checked: nat)
    requires DistinctIds(routines)
    ensures total == |ActiveIds(routines, day, today)|
    ensures checked == |CheckedIds(routines, logs, day)|
  {
    total, checked := 0, 0;
    for i := 0 to |routines|
      invariant total == |ActiveIds(routines[..i], day, today)|
      invariant checked == |CheckedIds(routines[..i], logs, day)|
    {
      CountsStep(routines, logs, i, day, today);
      if routines[i].includeInDailyGoal {
        if IsActiveOn(routines[i], day, today) {
          total := total + 1;
        }
        if (routines[i].id, day) in logs {
          checked := checked + 1;
        }
      }
    }
    assert routines[..|routines|] == routines;
  }

  // ---- What "all habits of the day" means ------------------------------------------------------

  predicate Passes(
    routines: seq<Routine>, logs: set<(string, int)>, goals: map<int, Goal>, day: int, today: int)
  {
    StatusOn(routines, logs, goals, day, today).goalAchieved == Some(true)
  }

  // What a day's status shows.
  lemma StatusTells(
    routines: seq<Routine>, logs: set<(string, int)>, goals: map<int, Goal>, day: int, today: int)
    ensures var status, goal := StatusOn(routines, logs, goals, day, today), GoalOn(goals, day);
      && status.date == day
      && status.checkedCount == |CheckedIds(routines, logs, day)|
      && status.totalCount == |ActiveIds(routines, day, today)|
      && (status.totalCount == 0 ==> status.targetCount.None? && status.goalAchieved.None?)
      && (status.totalCount > 0 ==>
            && status.targetCount.Some?
            && status.goalAchieved == Some(status.checkedCount >= status.targetCount.value)
            && (goal.mode == ALL ==> status.targetCount.value == status.totalCount)
            && (goal.mode == COUNT ==> status.targetCount == if goal.count.Some? then goal.count else Some(status.totalCount)))
    ensures day !in goals ==> GoalOn(goals, day).mode == ALL
    ensures day in goals ==> GoalOn(goals, day) == goals[day]
  {
    SubsetSize({}, ActiveIds(routines, day, today));
  }

  // With a COUNT goal, a day with active habits counts as achieved exactly when that many are checked.
  lemma CountModePassesIff(
    routines: seq<Routine>, logs: set<(string, int)>, goals: map<int, Goal>, day: int, today: int)
    requires GoalOn(goals, day).mode == COUNT && GoalOn(goals, day).count.Some?
    requires ActiveIds(routines, day, today) != {}
    ensures Passes(routines, logs, goals, day, today) <==>
      |CheckedIds(routines, logs, day)| >= GoalOn(goals, day).count.value
  {
    SubsetSize({}, ActiveIds(routines, day, today));
  }

  // A habit is active from its first to its last day, except where it was paused at the end of the day.
  lemma ActiveUnlessPaused(
    events: seq<RoutineLifecycle.Event>, id: string, startDate: int, endDate: Option<int>, day: int, today: int)
    requires RoutineLifecycle.DaysInOrder(events) && day <= today
    ensures var r := Routine(id, true, startDate, endDate, RoutineLifecycle.ApplyAll(events).pauses);
      IsActiveOn(r, day, today) <==>
        && startDate <= day && (endDate.None? || day <= endDate.value)
        && RoutineLifecycle.StatusAtEndOf(events, day) != RoutineLifecycle.PAUSED
  {
    RoutineLifecycle.ExcludedIffPausedAtEndOfDay(events, day, today);
  }

  // With the ALL goal, a day counts as achieved exactly when no more active habits are missing than
  // habits are checked that are not active that day.
  lemma AllModePassesIff(
    routines: seq<Routine>, logs: set<(string, int)>, goals: map<int, Goal>, day: int, today: int)
    requires GoalOn(goals, day).mode == ALL && ActiveIds(routines, day, today) != {}
    ensures var active, checked := ActiveIds(routines, day, today), CheckedIds(routines, logs, day);
      Passes(routines, logs, goals, day, today) <==> |active - checked| <= |checked - active|
    ensures var active, checked := ActiveIds(routines, day, today), CheckedIds(routines, logs, day);
      active <= checked ==> Passes(routines, logs, goals, day, today)
  {
    var active, checked := ActiveIds(routines, day, today), CheckedIds(routines, logs, day);
    assert active == (active - checked) + (active * checked) && checked == (checked - active) + (active * checked);
    SubsetSize({}, active);
    if active <= checked {
      assert active - checked == {};
    }
  }

  // Habits of the daily goal that are checked on a day on which they are not active.
  function StrayIds(routines: seq<Routine>, logs: set<(string, int)>, day: int, today: int): set<string> {
    CheckedIds(routines, logs, day) - ActiveIds(routines, day, today)
  }

  ghost predicate AllMeansAll(
    routines: seq<Routine>, logs: set<(string, int)>, goals: map<int, Goal>, day: int, today: int)
  {
    Passes(routines, logs, goals, day, today) <==> ActiveIds(routines, day, today) <= CheckedIds(routines, logs, day)
  }

  // Whichever active habits are checked, ALL means all of them, exactly when no stray habit is checked.
  lemma AllModeMeansAllIff(routines: seq<Routine>, goals: map<int, Goal>, strays: set<string>, day: int, today: int)
    requires GoalOn(goals, day).mode == ALL && ActiveIds(routines, day, today) != {}
    requires strays <= IncludedIds(routines) - ActiveIds(routines, day, today)
    ensures (forall logs: set<(string, int)> ::
               StrayIds(routines, logs, day, today) == strays ==> AllMeansAll(routines, logs, goals, day, today))
       <==> strays == {}
  {
    if strays == {} {
      forall logs: set<(string, int)> | StrayIds(routines, logs, day, today) == strays
        ensures AllMeansAll(routines, logs, goals, day, today)
      {
        AllModePassesIff(routines, logs, goals, day, today);
        SubsetSize({}, ActiveIds(routines, day, today) - CheckedIds(routines, logs, day));
      }
    } else {
      var logs := StraysStandIn(routines, goals, strays, day, today);
    }
  }

  // All but one active habit and the strays are checked: the day counts as achieved.
  lemma StraysStandIn(routines: seq<Routine>, goals: map<int, Goal>, strays: set<string>, day: int, today: int)
    returns (logs: set<(string, int)>)
    requires GoalOn(goals, day).mode == ALL && ActiveIds(routines, day, today) != {} && strays != {}
    requires strays <= IncludedIds(routines) - ActiveIds(routines, day, today)
    ensures StrayIds(routines, logs, day, today) == strays && !AllMeansAll(routines, logs, goals, day, today)
  {
    var active := ActiveIds(routines, day, today);
    var x :| x in active;
    var checked := active - {x} + strays;
    logs := set id | id in checked :: (id, day);
    CheckedAsLogged(routines, checked, day, today);
    OneMissing(active, x, strays);
    AllModePassesIff(routines, logs, goals, day, today);
  }

  lemma OneMissing(active: set<string>, x: string, strays: set<string>)
    requires x in active && active !! strays && strays != {}
    ensures var checked := active - {x} + strays;
      checked - active == strays && !(active <= checked) && |active - checked| <= |strays|
  {
    var y :| y in strays;
    assert active - (active - {x} + strays) == {x};
    SubsetSize({y}, strays);
  }

  function IncludedIds(routines: seq<Routine>): set<string> {
    set i | 0 <= i < |routines| && routines[i].includeInDailyGoal :: routines[i].id
  }

  lemma CheckedAsLogged(routines: seq<Routine>, checked: set<string>, day: int, today: int)
    requires checked <= IncludedIds(routines)
    ensures CheckedIds(routines, set id | id in checked :: (id, day), day) == checked
  {
    var logs := set id | id in checked :: (id, day);
    forall id ensures id in CheckedIds(routines, logs, day) <==> id in checked {
      if id in checked {
        var i :| 0 <= i < |routines| && routines[i].includeInDailyGoal && routines[i].id == id;
        assert (routines[i].id, day) in logs;
      }
    }
  }

  // One habit is checked and then paused on the day, the other is not checked: the day counts as achieved.
  lemma CheckedThenPausedStandsIn(day: int)
    ensures var checkedAndPaused := RoutineLifecycle.ApplyAll(
        [RoutineLifecycle.Event(day, RoutineLifecycle.Check(None))]
        + [RoutineLifecycle.Event(day, RoutineLifecycle.PauseRoutine)]);
      var routines := [Routine("a", true, day, None, []), Routine("b", true, day, None, checkedAndPaused.pauses)];
      && RoutineLifecycle.HasLog(checkedAndPaused.logs, day)
      && ActiveIds(routines, day, day) == {"a"}
      && StatusOn(routines, {("b", day)}, map[], day, day).goalAchieved == Some(true)
  {
    var check := RoutineLifecycle.Event(day, RoutineLifecycle.Check(None));
    var pause := RoutineLifecycle.Event(day, RoutineLifecycle.PauseRoutine);
    assert ([check] + [pause])[..1] == [check] && [check][..0] == [];
    var checked := RoutineLifecycle.Apply(RoutineLifecycle.NEW_ROUTINE, check);
    assert RoutineLifecycle.ApplyAll([check]) == checked;
    var r := RoutineLifecycle.Apply(checked, pause);
    assert RoutineLifecycle.ApplyAll([check] + [pause]) == r;
    assert r.pauses == [RoutineLifecycle.Pause(day, None)] && r.logs == [RoutineLifecycle.Log(day, day)];
    assert r.logs[0].checkedDate == day;
    var routines := [Routine("a", true, day, None, []), Routine("b", true, day, None, r.pauses)];
    assert RoutineLifecycle.Covers(r.pauses[0], day, day);
    assert IsActiveOn(routines[0], day, day) && !IsActiveOn(routines[1], day, day);
    assert ActiveIds(routines, day, day) == {"a"};
    assert CheckedIds(routines, {("b", day)}, day) == {"b"} by {
      assert routines[1].id == "b";
    }
  }

  lemma {:induction false} SubsetSize<T>(small: set<T>, large: set<T>)
    requires small <= large
    ensures |small| <= |large|
    ensures |small| == |large| <==> small == large
    decreases small
  {
    if small != {} {
      var x :| x in small;
      SubsetSize(small - {x}, large - {x});
      assert small == small - {x} + {x} && large == large - {x} + {x};
    } else if large != {} {
      var y :| y in large;
      assert |large| > 0;
    }
  }

  // ---- Streaks -----------------------------------------------------------------------------------

  // The achieved days from lo up to hi (exclusive).
  function Achieved(statuses: seq<DayStatus>, lo: nat, hi: nat): nat
    requires lo <= hi <= |statuses|
    decreases hi
  {
    if lo == hi then 0
    else Achieved(statuses, lo, hi - 1) + if statuses[hi - 1].goalAchieved == Some(true) then 1 else 0
  }

  // A failed day ends a streak; today does not count as failed while it lasts.
  predicate Breaks(s: DayStatus, today: int) {
    s.goalAchieved == Some(false) && s.date != today
  }

  ghost predicate IsCurrentStreak(statuses: seq<DayStatus>, today: int, streak: nat) {
    exists cut: nat ::
      cut <= |statuses| && SinceLastBreak(statuses, today, cut) && streak == Achieved(statuses, cut, |statuses|)
  }

  ghost predicate SinceLastBreak(statuses: seq<DayStatus>, today: int, cut: nat)
    requires cut <= |statuses|
  {
    && (cut > 0 ==> Breaks(statuses[cut - 1], today))
    && forall i :: cut <= i < |statuses| ==> !Breaks(statuses[i], today)
  }

  ghost predicate Unbroken(statuses: seq<DayStatus>, lo: nat, hi: nat)
    requires hi <= |statuses|
  {
    forall i :: lo <= i < hi ==> statuses[i].goalAchieved != Some(false)
  }

  // Among the first n days.
  ghost predicate NoneLonger(statuses: seq<DayStatus>, n: nat, streak: nat)
    requires n <= |statuses|
  {
    forall lo: nat, hi: nat :: lo <= hi <= n && Unbroken(statuses, lo, hi) ==> Achieved(statuses, lo, hi) <= streak
  }

  ghost predicate Reached(statuses: seq<DayStatus>, n: nat, streak: nat)
    requires n <= |statuses|
  {
    exists lo: nat, hi: nat :: lo <= hi <= n && Unbroken(statuses, lo, hi) && Achieved(statuses, lo, hi) == streak
  }

  ghost predicate IsLongestStreak(statuses: seq<DayStatus>, streak: nat) {
    NoneLonger(statuses, |statuses|, streak) && Reached(statuses, |statuses|, streak)
  }

  lemma {:induction false} AchievedSplit(statuses: seq<DayStatus>, lo: nat, mid: nat, hi: nat)
    requires lo <= mid <= hi <= |statuses|
    ensures Achieved(statuses, lo, hi) == Achieved(statuses, lo, mid) + Achieved(statuses, mid, hi)
    decreases hi
  {
    if mid < hi {
      AchievedSplit(statuses, lo, mid, hi - 1);
    }
  }

  lemma {:induction false} NothingAchieved(statuses: seq<DayStatus>, lo: nat, hi: nat)
    requires lo <= hi <= |statuses| && forall i :: lo <= i < hi ==> statuses[i].goalAchieved != Some(true)
    ensures Achieved(statuses, lo, hi) == 0
    decreases hi
  {
    if lo < hi {
      NothingAchieved(statuses, lo, hi - 1);
    }
  }

  // The backward loop: achieved days since the last failed day.
  method CurrentStreak(statuses: seq<DayStatus>, today: int) returns (streak: nat)
    ensures IsCurrentStreak(statuses, today, streak)
  {
    streak := 0;
    var i := |statuses| - 1;
    while i >= 0
      invariant -1 <= i < |statuses|
      invariant forall j :: i < j < |statuses| ==> !Breaks(statuses[j], today)
      invariant streak == Achieved(statuses, i + 1, |statuses|)
    {
      var status := statuses[i];
      AchievedSplit(statuses, i, i + 1, |statuses|);
      if status.goalAchieved == Some(true) {
        streak := streak + 1;
      } else if status.goalAchieved == Some(false) && status.date != today {
        assert SinceLastBreak(statuses, today, i + 1);
        return;
      }
      i := i - 1;
    }
    assert SinceLastBreak(statuses, today, 0);
  }

  // The forward loop: the longest run of achieved days without a failed day between them.
  method LongestStreak(statuses: seq<DayStatus>) returns (longest: nat)
    ensures IsLongestStreak(statuses, longest)
  {
    longest := 0;
    var running := 0;
    ghost var start := 0;
    assert Unbroken(statuses, 0, 0) && Achieved(statuses, 0, 0) == 0;
    for n := 0 to |statuses|
      invariant 0 <= start <= n
      invariant start > 0 ==> statuses[start - 1].goalAchieved == Some(false)
      invariant Unbroken(statuses, start, n) && running == Achieved(statuses, start, n)
      invariant NoneLonger(statuses, n, longest) && Reached(statuses, n, longest)
    {
      ExtendNoneLonger(statuses, start, n, longest);
      ExtendReached(statuses, start, n, longest);
      if statuses[n].goalAchieved == Some(true) {
        running := running + 1;
        longest := if longest < running then running else longest;
      } else if statuses[n].goalAchieved == Some(false) {
        running := 0;
        start := n + 1;
      }
    }
  }

  // The best of the longest so far and the running streak, when day n is achieved.
  function Best(statuses: seq<DayStatus>, start: nat, n: nat, longest: nat): nat
    requires start <= n < |statuses|
  {
    if statuses[n].goalAchieved == Some(true) && longest < Achieved(statuses, start, n + 1)
    then Achieved(statuses, start, n + 1) else longest
  }

  // An unbroken window that ends with day n starts after the last failed day.
  lemma LastWindow(statuses: seq<DayStatus>, start: nat, n: nat, longest: nat, lo: nat)
    requires start <= n < |statuses| && lo <= n + 1
    requires start > 0 ==> statuses[start - 1].goalAchieved == Some(false)
    requires NoneLonger(statuses, n, longest) && Unbroken(statuses, lo, n + 1)
    ensures Achieved(statuses, lo, n + 1) <= Best(statuses, start, n, longest)
  {
    if lo <= n {
      assert start <= lo;
      AchievedSplit(statuses, start, lo, n + 1);
      assert Unbroken(statuses, lo, n);
      assert Achieved(statuses, lo, n) <= longest;
    }
  }

  lemma ExtendNoneLonger(statuses: seq<DayStatus>, start: nat, n: nat, longest: nat)
    requires start <= n < |statuses|
    requires start > 0 ==> statuses[start - 1].goalAchieved == Some(false)
    requires NoneLonger(statuses, n, longest)
    ensures NoneLonger(statuses, n + 1, Best(statuses, start, n, longest))
  {
    forall lo: nat, hi: nat | lo <= hi <= n + 1 && Unbroken(statuses, lo, hi)
      ensures Achieved(statuses, lo, hi) <= Best(statuses, start, n, longest)
    {
      if hi == n + 1 {
        LastWindow(statuses, start, n, longest, lo);
      }
    }
  }

  lemma ExtendReached(statuses: seq<DayStatus>, start: nat, n: nat, longest: nat)
    requires start <= n < |statuses| && Unbroken(statuses, start, n) && Reached(statuses, n, longest)
    ensures Reached(statuses, n + 1, Best(statuses, start, n, longest))
  {
    if statuses[n].goalAchieved == Some(true) && longest < Achieved(statuses, start, n + 1) {
      assert Unbroken(statuses, start, n + 1);
    } else {
      var lo: nat, hi: nat :| lo <= hi <= n && Unbroken(statuses, lo, hi) && Achieved(statuses, lo, hi) == longest;
    }
  }

  // The current streak lies in an unbroken window: a failed today can only stand at its ends.
  lemma CurrentWindow(statuses: seq<DayStatus>, today: int, cut: nat) returns (lo: nat, hi: nat)
    requires forall i :: 0 < i < |statuses| - 1 ==> statuses[i].date != today
    requires cut <= |statuses| && SinceLastBreak(statuses, today, cut)
    ensures lo <= hi <= |statuses| && Unbroken(statuses, lo, hi)
    ensures Achieved(statuses, lo, hi) == Achieved(statuses, cut, |statuses|)
  {
    var n := |statuses|;
    lo := if cut == 0 < n && statuses[0].goalAchieved == Some(false) then 1 else cut;
    hi := if lo < n && statuses[n - 1].goalAchieved == Some(false) then n - 1 else n;
    AchievedSplit(statuses, cut, lo, n);
    AchievedSplit(statuses, lo, hi, n);
    NothingAchieved(statuses, cut, lo);
    NothingAchieved(statuses, hi, n);
  }

  lemma CurrentNeverExceedsLongest(statuses: seq<DayStatus>, today: int, current: nat, longest: nat)
    requires forall i :: 0 < i < |statuses| - 1 ==> statuses[i].date != today
    requires IsCurrentStreak(statuses, today, current) && IsLongestStreak(statuses, longest)
    ensures current <= longest
  {
    var cut: nat :|
      cut <= |statuses| && SinceLastBreak(statuses, today, cut) && current == Achieved(statuses, cut, |statuses|);
    var lo, hi := CurrentWindow(statuses, today, cut);
  }

  function Statuses(dates: seq<int>, achieved: seq<Option<bool>>): seq<DayStatus>
    requires |achieved| == |dates|
  {
    seq(|dates|, i requires 0 <= i < |dates| => DayStatus(dates[i], 0, 0, None, achieved[i]))
  }

  // An achieved day, a failed day that is today, an achieved day.
  ghost predicate FailedTodayBetween(statuses: seq<DayStatus>, today: int, i: nat) {
    && 0 < i < |statuses| - 1
    && statuses[i].date == today
    && forall j :: 0 <= j < |statuses| ==>
         statuses[j].goalAchieved == if j == i then Some(false) else if j == i - 1 || j == i + 1 then Some(true) else None
  }

  lemma SidesOf(statuses: seq<DayStatus>, today: int, i: nat)
    requires FailedTodayBetween(statuses, today, i)
    ensures Achieved(statuses, 0, i) == 1 && Achieved(statuses, i + 1, |statuses|) == 1
    ensures Achieved(statuses, 0, |statuses|) == 2
  {
    var n := |statuses|;
    NothingAchieved(statuses, 0, i - 1);
    AchievedSplit(statuses, i + 1, i + 2, n);
    NothingAchieved(statuses, i + 1, i + 1);
    NothingAchieved(statuses, i + 2, n);
    AchievedSplit(statuses, 0, i, n);
    AchievedSplit(statuses, i, i + 1, n);
    NothingAchieved(statuses, i, i + 1);
  }

  lemma OneSideOnly(statuses: seq<DayStatus>, today: int, i: nat, lo: nat, hi: nat)
    requires FailedTodayBetween(statuses, today, i)
    requires lo <= hi <= |statuses| && Unbroken(statuses, lo, hi)
    ensures Achieved(statuses, lo, hi) <= 1
  {
    SidesOf(statuses, today, i);
    if hi <= i {
      AchievedSplit(statuses, 0, lo, i);
      AchievedSplit(statuses, lo, hi, i);
    } else {
      assert i < lo;
      AchievedSplit(statuses, i + 1, lo, |statuses|);
      AchievedSplit(statuses, lo, hi, |statuses|);
    }
  }

  lemma FailedTodayInside(statuses: seq<DayStatus>, today: int, i: nat)
    requires FailedTodayBetween(statuses, today, i)
    ensures IsCurrentStreak(statuses, today, 2) && IsLongestStreak(statuses, 1)
  {
    SidesOf(statuses, today, i);
    assert SinceLastBreak(statuses, today, 0);
    forall lo: nat, hi: nat | lo <= hi <= |statuses| && Unbroken(statuses, lo, hi)
      ensures Achieved(statuses, lo, hi) <= 1
    {
      OneSideOnly(statuses, today, i, lo, hi);
    }
    assert Unbroken(statuses, 0, i) && Achieved(statuses, 0, i) == 1;
  }

  ghost predicate HaveStreaks(dates: seq<int>, achieved: seq<Option<bool>>, today: int, current: nat, longest: nat) {
    && |achieved| == |dates|
    && IsCurrentStreak(Statuses(dates, achieved), today, current)
    && IsLongestStreak(Statuses(dates, achieved), longest)
  }

  // Whatever the days' results, current never exceeds longest, exactly when today is not strictly
  // between other days of the range.
  lemma CurrentNeverExceedsLongestIff(dates: seq<int>, today: int)
    ensures (forall achieved, current, longest :: HaveStreaks(dates, achieved, today, current, longest) ==> current <= longest)
       <==> forall i :: 0 < i < |dates| - 1 ==> dates[i] != today
  {
    if i :| 0 < i < |dates| - 1 && dates[i] == today {
      var achieved := seq(|dates|, j =>
        if j == i then Some(false) else if j == i - 1 || j == i + 1 then Some(true) else None);
      FailedTodayInside(Statuses(dates, achieved), today, i);
      assert HaveStreaks(dates, achieved, today, 2, 1);
    } else {
      forall achieved, current, longest | HaveStreaks(dates, achieved, today, current, longest) ensures current <= longest {
        CurrentNeverExceedsLongest(Statuses(dates, achieved), today, current, longest);
      }
    }
  }

  // The overall statistics from the first day with a goal through today.
  method GetDailyStreak(
    routines: seq<Routine>, logs: set<(string, int)>, history: seq<Entry>, firstDay: int, today: int)
    returns (current: nat, longest: nat, statuses: seq<DayStatus>)
    requires DistinctIds(routines) && Ascending(history)
    ensures |statuses| == if firstDay <= today then today - firstDay + 1 else 0
    ensures forall i :: 0 <= i < |statuses| ==>
      statuses[i] == StatusOf(firstDay + i, |CheckedIds(routines, logs, firstDay + i)|,
                              |ActiveIds(routines, firstDay + i, today)|, EffectiveOn(history, firstDay + i))
    ensures IsCurrentStreak(statuses, today, current) && IsLongestStreak(statuses, longest)
    ensures current <= longest
  {
    var goals := GetEffectiveSettingsMap(history, firstDay, today);
    statuses := ComputeDailyGoalStatus(routines, logs, goals, firstDay, today, today);
    current := CurrentStreak(statuses, today);
    longest := LongestStreak(statuses);
    CurrentNeverExceedsLongest(statuses, today, current, longest);
  }
}

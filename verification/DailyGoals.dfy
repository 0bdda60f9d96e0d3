// The daily goal of a user: its current setting, its dated history, and the goal that was in force
// on each day of a range.
module DailyGoals {
  import opened Wrappers

  datatype Mode = ALL | COUNT

  datatype Goal = Goal(mode: Mode, count: Option<int>)

  // Days are day numbers; the table holds one row per day, listed by day.
  datatype Entry = Entry(effectiveFrom: int, goal: Goal)

  const DEFAULT_GOAL := Goal(ALL, None)

  ghost predicate Ascending(history: seq<Entry>) {
    forall i, j :: 0 <= i < j < |history| ==> history[i].effectiveFrom < history[j].effectiveFrom
  }

  // The last row in force on that day; ALL when there is none.
  function EffectiveOn(history: seq<Entry>, day: int): Goal {
    if history == [] then DEFAULT_GOAL
    else if history[|history| - 1].effectiveFrom <= day then history[|history| - 1].goal
    else EffectiveOn(history[..|history| - 1], day)
  }

  lemma {:induction false} EffectiveIsLatest(history: seq<Entry>, day: int, i: nat)
    requires Ascending(history) && i < |history| && history[i].effectiveFrom <= day
    requires forall j :: i < j < |history| ==> day < history[j].effectiveFrom
    ensures EffectiveOn(history, day) == history[i].goal
  {
    if i < |history| - 1 {
      EffectiveIsLatest(history[..|history| - 1], day, i);
    }
  }

  lemma {:induction false} NothingInForce(history: seq<Entry>, day: int)
    requires forall i :: 0 <= i < |history| ==> day < history[i].effectiveFrom
    ensures EffectiveOn(history, day) == DEFAULT_GOAL
  {
    if history != [] {
      NothingInForce(history[..|history| - 1], day);
    }
  }

  // ---- The sweep over a range of days ------------------------------------------------------

  method ListDays(first: int, last: int) returns (days: seq<int>)
    ensures |days| == if first <= last then last - first + 1 else 0
    ensures forall i :: 0 <= i < |days| ==> days[i] == first + i
  {
    days := [];
    var cursor := first;
    while cursor <= last
      invariant first <= cursor <= if first <= last then last + 1 else first
      invariant |days| == cursor - first && forall i :: 0 <= i < |days| ==> days[i] == first + i
    {
      days := days + [cursor];
      cursor := cursor + 1;
    }
  }

  // Rows that have come into force by the last day of the range.
  function InForceBy(history: seq<Entry>, last: int): seq<Entry> {
    if history == [] then []
    else if history[|history| - 1].effectiveFrom <= last then history
    else InForceBy(history[..|history| - 1], last)
  }

  lemma {:induction false} InForceByKeepsGoals(history: seq<Entry>, last: int, day: int)
    requires Ascending(history) && day <= last
    ensures EffectiveOn(InForceBy(history, last), day) == EffectiveOn(history, day)
    ensures Ascending(InForceBy(history, last))
  {
    if history != [] && history[|history| - 1].effectiveFrom > last {
      InForceByKeepsGoals(history[..|history| - 1], last, day);
    }
  }

  method GetEffectiveSettingsMap(table: seq<Entry>, first: int, last: int) returns (goals: map<int, Goal>)
    requires Ascending(table)
    ensures forall d :: d in goals <==> first <= d <= last
    ensures forall d :: d in goals ==> goals[d] == EffectiveOn(table, d)
  {
    var history := InForceBy(table, last);
    InForceByKeepsGoals(table, last, last);
    var days := ListDays(first, last);
    goals := map[];
    var historyIndex := 0;
    var current := DEFAULT_GOAL;
    for n := 0 to |days|
      invariant 0 <= historyIndex <= |history|
      invariant current == if historyIndex == 0 then DEFAULT_GOAL else history[historyIndex - 1].goal
      invariant forall i :: 0 <= i < historyIndex ==> history[i].effectiveFrom < first + n
      invariant forall d :: d in goals <==> first <= d < first + n
      invariant forall d :: d in goals ==> goals[d] == EffectiveOn(table, d)
    {
      var day := days[n];
      while historyIndex < |history| && history[historyIndex].effectiveFrom <= day
        invariant 0 <= historyIndex <= |history|
        invariant current == if historyIndex == 0 then DEFAULT_GOAL else history[historyIndex - 1].goal
        invariant forall i :: 0 <= i < historyIndex ==> history[i].effectiveFrom <= day
      {
        current := history[historyIndex].goal;
        historyIndex := historyIndex + 1;
      }
      if historyIndex == 0 {
        NothingInForce(history, day);
      } else {
        EffectiveIsLatest(history, day, historyIndex - 1);
      }
      InForceByKeepsGoals(table, last, day);
      goals := goals[day := current];
    }
  }

  // ---- Updates ---------------------------------------------------------------------------------

  datatype Store = Store(setting: Option<Goal>, history: seq<Entry>)

  datatype Update = Update(mode: Option<Mode>, count: Option<int>, today: int)

  function NextMode(s: Store, u: Update): Mode {
    if u.mode.Some? then u.mode.value
    else if s.setting.Some? then s.setting.value.mode
    else ALL
  }

  function NextCount(s: Store, u: Update): Option<int> {
    if u.count.Some? then u.count
    else if s.setting.Some? then s.setting.value.count
    else None
  }

  // COUNT needs a count of at least 1, given now or kept from before.
  predicate Refused(s: Store, u: Update) {
    NextMode(s, u) == COUNT && (NextCount(s, u).None? || NextCount(s, u).value <= 0)
  }

  function NextGoal(s: Store, u: Update): Goal {
    Goal(NextMode(s, u), NextCount(s, u))
  }

  function Upsert(history: seq<Entry>, day: int, goal: Goal): seq<Entry> {
    if history == [] then [Entry(day, goal)]
    else
      var n := |history| - 1;
      if history[n].effectiveFrom < day then history + [Entry(day, goal)]
      else if history[n].effectiveFrom == day then history[..n] + [Entry(day, goal)]
      else Upsert(history[..n], day, goal) + [history[n]]
  }

  function Apply(s: Store, u: Update): Store {
    if Refused(s, u) then s
    else Store(Some(NextGoal(s, u)), Upsert(s.history, u.today, NextGoal(s, u)))
  }

  function ApplyAll(s: Store, updates: seq<Update>): Store {
    if updates == [] then s
    else Apply(ApplyAll(s, updates[..|updates| - 1]), updates[|updates| - 1])
  }

  lemma {:induction false} UpsertShape(history: seq<Entry>, day: int, goal: Goal)
    requires Ascending(history)
    ensures Ascending(Upsert(history, day, goal))
    ensures forall e :: e in Upsert(history, day, goal) <==>
      e == Entry(day, goal) || (e in history && e.effectiveFrom != day)
  {
    if history != [] {
      var n := |history| - 1;
      assert history == history[..n] + [history[n]];
      if history[n].effectiveFrom > day {
        UpsertShape(history[..n], day, goal);
        var inserted := Upsert(history[..n], day, goal);
        forall i | 0 <= i < |inserted| ensures inserted[i].effectiveFrom < history[n].effectiveFrom {
          assert inserted[i] in inserted;
        }
      }
    }
  }

  ghost predicate HasRowIn(history: seq<Entry>, after: int, upto: int) {
    exists e :: e in history && after < e.effectiveFrom <= upto
  }

  lemma HasRowInSplit(history: seq<Entry>, after: int, upto: int)
    requires history != []
    ensures HasRowIn(history, after, upto)
       <==> HasRowIn(history[..|history| - 1], after, upto) || after < history[|history| - 1].effectiveFrom <= upto
  {
    assert history == history[..|history| - 1] + [history[|history| - 1]];
  }

  lemma {:induction false} NoRowIn(history: seq<Entry>, after: int, upto: int)
    requires Ascending(history) && history != [] && history[|history| - 1].effectiveFrom <= after
    ensures !HasRowIn(history, after, upto)
  {
    forall e | e in history ensures e.effectiveFrom <= after {
      var i :| 0 <= i < |history| && history[i] == e;
      assert i < |history| - 1 ==> history[i].effectiveFrom < history[|history| - 1].effectiveFrom;
    }
  }

  // An update only changes the days from today up to the next row, if there is one.
  lemma {:induction false} UpsertChangesOnlyFromToday(history: seq<Entry>, today: int, goal: Goal, day: int)
    requires Ascending(history)
    ensures EffectiveOn(Upsert(history, today, goal), day)
         == if day < today || HasRowIn(history, today, day) then EffectiveOn(history, day) else goal
  {
    var after := Upsert(history, today, goal);
    if history == [] {
      assert after[..0] == [];
    } else {
      var n := |history| - 1;
      if history[n].effectiveFrom <= today {
        NoRowIn(history, today, day);
        assert after[..|after| - 1] == if history[n].effectiveFrom < today then history else history[..n];
      } else {
        UpsertChangesOnlyFromToday(history[..n], today, goal, day);
        HasRowInSplit(history, today, day);
        assert after[..|after| - 1] == Upsert(history[..n], today, goal);
      }
    }
  }

  lemma EarlierDaysKeepTheirGoal(s: Store, u: Update, day: int)
    requires Ascending(s.history) && day < u.today
    ensures EffectiveOn(Apply(s, u).history, day) == EffectiveOn(s.history, day)
  {
    if !Refused(s, u) {
      UpsertChangesOnlyFromToday(s.history, u.today, NextGoal(s, u), day);
    }
  }

  // ---- Whole runs ------------------------------------------------------------------------------

  ghost predicate DaysInOrder(updates: seq<Update>) {
    forall i, j :: 0 <= i < j < |updates| ==> updates[i].today <= updates[j].today
  }

  // The goal of the last accepted update made on or before that day.
  function LastGoal(updates: seq<Update>, day: int): Goal {
    if updates == [] then DEFAULT_GOAL
    else
      var n := |updates| - 1;
      var before := ApplyAll(Store(None, []), updates[..n]);
      if updates[n].today <= day && !Refused(before, updates[n]) then NextGoal(before, updates[n])
      else LastGoal(updates[..n], day)
  }

  ghost predicate CountsPositive(s: Store) {
    && (forall e :: e in s.history && e.goal.mode == COUNT ==> e.goal.count.Some? && e.goal.count.value >= 1)
    && (s.setting.Some? && s.setting.value.mode == COUNT ==> s.setting.value.count.Some? && s.setting.value.count.value >= 1)
  }

  lemma {:induction false} HistoryTellsEveryDay(updates: seq<Update>)
    requires DaysInOrder(updates)
    ensures var s := ApplyAll(Store(None, []), updates);
      && Ascending(s.history) && CountsPositive(s)
      && (forall e :: e in s.history ==> exists i :: 0 <= i < |updates| && updates[i].today == e.effectiveFrom)
      && (forall day :: EffectiveOn(s.history, day) == LastGoal(updates, day))
  {
    if updates != [] {
      var n := |updates| - 1;
      HistoryTellsEveryDay(updates[..n]);
      var s, u := ApplyAll(Store(None, []), updates[..n]), updates[n];
      if !Refused(s, u) {
        UpsertShape(s.history, u.today, NextGoal(s, u));
        forall day ensures EffectiveOn(Apply(s, u).history, day) == LastGoal(updates, day) {
          UpsertChangesOnlyFromToday(s.history, u.today, NextGoal(s, u), day);
          assert !HasRowIn(s.history, u.today, day);
        }
        forall e | e in Apply(s, u).history
          ensures exists i :: 0 <= i < |updates| && updates[i].today == e.effectiveFrom
        {
          if e in s.history && e.effectiveFrom != u.today {
            var i :| 0 <= i < n && updates[..n][i].today == e.effectiveFrom;
            assert updates[i].today == e.effectiveFrom;
          }
        }
      }
    }
  }

  // ---- The service -------------------------------------------------------------------------------

  ghost predicate TakenOver(before: Option<Goal>, u: Update, after: Goal) {
    && (u.mode.Some? ==> after.mode == u.mode.value)
    && (u.mode.None? ==> after.mode == if before.Some? then before.value.mode else ALL)
    && (u.count.Some? ==> after.count == u.count)
    && (u.count.None? ==> after.count == if before.Some? then before.value.count else None)
  }

  class RoutineSettings {
    var setting: Option<Goal>
    var history: seq<Entry>

    ghost function View(): Store
      reads this
    {
      Store(setting, history)
    }

    ghost predicate Valid()
      reads this
    {
      Ascending(history)
    }

    constructor ()
      ensures Valid() && View() == Store(None, [])
    {
      setting, history := None, [];
    }

    // What is given is taken over, and what is not is kept; at first there is mode ALL and no count.
    method UpdateSettings(u: Update) returns (r: Result<Goal, string>)
      requires Valid()
      modifies this
      ensures Valid() && View() == Apply(old(View()), u)
      ensures r.Success? ==> setting == Some(r.value) && TakenOver(old(setting), u, r.value)
      ensures r.Success? ==> r.value.mode == COUNT ==> r.value.count.Some? && 1 <= r.value.count.value
      ensures r.Failure? ==> setting == old(setting) && history == old(history)
      ensures r.Failure? ==>
        exists goal :: TakenOver(old(setting), u, goal) && goal.mode == COUNT && (goal.count == None || goal.count.value < 1)
      ensures r.Success? ==> forall e :: e in history <==>
        e == Entry(u.today, r.value) || (e in old(history) && e.effectiveFrom != u.today)
    {
      var nextMode :=
        if u.mode.Some? then u.mode.value else if setting.Some? then setting.value.mode else ALL;
      var nextCount := if u.count.Some? then u.count else if setting.Some? then setting.value.count else None;
      if nextMode == COUNT && (nextCount.None? || nextCount.value <= 0) {
        assert TakenOver(setting, u, Goal(nextMode, nextCount));
        return Failure("dailyGoalCount of at least 1 is required");
      }
      var goal := Goal(nextMode, nextCount);
      UpsertShape(history, u.today, goal);
      setting := Some(goal);
      history := Upsert(history, u.today, goal);
      return Success(goal);
    }
  }
}

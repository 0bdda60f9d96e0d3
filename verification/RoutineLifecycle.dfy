// One routine over time: pausing, resuming, ending, and checking days off.
module RoutineLifecycle {
  import opened Wrappers

  datatype Status = ACTIVE | PAUSED | ENDED

  // Days are day numbers. The first day counts as paused, the day of resumption does not.
  datatype Pause = Pause(pausedFrom: int, pausedTo: Option<int>)

  datatype Log = Log(checkedDate: int, createdOn: int)

  datatype Routine = Routine(status: Status, deleted: bool, pauses: seq<Pause>, logs: seq<Log>)

  datatype Error =
    | RoutineNotFound | CannotPauseEnded | AlreadyPaused | NotPaused | RoutinePaused | RoutineEnded
    | FutureDateNotAllowed | AlreadyChecked | LogNotFound

  datatype Op =
    | PauseRoutine
    | ResumeRoutine
    | EndRoutine
    | Check(date: Option<int>)
    | Uncheck(date: Option<int>)

  datatype Event = Event(today: int, op: Op)

  const NEW_ROUTINE := Routine(ACTIVE, false, [], [])

  // ---- The steps ---------------------------------------------------------------------------

  function Chosen(date: Option<int>, today: int): int {
    if date.Some? then date.value else today
  }

  predicate HasLog(logs: seq<Log>, date: int) {
    exists i :: 0 <= i < |logs| && logs[i].checkedDate == date
  }

  function Refusal(r: Routine, e: Event): Option<Error> {
    if r.deleted then Some(RoutineNotFound)
    else match e.op
    case PauseRoutine =>
      if r.status == ENDED then Some(CannotPauseEnded)
      else if r.status == PAUSED then Some(AlreadyPaused) else None
    case ResumeRoutine => if r.status != PAUSED then Some(NotPaused) else None
    case EndRoutine => None
    case Check(date) =>
      if r.status == PAUSED then Some(RoutinePaused)
      else if r.status == ENDED then Some(RoutineEnded)
      else if Chosen(date, e.today) > e.today then Some(FutureDateNotAllowed)
      else if HasLog(r.logs, Chosen(date, e.today)) then Some(AlreadyChecked)
      else None
    case Uncheck(date) => if HasLog(r.logs, Chosen(date, e.today)) then None else Some(LogNotFound)
  }

  // The open pause that started last, as `orderBy: pausedFrom desc` finds it.
  function LatestOpen(pauses: seq<Pause>): (k: Option<nat>)
    ensures k.Some? ==> k.value < |pauses| && pauses[k.value].pausedTo.None?
    ensures k.Some? ==> forall i :: 0 <= i < |pauses| && pauses[i].pausedTo.None? ==>
              pauses[i].pausedFrom <= pauses[k.value].pausedFrom
    ensures k.None? ==> forall i :: 0 <= i < |pauses| ==> pauses[i].pausedTo.Some?
  {
    if pauses == [] then None
    else
      var n := |pauses| - 1;
      var k := LatestOpen(pauses[..n]);
      if pauses[n].pausedTo.None? && (k.None? || pauses[k.value].pausedFrom <= pauses[n].pausedFrom) then Some(n) else k
  }

  function CloseLatest(pauses: seq<Pause>, today: int): seq<Pause> {
    var k := LatestOpen(pauses);
    if k.Some? then pauses[k.value := pauses[k.value].(pausedTo := Some(today))] else pauses
  }

  function WithoutLog(logs: seq<Log>, date: int): (kept: seq<Log>)
    ensures forall l :: l in kept <==> l in logs && l.checkedDate != date
  {
    if logs == [] then []
    else
      var n := |logs| - 1;
      assert logs == logs[..n] + [logs[n]];
      WithoutLog(logs[..n], date) + if logs[n].checkedDate == date then [] else [logs[n]]
  }

  function Apply(r: Routine, e: Event): Routine {
    if Refusal(r, e).Some? then r
    else match e.op
    case PauseRoutine => r.(status := PAUSED, pauses := r.pauses + [Pause(e.today, None)])
    case ResumeRoutine => r.(status := ACTIVE, pauses := CloseLatest(r.pauses, e.today))
    case EndRoutine =>
      r.(status := ENDED, deleted := true,
         pauses := if r.status == PAUSED then CloseLatest(r.pauses, e.today) else r.pauses)
    case Check(date) => r.(logs := r.logs + [Log(Chosen(date, e.today), e.today)])
    case Uncheck(date) => r.(logs := WithoutLog(r.logs, Chosen(date, e.today)))
  }

  function ApplyAll(events: seq<Event>): Routine {
    if events == [] then NEW_ROUTINE
    else Apply(ApplyAll(events[..|events| - 1]), events[|events| - 1])
  }

  // ---- The invariant of every run -----------------------------------------------------------

  ghost predicate PausesInOrder(pauses: seq<Pause>, now: int) {
    && (forall i :: 0 <= i < |pauses| - 1 ==>
          pauses[i].pausedTo.Some? && pauses[i].pausedTo.value <= pauses[i + 1].pausedFrom)
    && (forall i :: 0 <= i < |pauses| ==>
          && pauses[i].pausedFrom <= now
          && (pauses[i].pausedTo.Some? ==> pauses[i].pausedFrom <= pauses[i].pausedTo.value <= now))
  }

  ghost predicate LogsInOrder(logs: seq<Log>, now: int) {
    && DistinctDates(logs)
    && (forall l :: l in logs ==> l.checkedDate <= l.createdOn <= now)
  }

  ghost predicate HasOpenPause(pauses: seq<Pause>) {
    exists i :: 0 <= i < |pauses| && pauses[i].pausedTo.None?
  }

  ghost predicate Inv(r: Routine, now: int) {
    && PausesInOrder(r.pauses, now)
    && LogsInOrder(r.logs, now)
    && (r.status == PAUSED <==> HasOpenPause(r.pauses))
    && (r.status == ENDED <==> r.deleted)
  }

  lemma {:induction false} ClosingLatestClosesLast(pauses: seq<Pause>, now: int, today: int)
    requires PausesInOrder(pauses, now) && HasOpenPause(pauses) && now <= today
    ensures CloseLatest(pauses, today)
         == pauses[..|pauses| - 1] + [Pause(pauses[|pauses| - 1].pausedFrom, Some(today))]
    ensures PausesInOrder(CloseLatest(pauses, today), today) && !HasOpenPause(CloseLatest(pauses, today))
  {
    var n := |pauses| - 1;
    var i :| 0 <= i < |pauses| && pauses[i].pausedTo.None?;
    assert i == n;
    assert LatestOpen(pauses) == Some(n);
  }

  ghost predicate DistinctDates(logs: seq<Log>) {
    forall i, j :: 0 <= i < j < |logs| ==> logs[i].checkedDate != logs[j].checkedDate
  }

  lemma {:induction false} WithoutLogStaysDistinct(logs: seq<Log>, date: int)
    requires DistinctDates(logs)
    ensures DistinctDates(WithoutLog(logs, date))
  {
    if logs != [] {
      var n := |logs| - 1;
      var init, last := logs[..n], logs[n];
      assert DistinctDates(init);
      WithoutLogStaysDistinct(init, date);
      var kept := WithoutLog(init, date);
      forall i | 0 <= i < |kept| ensures kept[i].checkedDate != last.checkedDate {
        assert kept[i] in init;
        var j :| 0 <= j < n && init[j] == kept[i];
        assert logs[j] == kept[i];
      }
    }
  }

  lemma StepKeepsInv(r: Routine, e: Event, now: int)
    requires Inv(r, now) && now <= e.today
    ensures Inv(Apply(r, e), e.today)
  {
    if Refusal(r, e).None? {
      match e.op {
        case PauseRoutine =>
          var after := Apply(r, e).pauses;
          assert after[|r.pauses|].pausedTo.None?;
          assert forall i :: 0 <= i < |r.pauses| ==> r.pauses[i].pausedTo.Some?;
        case ResumeRoutine => ClosingLatestClosesLast(r.pauses, now, e.today);
        case EndRoutine => if r.status == PAUSED { ClosingLatestClosesLast(r.pauses, now, e.today); }
        case Check(date) =>
        case Uncheck(date) => WithoutLogStaysDistinct(r.logs, Chosen(date, e.today));
      }
    }
  }

  ghost predicate DaysInOrder(events: seq<Event>) {
    forall i, j :: 0 <= i < j < |events| ==> events[i].today <= events[j].today
  }

  lemma {:induction false} RunKeepsInv(events: seq<Event>, now: int)
    requires DaysInOrder(events)
    requires events != [] ==> events[|events| - 1].today <= now
    ensures Inv(ApplyAll(events), now)
  {
    if events != [] {
      var n := |events| - 1;
      RunKeepsInv(events[..n], events[n].today);
      StepKeepsInv(ApplyAll(events[..n]), events[n], events[n].today);
    }
  }

  // At most one pause is open, so "paused" means exactly one.
  lemma PausedMeansExactlyOneOpen(events: seq<Event>, now: int, i: nat, j: nat)
    requires DaysInOrder(events) && (events != [] ==> events[|events| - 1].today <= now)
    requires var p := ApplyAll(events).pauses;
      i < |p| && j < |p| && p[i].pausedTo.None? && p[j].pausedTo.None?
    ensures i == j && ApplyAll(events).status == PAUSED
  {
    RunKeepsInv(events, now);
  }

  lemma HasLogSnoc(logs: seq<Log>, l: Log, d: int)
    ensures HasLog(logs + [l], d) <==> HasLog(logs, d) || l.checkedDate == d
  {
    var all := logs + [l];
    if HasLog(logs, d) {
      var i :| 0 <= i < |logs| && logs[i].checkedDate == d;
      assert all[i].checkedDate == d;
    }
    assert all[|logs|].checkedDate == l.checkedDate;
  }

  lemma {:induction false} WithoutAbsentLog(logs: seq<Log>, date: int)
    requires !HasLog(logs, date)
    ensures WithoutLog(logs, date) == logs
  {
    if logs != [] {
      var n := |logs| - 1;
      var init, last := logs[..n], logs[n];
      assert logs == init + [last];
      HasLogSnoc(init, last, date);
      WithoutAbsentLog(init, date);
    }
  }

  lemma WithoutAddedLog(logs: seq<Log>, l: Log)
    requires !HasLog(logs, l.checkedDate)
    ensures WithoutLog(logs + [l], l.checkedDate) == logs
  {
    assert (logs + [l])[..|logs|] == logs;
    WithoutAbsentLog(logs, l.checkedDate);
  }

  // Taking a check back leaves the routine as it was.
  lemma CheckThenUncheckRestores(r: Routine, date: Option<int>, today: int, later: int)
    requires Refusal(r, Event(today, Check(date))).None?
    ensures Apply(Apply(r, Event(today, Check(date))), Event(later, Uncheck(Some(Chosen(date, today))))) == r
  {
    var day := Chosen(date, today);
    HasLogSnoc(r.logs, Log(day, today), day);
    WithoutAddedLog(r.logs, Log(day, today));
  }

  // ---- What the pause history means -----------------------------------------------------------

  // A day is left out of statistics when a pause covers it; an open pause reaches through today.
  predicate IsExcluded(pauses: seq<Pause>, day: int, today: int) {
    exists i :: 0 <= i < |pauses| && Covers(pauses[i], day, today)
  }

  predicate Covers(p: Pause, day: int, today: int) {
    p.pausedFrom <= day < if p.pausedTo.Some? then p.pausedTo.value else today + 1
  }

  // The status after the last operation on or before that day.
  function StatusAtEndOf(events: seq<Event>, day: int): Status {
    if events == [] then NEW_ROUTINE.status
    else if events[|events| - 1].today <= day then ApplyAll(events).status
    else StatusAtEndOf(events[..|events| - 1], day)
  }

  lemma ExclusionAppend(pauses: seq<Pause>, p: Pause, day: int, today: int)
    ensures IsExcluded(pauses + [p], day, today) <==> IsExcluded(pauses, day, today) || Covers(p, day, today)
  {
    var all := pauses + [p];
    if IsExcluded(pauses, day, today) {
      var i :| 0 <= i < |pauses| && Covers(pauses[i], day, today);
      assert Covers(all[i], day, today);
    }
    if Covers(p, day, today) {
      assert Covers(all[|pauses|], day, today);
    }
  }

  // An operation on day t leaves the exclusion of the days before t alone and sets that of t and
  // later days to "is paused now".
  lemma {:induction false} StepExcludes(r: Routine, e: Event, now: int, day: int, today: int)
    requires Inv(r, now) && now <= e.today && day <= today
    requires now <= day ==> (IsExcluded(r.pauses, day, today) <==> r.status == PAUSED)
    ensures day < e.today ==> (IsExcluded(Apply(r, e).pauses, day, today) <==> IsExcluded(r.pauses, day, today))
    ensures e.today <= day ==> (IsExcluded(Apply(r, e).pauses, day, today) <==> Apply(r, e).status == PAUSED)
  {
    if Refusal(r, e).None? && !e.op.Check? && !e.op.Uncheck? {
      if e.op.PauseRoutine? {
        ExclusionAppend(r.pauses, Pause(e.today, None), day, today);
      } else if r.status == PAUSED {
        ClosingLatestClosesLast(r.pauses, now, e.today);
        var n := |r.pauses| - 1;
        var init, last := r.pauses[..n], r.pauses[n];
        assert r.pauses == init + [last];
        ExclusionAppend(init, last, day, today);
        ExclusionAppend(init, Pause(last.pausedFrom, Some(e.today)), day, today);
        assert e.today <= day ==> !IsExcluded(init, day, today);
      }
    }
  }

  // Over any run: a day is excluded exactly when the routine was paused at the end of that day.
  lemma {:induction false} ExcludedIffPausedAtEndOfDay(events: seq<Event>, day: int, today: int)
    requires DaysInOrder(events) && day <= today
    ensures IsExcluded(ApplyAll(events).pauses, day, today) <==> StatusAtEndOf(events, day) == PAUSED
  {
    if events != [] {
      var n := |events| - 1;
      var before := events[..n];
      ExcludedIffPausedAtEndOfDay(before, day, today);
      RunKeepsInv(before, events[n].today);
      if n == 0 {
        StepExcludes(ApplyAll(before), events[n], events[n].today, day, today);
      } else {
        RunKeepsInv(before, events[n - 1].today);
        StepExcludes(ApplyAll(before), events[n], events[n - 1].today, day, today);
      }
    }
  }

  // ---- The service ------------------------------------------------------------------------------

  class RoutineService {
    var routine: Routine
    ghost var now: int

    ghost predicate Valid()
      reads this
    {
      Inv(routine, now)
    }

    constructor (today: int)
      ensures Valid() && now == today && routine == NEW_ROUTINE
    {
      routine := NEW_ROUTINE;
      now := today;
    }

    // Opens the only open pause, today.
    method PauseNow(today: int) returns (error: Option<Error>)
      requires Valid() && now <= today
      modifies this
      ensures Valid() && now == today
      ensures error == Refusal(old(routine), Event(today, PauseRoutine))
      ensures routine == Apply(old(routine), Event(today, PauseRoutine))
      ensures error.None? <==> old(routine).status == ACTIVE
      ensures error == Some(AlreadyPaused) <==> old(routine).status == PAUSED
      ensures error == Some(RoutineNotFound) <==> old(routine).status == ENDED
      ensures error.Some? ==> routine == old(routine)
      ensures error.None? ==> routine == old(routine).(status := PAUSED, pauses := old(routine).pauses + [Pause(today, None)])
      ensures error.None? ==> routine.status == PAUSED && !HasOpenPause(old(routine).pauses) && HasOpenPause(routine.pauses)
    {
      StepKeepsInv(routine, Event(today, PauseRoutine), now);
      now := today;
      if routine.deleted { return Some(RoutineNotFound); }
      if routine.status == ENDED { return Some(CannotPauseEnded); }
      if routine.status == PAUSED { return Some(AlreadyPaused); }
      routine := routine.(status := PAUSED, pauses := routine.pauses + [Pause(today, None)]);
      assert routine.pauses[|routine.pauses| - 1].pausedTo.None?;
      return None;
    }

    // The open pause that started last.
    method FindOpenPause() returns (k: Option<nat>)
      ensures k == LatestOpen(routine.pauses)
      ensures k.None? <==> !HasOpenPause(routine.pauses)
      ensures k.Some? ==> k.value < |routine.pauses| && routine.pauses[k.value].pausedTo.None?
      ensures k.Some? ==> forall i :: 0 <= i < |routine.pauses| && routine.pauses[i].pausedTo.None? ==>
                routine.pauses[i].pausedFrom <= routine.pauses[k.value].pausedFrom
    {
      k := None;
      var pauses := routine.pauses;
      for i := 0 to |pauses|
        invariant k == LatestOpen(pauses[..i])
      {
        assert pauses[..i + 1][..i] == pauses[..i];
        if pauses[i].pausedTo.None? && (k.None? || pauses[k.value].pausedFrom <= pauses[i].pausedFrom) {
          k := Some(i);
        }
      }
      assert pauses[..|pauses|] == pauses;
    }

    method ClosePause(today: int)
      modifies this`routine
      ensures routine == old(routine).(pauses := CloseLatest(old(routine).pauses, today))
    {
      var k := FindOpenPause();
      if k.Some? {
        var pauses := routine.pauses;
        routine := routine.(pauses := pauses[k.value := pauses[k.value].(pausedTo := Some(today))]);
      }
    }

    // Closes the open pause, which is the last one, today.
    method ResumeNow(today: int) returns (error: Option<Error>)
      requires Valid() && now <= today
      modifies this
      ensures Valid() && now == today
      ensures error == Refusal(old(routine), Event(today, ResumeRoutine))
      ensures routine == Apply(old(routine), Event(today, ResumeRoutine))
      ensures error.None? <==> old(routine).status == PAUSED
      ensures error == Some(NotPaused) <==> old(routine).status == ACTIVE
      ensures error == Some(RoutineNotFound) <==> old(routine).status == ENDED
      ensures error.Some? ==> routine == old(routine)
      ensures routine.logs == old(routine).logs && routine.deleted == old(routine).deleted
      ensures error.None? ==> routine.status == ACTIVE && ClosedLast(old(routine).pauses, routine.pauses, today)
    {
      StepKeepsInv(routine, Event(today, ResumeRoutine), now);
      if routine.status == PAUSED {
        ClosingLatestClosesLast(routine.pauses, now, today);
      }
      now := today;
      if routine.deleted { return Some(RoutineNotFound); }
      if routine.status != PAUSED { return Some(NotPaused); }
      ClosePause(today);
      routine := routine.(status := ACTIVE);
      return None;
    }

    // Ends the routine for good; an open pause is closed today, and no other pause changes.
    method EndNow(today: int) returns (error: Option<Error>)
      requires Valid() && now <= today
      modifies this
      ensures Valid() && now == today
      ensures error == Refusal(old(routine), Event(today, EndRoutine))
      ensures routine == Apply(old(routine), Event(today, EndRoutine))
      ensures error.None? <==> old(routine).status != ENDED
      ensures error.Some? ==> error == Some(RoutineNotFound) && routine == old(routine)
      ensures routine.logs == old(routine).logs
      ensures routine.status == ENDED && routine.deleted && !HasOpenPause(routine.pauses)
      ensures if old(routine).status == PAUSED then ClosedLast(old(routine).pauses, routine.pauses, today)
              else routine.pauses == old(routine).pauses
    {
      StepKeepsInv(routine, Event(today, EndRoutine), now);
      if routine.status == PAUSED {
        ClosingLatestClosesLast(routine.pauses, now, today);
      }
      now := today;
      if routine.deleted { return Some(RoutineNotFound); }
      if routine.status == PAUSED {
        ClosePause(today);
      }
      routine := routine.(status := ENDED, deleted := true);
      return None;
    }

    // Logs the day once, and only an active routine's, today's or an earlier one.
    method CheckDay(date: Option<int>, today: int) returns (error: Option<Error>)
      requires Valid() && now <= today
      modifies this
      ensures Valid() && now == today
      ensures error == Refusal(old(routine), Event(today, Check(date)))
      ensures routine == Apply(old(routine), Event(today, Check(date)))
      ensures error.None? <==>
        old(routine).status == ACTIVE && Chosen(date, today) <= today && !HasLog(old(routine).logs, Chosen(date, today))
      ensures var day := if date.Some? then date.value else today;
        && (error == Some(RoutinePaused) <==> old(routine).status == PAUSED)
        && (error == Some(RoutineNotFound) <==> old(routine).status == ENDED)
        && (error == Some(FutureDateNotAllowed) <==> old(routine).status == ACTIVE && today < day)
        && (error == Some(AlreadyChecked) <==> old(routine).status == ACTIVE && day <= today && HasLog(old(routine).logs, day))
        && (error.None? ==> routine == old(routine).(logs := old(routine).logs + [Log(day, today)]))
      ensures error.Some? ==> routine == old(routine)
      ensures forall d :: HasLog(routine.logs, d) <==>
                HasLog(old(routine).logs, d) || (error.None? && d == if date.Some? then date.value else today)
    {
      StepKeepsInv(routine, Event(today, Check(date)), now);
      now := today;
      if routine.deleted { return Some(RoutineNotFound); }
      if routine.status == PAUSED { return Some(RoutinePaused); }
      if routine.status == ENDED { return Some(RoutineEnded); }
      var day := if date.Some? then date.value else today;
      if day > today { return Some(FutureDateNotAllowed); }
      if HasLog(routine.logs, day) { return Some(AlreadyChecked); }
      ghost var logs := routine.logs;
      routine := routine.(logs := routine.logs + [Log(day, today)]);
      forall d ensures HasLog(routine.logs, d) <==> HasLog(logs, d) || d == day {
        HasLogSnoc(logs, Log(day, today), d);
      }
      return None;
    }

    // Removes the log of the day and no other.
    method UncheckDay(date: Option<int>, today: int) returns (error: Option<Error>)
      requires Valid() && now <= today
      modifies this
      ensures Valid() && now == today
      ensures error == Refusal(old(routine), Event(today, Uncheck(date)))
      ensures routine == Apply(old(routine), Event(today, Uncheck(date)))
      ensures error.None? <==> old(routine).status != ENDED && HasLog(old(routine).logs, Chosen(date, today))
      ensures error == Some(RoutineNotFound) <==> old(routine).status == ENDED
      ensures error.Some? ==> routine == old(routine)
      ensures routine.status == old(routine).status && routine.pauses == old(routine).pauses
      ensures forall l :: l in routine.logs <==>
                l in old(routine).logs && (error.None? ==> l.checkedDate != if date.Some? then date.value else today)
    {
      StepKeepsInv(routine, Event(today, Uncheck(date)), now);
      now := today;
      if routine.deleted { return Some(RoutineNotFound); }
      var day := if date.Some? then date.value else today;
      if !HasLog(routine.logs, day) { return Some(LogNotFound); }
      routine := routine.(logs := WithoutLog(routine.logs, day));
      return None;
    }
  }

  // The last pause, and only it, is closed today.
  ghost predicate ClosedLast(before: seq<Pause>, after: seq<Pause>, today: int) {
    && before != [] && before[|before| - 1].pausedTo.None?
    && after == before[..|before| - 1] + [Pause(before[|before| - 1].pausedFrom, Some(today))]
    && !HasOpenPause(after)
  }
}

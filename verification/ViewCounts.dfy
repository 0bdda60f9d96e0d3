// View counts of announcements: counted in Redis, written back to the database by the syncers of any number
// of server processes, with viewers and syncers interleaved command by command.
module ViewCounts {
  // Where a syncer stands with one announcement.
  datatype Stage =
    | Idle
    | Fetched(count: int)       // GET returned count
    | Written(written: int)     // the database row has been incremented
    | Emptied                   // DECRBY left 0 or less: DEL comes next
    | Deleted                   // SREM comes next

  // Redis, the database, the syncers with the announcements they have yet to read, and what the history of the
  // run adds up to: views made, viewers between INCR and SADD, counts found by a DEL, counts written twice after
  // a failed DECRBY.
  datatype State = State(
    syncers: nat, counts: map<string, int>, tracking: set<string>, db: map<string, int>,
    listed: set<(nat, string)>, stages: map<(nat, string), Stage>,
    views: map<string, int>, pending: map<string, nat>, dropped: map<string, int>, doubled: map<string, int>)

  // A command that fails has no effect of its own and ends its caller's turn with the announcement. One that
  // takes effect but reports an error is that command followed by the failure of the caller's next one.
  datatype Command =
    | Incr(id: string)                      // a viewer counts
    | Sadd(id: string)                      // and registers the announcement for the syncers
    | SaddFails(id: string)
    | Smembers(id: string, syncer: nat)     // a syncer finds the announcement registered
    | Fetch(id: string, syncer: nat)        // reads its count
    | WriteDb(id: string, syncer: nat)      // and increments the database by it
    | WriteFails(id: string, syncer: nat)
    | Decrby(id: string, syncer: nat)       // and takes it off the Redis count
    | DecrbyFails(id: string, syncer: nat)
    | Del(id: string, syncer: nat)
    | DelFails(id: string, syncer: nat)
    | Srem(id: string, syncer: nat)
    | SremFails(id: string, syncer: nat)

  function At(m: map<string, int>, id: string): int {
    if id in m then m[id] else 0
  }

  function PendingOf(s: State, id: string): nat {
    if id in s.pending then s.pending[id] else 0
  }

  function StageOf(s: State, w: nat, id: string): Stage {
    if (w, id) in s.stages then s.stages[(w, id)] else Idle
  }

  // Commands after which every syncer stands where it stood.
  predicate LeavesStages(c: Command) {
    c.Incr? || c.Sadd? || c.SaddFails? || c.Smembers?
  }

  predicate Enabled(s: State, c: Command) {
    match c
    case Incr(_) => true
    case Sadd(id) => PendingOf(s, id) > 0
    case SaddFails(id) => PendingOf(s, id) > 0
    case Smembers(id, w) => w < s.syncers && id in s.tracking
    case Fetch(id, w) => w < s.syncers && StageOf(s, w, id) == Idle && (w, id) in s.listed
    case WriteDb(id, w) => w < s.syncers && StageOf(s, w, id).Fetched?
    case WriteFails(id, w) => w < s.syncers && StageOf(s, w, id).Fetched?
    case Decrby(id, w) => w < s.syncers && StageOf(s, w, id).Written?
    case DecrbyFails(id, w) => w < s.syncers && StageOf(s, w, id).Written?
    case Del(id, w) => w < s.syncers && StageOf(s, w, id) == Emptied
    case DelFails(id, w) => w < s.syncers && StageOf(s, w, id) == Emptied
    case Srem(id, w) => w < s.syncers && StageOf(s, w, id) == Deleted
    case SremFails(id, w) => w < s.syncers && StageOf(s, w, id) == Deleted
  }

  // A command whose turn has not come does nothing; a count that is not positive is passed over.
  function Step(s: State, c: Command): State {
    if !Enabled(s, c) then s
    else match c
    case Incr(id) =>
      s.(counts := s.counts[id := At(s.counts, id) + 1],
         views := s.views[id := At(s.views, id) + 1],
         pending := s.pending[id := PendingOf(s, id) + 1])
    case Sadd(id) =>
      s.(tracking := s.tracking + {id}, pending := s.pending[id := PendingOf(s, id) - 1])
    case SaddFails(id) => s.(pending := s.pending[id := PendingOf(s, id) - 1])
    case Smembers(id, w) => s.(listed := s.listed + {(w, id)})
    case Fetch(id, w) =>
      s.(listed := s.listed - {(w, id)},
         stages := if At(s.counts, id) > 0 then s.stages[(w, id) := Fetched(At(s.counts, id))] else s.stages)
    case WriteDb(id, w) =>
      var n := StageOf(s, w, id).count;
      s.(db := s.db[id := At(s.db, id) + n], stages := s.stages[(w, id) := Written(n)])
    case WriteFails(id, w) => s.(stages := s.stages[(w, id) := Idle])
    case Decrby(id, w) =>
      var left := At(s.counts, id) - StageOf(s, w, id).written;
      s.(counts := s.counts[id := left], stages := s.stages[(w, id) := if left <= 0 then Emptied else Idle])
    case DecrbyFails(id, w) =>
      s.(stages := s.stages[(w, id) := Idle],
         doubled := s.doubled[id := At(s.doubled, id) + StageOf(s, w, id).written])
    case Del(id, w) =>
      s.(counts := s.counts - {id}, dropped := s.dropped[id := At(s.dropped, id) + At(s.counts, id)],
         stages := s.stages[(w, id) := Deleted])
    case DelFails(id, w) => s.(stages := s.stages[(w, id) := Idle])
    case Srem(id, w) => s.(tracking := s.tracking - {id}, stages := s.stages[(w, id) := Idle])
    case SremFails(id, w) => s.(stages := s.stages[(w, id) := Idle])
  }

  function Start(syncers: nat): State {
    State(syncers, map[], {}, map[], {}, map[], map[], map[], map[], map[])
  }

  function After(syncers: nat, commands: seq<Command>): State {
    if commands == [] then Start(syncers)
    else Step(After(syncers, commands[..|commands| - 1]), commands[|commands| - 1])
  }

  // ---- The balance of one announcement ----------------------------------------------------------

  function Flying(stage: Stage): int {
    if stage.Written? then stage.written else 0
  }

  function FlyingBelow(s: State, id: string, n: nat): int {
    if n == 0 then 0 else FlyingBelow(s, id, n - 1) + Flying(StageOf(s, n - 1, id))
  }

  // Counted in the database but not yet taken off the Redis count, over all syncers.
  function InFlight(s: State, id: string): int {
    FlyingBelow(s, id, s.syncers)
  }

  ghost predicate OthersStay(s: State, t: State, w: nat, id: string) {
    forall v :: v != w ==> StageOf(t, v, id) == StageOf(s, v, id)
  }

  lemma {:induction false} OneStageMoves(s: State, t: State, id: string, w: nat, n: nat)
    requires OthersStay(s, t, w, id)
    ensures FlyingBelow(t, id, n) - FlyingBelow(s, id, n)
         == if w < n then Flying(StageOf(t, w, id)) - Flying(StageOf(s, w, id)) else 0
  {
    if n > 0 {
      OneStageMoves(s, t, id, w, n - 1);
    }
  }

  ghost predicate Balanced(s: State, id: string) {
    At(s.db, id) + At(s.counts, id) + At(s.dropped, id) == At(s.views, id) + InFlight(s, id) + At(s.doubled, id)
  }

  // What a syncer has read or written is positive.
  ghost predicate Positive(s: State, id: string) {
    && At(s.doubled, id) >= 0
    && forall w :: (StageOf(s, w, id).Fetched? ==> StageOf(s, w, id).count > 0)
                   && (StageOf(s, w, id).Written? ==> StageOf(s, w, id).written > 0)
  }

  // Nothing about this announcement differs.
  ghost predicate SameFor(s: State, t: State, id: string) {
    SameCounts(s, t, id) && forall w :: StageOf(t, w, id) == StageOf(s, w, id)
  }

  predicate SameCounts(s: State, t: State, id: string) {
    && At(t.counts, id) == At(s.counts, id) && At(t.db, id) == At(s.db, id) && At(t.views, id) == At(s.views, id)
    && At(t.dropped, id) == At(s.dropped, id) && At(t.doubled, id) == At(s.doubled, id)
    && PendingOf(t, id) == PendingOf(s, id) && (id in t.tracking <==> id in s.tracking)
  }

  lemma StagesAside(s: State, c: Command, id: string)
    requires c.id != id || LeavesStages(c) || !Enabled(s, c)
    ensures forall w :: StageOf(Step(s, c), w, id) == StageOf(s, w, id)
    ensures Step(s, c).syncers == s.syncers
  {
  }

  lemma SyncerMoves(s: State, c: Command)
    requires !LeavesStages(c) && Enabled(s, c)
    ensures OthersStay(s, Step(s, c), c.syncer, c.id) && Step(s, c).syncers == s.syncers && c.syncer < s.syncers
  {
  }

  lemma ReadAside(s: State, c: Command, id: string)
    requires c.id != id && (LeavesStages(c) || c.Fetch?)
    ensures SameCounts(s, Step(s, c), id)
  {
  }

  lemma WriteAside(s: State, c: Command, id: string)
    requires c.id != id && (c.WriteDb? || c.Decrby? || c.DecrbyFails?)
    ensures SameCounts(s, Step(s, c), id)
  {
  }

  lemma DelAside(s: State, c: Command, id: string)
    requires c.id != id && (c.Del? || c.Srem?)
    ensures SameCounts(s, Step(s, c), id)
  {
  }

  lemma FailureAside(s: State, c: Command, id: string)
    requires c.id != id && (c.WriteFails? || c.DelFails? || c.SremFails?)
    ensures SameCounts(s, Step(s, c), id)
  {
  }

  // A command touches one announcement only.
  lemma OthersUntouched(s: State, c: Command, id: string)
    requires c.id != id
    ensures SameFor(s, Step(s, c), id) && InFlight(Step(s, c), id) == InFlight(s, id)
  {
    if LeavesStages(c) || c.Fetch? {
      ReadAside(s, c, id);
    } else if c.Del? || c.Srem? {
      DelAside(s, c, id);
    } else if c.WriteFails? || c.DelFails? || c.SremFails? {
      FailureAside(s, c, id);
    } else {
      WriteAside(s, c, id);
    }
    StagesAside(s, c, id);
    OneStageMoves(s, Step(s, c), id, 0, s.syncers);
  }

  // How a command moves the amount in flight.
  lemma FlightMoves(s: State, c: Command)
    requires Enabled(s, c)
    ensures InFlight(Step(s, c), c.id) - InFlight(s, c.id)
         == if LeavesStages(c) then 0 else Flying(StageOf(Step(s, c), c.syncer, c.id)) - Flying(StageOf(s, c.syncer, c.id))
  {
    if LeavesStages(c) {
      StagesAside(s, c, c.id);
      OneStageMoves(s, Step(s, c), c.id, 0, s.syncers);
    } else {
      SyncerMoves(s, c);
      OneStageMoves(s, Step(s, c), c.id, c.syncer, s.syncers);
    }
  }

  lemma StepKeepsBalance(s: State, c: Command, id: string)
    requires Balanced(s, id)
    ensures Balanced(Step(s, c), id)
  {
    if c.id != id {
      OthersUntouched(s, c, id);
    } else if Enabled(s, c) {
      FlightMoves(s, c);
    }
  }

  lemma StepStaysPositive(s: State, c: Command, id: string)
    requires Positive(s, id)
    ensures Positive(Step(s, c), id)
  {
    if c.id != id {
      OthersUntouched(s, c, id);
    } else if LeavesStages(c) || !Enabled(s, c) {
      StagesAside(s, c, id);
    } else {
      SyncerMoves(s, c);
    }
  }

  // After every command of every run with any number of syncers, every view is in the database, in Redis or
  // found by a DEL, and nothing else is, except counts in flight and counts written twice.
  lemma {:induction false} EveryViewIsAccountedFor(syncers: nat, commands: seq<Command>, id: string)
    ensures Balanced(After(syncers, commands), id) && Positive(After(syncers, commands), id)
    ensures After(syncers, commands).syncers == syncers
  {
    if commands == [] {
      NothingFlies(Start(syncers), id, syncers);
    } else {
      var before, c := commands[..|commands| - 1], commands[|commands| - 1];
      EveryViewIsAccountedFor(syncers, before, id);
      StepKeepsBalance(After(syncers, before), c, id);
      StepStaysPositive(After(syncers, before), c, id);
    }
  }

  lemma {:induction false} NothingFlies(s: State, id: string, n: nat)
    requires forall w: nat :: w < n ==> !StageOf(s, w, id).Written?
    ensures FlyingBelow(s, id, n) == 0
  {
    if n > 0 {
      NothingFlies(s, id, n - 1);
    }
  }

  // ---- Exactly the views made ---------------------------------------------------------------------

  ghost predicate ExactNow(s: State, id: string) {
    At(s.db, id) + At(s.counts, id) == At(s.views, id) + InFlight(s, id)
  }

  // A DECRBY fails after the database update.
  ghost predicate FailsWritten(s: State, c: Command, id: string) {
    c.DecrbyFails? && c.id == id && Enabled(s, c)
  }

  // A DEL finds a count other than 0.
  ghost predicate DeletesCount(s: State, c: Command, id: string) {
    c.Del? && c.id == id && Enabled(s, c) && At(s.counts, id) != 0
  }

  lemma StaysExactIff(s: State, c: Command, id: string)
    requires ExactNow(s, id) && Positive(s, id)
    ensures ExactNow(Step(s, c), id) <==> !FailsWritten(s, c, id) && !DeletesCount(s, c, id)
  {
    if c.id != id {
      OthersUntouched(s, c, id);
    } else if Enabled(s, c) {
      FlightMoves(s, c);
    }
  }

  ghost predicate ExactThroughout(syncers: nat, commands: seq<Command>, id: string) {
    ExactNow(After(syncers, commands), id)
    && (commands != [] ==> ExactThroughout(syncers, commands[..|commands| - 1], id))
  }

  ghost predicate NothingMiscounted(syncers: nat, commands: seq<Command>, id: string) {
    commands == [] ||
    (var before, c := commands[..|commands| - 1], commands[|commands| - 1];
     NothingMiscounted(syncers, before, id)
     && !FailsWritten(After(syncers, before), c, id) && !DeletesCount(After(syncers, before), c, id))
  }

  // Throughout a run database plus Redis equal the views made, up to the amount in flight, exactly when no
  // DECRBY fails after the database update and every DEL finds 0.
  lemma {:induction false} ExactThroughoutIff(syncers: nat, commands: seq<Command>, id: string)
    ensures ExactThroughout(syncers, commands, id) <==> NothingMiscounted(syncers, commands, id)
  {
    EveryViewIsAccountedFor(syncers, commands, id);
    if commands != [] {
      var before := commands[..|commands| - 1];
      ExactThroughoutIff(syncers, before, id);
      EveryViewIsAccountedFor(syncers, before, id);
      if ExactNow(After(syncers, before), id) {
        StaysExactIff(After(syncers, before), commands[|commands| - 1], id);
      } else {
        assert !ExactThroughout(syncers, before, id);
      }
    }
  }

  // No DECRBY of this announcement fails after the database has been incremented.
  ghost predicate NoFailedDecrby(syncers: nat, commands: seq<Command>, id: string) {
    commands == [] ||
    (var before := commands[..|commands| - 1];
     NoFailedDecrby(syncers, before, id) && !FailsWritten(After(syncers, before), commands[|commands| - 1], id))
  }

  lemma DoubleStep(s: State, c: Command, id: string)
    requires Positive(s, id)
    ensures At(Step(s, c).doubled, id) == 0 <==> At(s.doubled, id) == 0 && !FailsWritten(s, c, id)
  {
    if c.id != id {
      OthersUntouched(s, c, id);
    }
  }

  // Views are counted twice exactly when such a DECRBY fails.
  lemma {:induction false} DoubledIff(syncers: nat, commands: seq<Command>, id: string)
    ensures At(After(syncers, commands).doubled, id) == 0 <==> NoFailedDecrby(syncers, commands, id)
  {
    if commands != [] {
      var before := commands[..|commands| - 1];
      DoubledIff(syncers, before, id);
      EveryViewIsAccountedFor(syncers, before, id);
      DoubleStep(After(syncers, before), commands[|commands| - 1], id);
    }
  }

  // ---- One sync of an announcement at a time --------------------------------------------------------

  ghost predicate IdleBut(s: State, w: nat, id: string) {
    forall v :: v != w ==> StageOf(s, v, id) == Idle
  }

  ghost predicate OneBusy(s: State, id: string) {
    forall v, w :: StageOf(s, v, id) != Idle && StageOf(s, w, id) != Idle ==> v == w
  }

  // No syncer reads the count while another one is at work on it.
  ghost predicate OneAtATime(syncers: nat, commands: seq<Command>, id: string) {
    commands == [] ||
    (var before, c := commands[..|commands| - 1], commands[|commands| - 1];
     OneAtATime(syncers, before, id)
     && (c.Fetch? && c.id == id ==> IdleBut(After(syncers, before), c.syncer, id)))
  }

  // Then a syncer never takes off more than there is.
  ghost predicate Within(s: State, id: string) {
    && OneBusy(s, id)
    && At(s.counts, id) >= 0 && At(s.dropped, id) >= 0
    && forall w :: (StageOf(s, w, id).Fetched? ==> StageOf(s, w, id).count <= At(s.counts, id))
                   && (StageOf(s, w, id).Written? ==> StageOf(s, w, id).written <= At(s.counts, id))
  }

  lemma Alone(s: State, c: Command, id: string)
    requires OneBusy(s, id) && c.id == id && !LeavesStages(c) && Enabled(s, c)
    requires c.Fetch? ==> IdleBut(s, c.syncer, id)
    ensures IdleBut(s, c.syncer, id) && IdleBut(Step(s, c), c.syncer, id)
  {
    SyncerMoves(s, c);
    assert !c.Fetch? ==> StageOf(s, c.syncer, id) != Idle;
  }

  lemma SyncerStaysWithin(s: State, c: Command, id: string)
    requires Within(s, id) && c.id == id && !LeavesStages(c) && Enabled(s, c)
    requires c.Fetch? ==> IdleBut(s, c.syncer, id)
    ensures Within(Step(s, c), id)
  {
    Alone(s, c, id);
  }

  lemma StepStaysWithin(s: State, c: Command, id: string)
    requires Within(s, id)
    requires c.Fetch? && c.id == id ==> IdleBut(s, c.syncer, id)
    ensures Within(Step(s, c), id)
  {
    if c.id != id {
      OthersUntouched(s, c, id);
    } else if LeavesStages(c) || !Enabled(s, c) {
      StagesAside(s, c, id);
    } else {
      SyncerStaysWithin(s, c, id);
    }
  }

  lemma {:induction false} StaysWithin(syncers: nat, commands: seq<Command>, id: string)
    requires OneAtATime(syncers, commands, id)
    ensures Within(After(syncers, commands), id)
  {
    if commands != [] {
      StaysWithin(syncers, commands[..|commands| - 1], id);
      StepStaysWithin(After(syncers, commands[..|commands| - 1]), commands[|commands| - 1], id);
    }
  }

  // Then database plus Redis never exceed the views made by more than what is in flight.
  lemma NeverMoreThanViews(syncers: nat, commands: seq<Command>, id: string)
    requires OneAtATime(syncers, commands, id) && NoFailedDecrby(syncers, commands, id)
    ensures var s := After(syncers, commands);
      At(s.db, id) + At(s.counts, id) <= At(s.views, id) + InFlight(s, id)
  {
    EveryViewIsAccountedFor(syncers, commands, id);
    DoubledIff(syncers, commands, id);
    StaysWithin(syncers, commands, id);
  }

  ghost predicate Emptying(s: State, id: string) {
    exists w :: StageOf(s, w, id) == Emptied
  }

  // The views made since the DECRBY that emptied the count, while the DEL after it is still to come.
  ghost function GapViews(syncers: nat, commands: seq<Command>, id: string): nat {
    if commands == [] then 0
    else
      var before, c := commands[..|commands| - 1], commands[|commands| - 1];
      if !Emptying(After(syncers, before), id) then 0
      else GapViews(syncers, before, id) + if c == Incr(id) then 1 else 0
  }

  // No DEL finds such a view.
  ghost predicate NoViewBeforeDel(syncers: nat, commands: seq<Command>, id: string) {
    commands == [] ||
    (var before, c := commands[..|commands| - 1], commands[|commands| - 1];
     NoViewBeforeDel(syncers, before, id)
     && !(c.Del? && c.id == id && Enabled(After(syncers, before), c) && GapViews(syncers, before, id) > 0))
  }

  // What a DEL will find is exactly the views made since its DECRBY.
  lemma {:induction false} DelFindsGapViews(syncers: nat, commands: seq<Command>, id: string)
    requires OneAtATime(syncers, commands, id)
    ensures var s := After(syncers, commands); Emptying(s, id) ==> At(s.counts, id) == GapViews(syncers, commands, id)
  {
    if commands != [] {
      var before, c := commands[..|commands| - 1], commands[|commands| - 1];
      DelFindsGapViews(syncers, before, id);
      StaysWithin(syncers, before, id);
      EmptyingStep(After(syncers, before), c, id);
    }
  }

  lemma EmptyingAside(s: State, t: State, id: string)
    requires forall w :: StageOf(t, w, id) == StageOf(s, w, id)
    ensures Emptying(t, id) <==> Emptying(s, id)
  {
    if w :| StageOf(s, w, id) == Emptied {
      assert StageOf(t, w, id) == Emptied;
    }
  }

  lemma CountAside(s: State, c: Command, id: string)
    requires c.id == id && (LeavesStages(c) || !Enabled(s, c))
    ensures At(Step(s, c).counts, id) == At(s.counts, id) + if c == Incr(id) then 1 else 0
  {
  }

  lemma EmptyingStep(s: State, c: Command, id: string)
    requires Within(s, id)
    requires c.Fetch? && c.id == id ==> IdleBut(s, c.syncer, id)
    ensures Emptying(Step(s, c), id) ==>
      At(Step(s, c).counts, id)
      == if !Emptying(s, id) then 0 else At(s.counts, id) + if c == Incr(id) then 1 else 0
  {
    if c.id != id {
      OthersUntouched(s, c, id);
      EmptyingAside(s, Step(s, c), id);
    } else if LeavesStages(c) || !Enabled(s, c) {
      StagesAside(s, c, id);
      EmptyingAside(s, Step(s, c), id);
      CountAside(s, c, id);
    } else {
      Alone(s, c, id);
      EmptyingMoves(s, c);
    }
  }

  lemma EmptyingMoves(s: State, c: Command)
    requires Within(s, c.id) && !LeavesStages(c) && Enabled(s, c)
    requires IdleBut(s, c.syncer, c.id) && IdleBut(Step(s, c), c.syncer, c.id)
    ensures Emptying(Step(s, c), c.id) ==> !Emptying(s, c.id) && At(Step(s, c).counts, c.id) == 0
  {
    if Emptying(Step(s, c), c.id) {
      assert StageOf(Step(s, c), c.syncer, c.id) == Emptied;
      assert c.Decrby?;
    }
  }

  lemma DropStep(s: State, c: Command, id: string)
    requires Within(s, id)
    ensures At(Step(s, c).dropped, id) == 0 <==> At(s.dropped, id) == 0 && !DeletesCount(s, c, id)
  {
    if c.id != id {
      OthersUntouched(s, c, id);
    }
  }

  // A view is dropped exactly when a DEL follows it that belongs to a DECRBY before it.
  lemma {:induction false} DroppedIff(syncers: nat, commands: seq<Command>, id: string)
    requires OneAtATime(syncers, commands, id)
    ensures At(After(syncers, commands).dropped, id) == 0 <==> NoViewBeforeDel(syncers, commands, id)
  {
    if commands != [] {
      var before, c := commands[..|commands| - 1], commands[|commands| - 1];
      DroppedIff(syncers, before, id);
      StaysWithin(syncers, before, id);
      DelFindsGapViews(syncers, before, id);
      DropStep(After(syncers, before), c, id);
      if c.Del? && c.id == id && Enabled(After(syncers, before), c) {
        assert Emptying(After(syncers, before), id);
      }
    }
  }

  // Between syncs, database plus Redis equals the views made exactly when no DEL took a view along.
  lemma QuietCountIsExactIff(syncers: nat, commands: seq<Command>, id: string)
    requires OneAtATime(syncers, commands, id) && NoFailedDecrby(syncers, commands, id)
    requires forall w :: StageOf(After(syncers, commands), w, id) == Idle
    ensures var s := After(syncers, commands);
      At(s.db, id) + At(s.counts, id) == At(s.views, id) <==> NoViewBeforeDel(syncers, commands, id)
  {
    EveryViewIsAccountedFor(syncers, commands, id);
    NothingFlies(After(syncers, commands), id, syncers);
    DoubledIff(syncers, commands, id);
    DroppedIff(syncers, commands, id);
  }

  // While nothing is dropped, they exceed it exactly when a DECRBY failed.
  lemma MoreThanViewsIff(syncers: nat, commands: seq<Command>, id: string)
    requires OneAtATime(syncers, commands, id) && NoViewBeforeDel(syncers, commands, id)
    ensures var s := After(syncers, commands);
      At(s.db, id) + At(s.counts, id) > At(s.views, id) + InFlight(s, id) <==> !NoFailedDecrby(syncers, commands, id)
  {
    EveryViewIsAccountedFor(syncers, commands, id);
    DoubledIff(syncers, commands, id);
    DroppedIff(syncers, commands, id);
  }

  // ---- Nothing waits unnoticed ----------------------------------------------------------------

  // A waiting count is registered for the syncers, or its viewer is about to register it.
  ghost predicate Noticed(s: State, id: string) {
    At(s.counts, id) > 0 ==> id in s.tracking || PendingOf(s, id) > 0
  }

  // The SREM of a sync finds a count that is already registered, or the last viewer about to register a count
  // fails to.
  ghost predicate Unregisters(s: State, c: Command, id: string) {
    && c.id == id && Enabled(s, c) && At(s.counts, id) > 0
    && ((c.Srem? && PendingOf(s, id) == 0) || (c.SaddFails? && id !in s.tracking && PendingOf(s, id) == 1))
  }

  lemma StaysNoticedIff(s: State, c: Command, id: string)
    requires Noticed(s, id) && Positive(s, id)
    ensures Noticed(Step(s, c), id) <==> !Unregisters(s, c, id)
  {
    if c.id != id {
      OthersUntouched(s, c, id);
    }
  }

  ghost predicate NeverUnregisters(syncers: nat, commands: seq<Command>, id: string) {
    commands == [] || (NeverUnregisters(syncers, commands[..|commands| - 1], id)
      && !Unregisters(After(syncers, commands[..|commands| - 1]), commands[|commands| - 1], id))
  }

  ghost predicate AlwaysNoticed(syncers: nat, commands: seq<Command>, id: string) {
    Noticed(After(syncers, commands), id)
    && (commands != [] ==> AlwaysNoticed(syncers, commands[..|commands| - 1], id))
  }

  // Throughout a run every waiting count is noticed, exactly when no SREM and no failed SADD leaves one behind.
  lemma {:induction false} AlwaysNoticedIff(syncers: nat, commands: seq<Command>, id: string)
    ensures AlwaysNoticed(syncers, commands, id) <==> NeverUnregisters(syncers, commands, id)
  {
    if commands != [] {
      var before := commands[..|commands| - 1];
      AlwaysNoticedIff(syncers, before, id);
      EveryViewIsAccountedFor(syncers, before, id);
      if Noticed(After(syncers, before), id) {
        StaysNoticedIff(After(syncers, before), commands[|commands| - 1], id);
      } else {
        assert !AlwaysNoticed(syncers, before, id);
      }
    }
  }

  // ---- Runs --------------------------------------------------------------------------------------------

  lemma AfterSnoc(syncers: nat, commands: seq<Command>, c: Command)
    ensures After(syncers, commands + [c]) == Step(After(syncers, commands), c)
  {
    assert (commands + [c])[..|commands|] == commands;
  }

  // One announcement as two syncers find it.
  datatype Local = Local(
    first: Stage, second: Stage, views: int, db: int, count: int, pending: nat, tracked: bool)

  ghost predicate Stands(s: State, id: string, l: Local) {
    && s.syncers >= 2 && StageOf(s, 0, id) == l.first && StageOf(s, 1, id) == l.second
    && At(s.views, id) == l.views && At(s.db, id) == l.db && At(s.counts, id) == l.count
    && PendingOf(s, id) == l.pending && (id in s.tracking <==> l.tracked)
  }

  function StageFor(l: Local, w: nat): Stage {
    if w == 0 then l.first else l.second
  }

  function Move(l: Local, w: nat, stage: Stage): Local {
    if w == 0 then l.(first := stage) else l.(second := stage)
  }

  lemma IncrStands(s: State, id: string, l: Local)
    requires Stands(s, id, l)
    ensures Stands(Step(s, Incr(id)), id, l.(views := l.views + 1, count := l.count + 1, pending := l.pending + 1))
  {
  }

  lemma SaddStands(s: State, id: string, l: Local)
    requires Stands(s, id, l) && l.pending > 0
    ensures Stands(Step(s, Sadd(id)), id, l.(pending := l.pending - 1, tracked := true))
    ensures Stands(Step(s, SaddFails(id)), id, l.(pending := l.pending - 1))
  {
  }

  // The counts of an announcement and the stage of one syncer have moved.
  lemma Moved(s: State, t: State, id: string, w: nat, l: Local, m: Local)
    requires Stands(s, id, l) && w < 2 && t.syncers == s.syncers && OthersStay(s, t, w, id)
    requires m == Move(l, w, StageOf(t, w, id)).(
                    views := At(t.views, id), db := At(t.db, id), count := At(t.counts, id),
                    pending := PendingOf(t, id), tracked := id in t.tracking)
    ensures Stands(t, id, m)
  {
  }

  lemma ReadStands(s: State, id: string, w: nat, l: Local)
    requires Stands(s, id, l) && w < 2 && StageFor(l, w) == Idle && l.tracked && l.count > 0
    ensures Stands(Step(Step(s, Smembers(id, w)), Fetch(id, w)), id, Move(l, w, Fetched(l.count)))
  {
    var t := Step(s, Smembers(id, w));
    assert StageOf(s, w, id) == Idle;
    SyncerMoves(t, Fetch(id, w));
    Moved(s, Step(t, Fetch(id, w)), id, w, l, Move(l, w, Fetched(l.count)));
  }

  lemma WriteStands(s: State, id: string, w: nat, l: Local)
    requires Stands(s, id, l) && w < 2 && StageFor(l, w).Fetched?
    ensures var n := StageFor(l, w).count;
      Stands(Step(s, WriteDb(id, w)), id, Move(l, w, Written(n)).(db := l.db + n))
  {
    assert StageOf(s, w, id) == StageFor(l, w);
    var n := StageFor(l, w).count;
    SyncerMoves(s, WriteDb(id, w));
    Moved(s, Step(s, WriteDb(id, w)), id, w, l, Move(l, w, Written(n)).(db := l.db + n));
  }

  lemma DecrbyStands(s: State, id: string, w: nat, l: Local)
    requires Stands(s, id, l) && w < 2 && StageFor(l, w).Written?
    ensures var left := l.count - StageFor(l, w).written;
      Stands(Step(s, Decrby(id, w)), id, Move(l, w, if left <= 0 then Emptied else Idle).(count := left))
  {
    assert StageOf(s, w, id) == StageFor(l, w);
    var left := l.count - StageFor(l, w).written;
    SyncerMoves(s, Decrby(id, w));
    Moved(s, Step(s, Decrby(id, w)), id, w, l, Move(l, w, if left <= 0 then Emptied else Idle).(count := left));
  }

  lemma DelStands(s: State, id: string, w: nat, l: Local)
    requires Stands(s, id, l) && w < 2 && StageFor(l, w) == Emptied
    ensures Stands(Step(s, Del(id, w)), id, Move(l, w, Deleted).(count := 0))
  {
    assert StageOf(s, w, id) == StageFor(l, w);
    SyncerMoves(s, Del(id, w));
    Moved(s, Step(s, Del(id, w)), id, w, l, Move(l, w, Deleted).(count := 0));
  }

  lemma SremStands(s: State, id: string, w: nat, l: Local)
    requires Stands(s, id, l) && w < 2 && StageFor(l, w) == Deleted
    ensures Stands(Step(s, Srem(id, w)), id, Move(l, w, Idle).(tracked := false))
  {
    assert StageOf(s, w, id) == StageFor(l, w);
    SyncerMoves(s, Srem(id, w));
    Moved(s, Step(s, Srem(id, w)), id, w, l, Move(l, w, Idle).(tracked := false));
  }

  lemma FailureStands(s: State, id: string, w: nat, l: Local, c: Command)
    requires Stands(s, id, l) && w < 2
    requires (c == DecrbyFails(id, w) && StageFor(l, w).Written?) || (c == DelFails(id, w) && StageFor(l, w) == Emptied)
    ensures Stands(Step(s, c), id, Move(l, w, Idle))
  {
    assert StageOf(s, w, id) == StageFor(l, w);
    SyncerMoves(s, c);
    Moved(s, Step(s, c), id, w, l, Move(l, w, Idle));
  }

  // One view, registered.
  function FirstView(id: string): seq<Command> {
    [Incr(id)] + [Sadd(id)]
  }

  lemma FirstViewStands(syncers: nat, id: string)
    requires syncers >= 2
    ensures Stands(After(syncers, [Incr(id)]), id, Local(Idle, Idle, 1, 0, 1, 1, false))
    ensures Stands(After(syncers, FirstView(id)), id, Local(Idle, Idle, 1, 0, 1, 0, true))
  {
    AfterSnoc(syncers, [], Incr(id));
    assert [] + [Incr(id)] == [Incr(id)];
    IncrStands(Start(syncers), id, Local(Idle, Idle, 0, 0, 0, 0, false));
    AfterSnoc(syncers, [Incr(id)], Sadd(id));
    SaddStands(After(syncers, [Incr(id)]), id, Local(Idle, Idle, 1, 0, 1, 1, false));
  }

  // A view whose SADD fails waits where no sync looks, until the next view of the announcement.
  lemma FailedSaddIsUnnoticed(syncers: nat, id: string)
    requires syncers >= 2
    ensures Stands(After(syncers, [Incr(id)] + [SaddFails(id)]), id, Local(Idle, Idle, 1, 0, 1, 0, false))
  {
    FirstViewStands(syncers, id);
    AfterSnoc(syncers, [Incr(id)], SaddFails(id));
    SaddStands(After(syncers, [Incr(id)]), id, Local(Idle, Idle, 1, 0, 1, 1, false));
  }

  // The view is read by syncer 0 and written to the database.
  function FirstWrite(id: string): seq<Command> {
    FirstView(id) + [Smembers(id, 0)] + [Fetch(id, 0)] + [WriteDb(id, 0)]
  }

  lemma FirstWriteStands(syncers: nat, id: string)
    requires syncers >= 2
    ensures Stands(After(syncers, FirstView(id) + [Smembers(id, 0)] + [Fetch(id, 0)]), id,
                   Local(Fetched(1), Idle, 1, 0, 1, 0, true))
    ensures Stands(After(syncers, FirstWrite(id)), id, Local(Written(1), Idle, 1, 1, 1, 0, true))
  {
    var c2 := FirstView(id);
    FirstViewStands(syncers, id);
    AfterSnoc(syncers, c2, Smembers(id, 0));
    AfterSnoc(syncers, c2 + [Smembers(id, 0)], Fetch(id, 0));
    ReadStands(After(syncers, c2), id, 0, Local(Idle, Idle, 1, 0, 1, 0, true));
    var c4 := c2 + [Smembers(id, 0)] + [Fetch(id, 0)];
    AfterSnoc(syncers, c4, WriteDb(id, 0));
    WriteStands(After(syncers, c4), id, 0, Local(Fetched(1), Idle, 1, 0, 1, 0, true));
  }

  // A refused DECRBY leaves one view counted in both places.
  lemma FailedDecrbyCountsTwice(syncers: nat, id: string)
    requires syncers >= 2
    ensures Stands(After(syncers, FirstWrite(id) + [DecrbyFails(id, 0)]), id, Local(Idle, Idle, 1, 1, 1, 0, true))
  {
    FirstWriteStands(syncers, id);
    AfterSnoc(syncers, FirstWrite(id), DecrbyFails(id, 0));
    FailureStands(After(syncers, FirstWrite(id)), id, 0, Local(Written(1), Idle, 1, 1, 1, 0, true), DecrbyFails(id, 0));
  }

  // And taken off: the DEL comes next.
  function TakenOff(id: string): seq<Command> {
    FirstWrite(id) + [Decrby(id, 0)]
  }

  lemma EmptiedStands(syncers: nat, id: string)
    requires syncers >= 2
    ensures Stands(After(syncers, TakenOff(id)), id, Local(Emptied, Idle, 1, 1, 0, 0, true))
    ensures Stands(After(syncers, TakenOff(id) + [Incr(id)]), id, Local(Emptied, Idle, 2, 1, 1, 1, true))
  {
    FirstWriteStands(syncers, id);
    AfterSnoc(syncers, FirstWrite(id), Decrby(id, 0));
    DecrbyStands(After(syncers, FirstWrite(id)), id, 0, Local(Written(1), Idle, 1, 1, 1, 0, true));
    AfterSnoc(syncers, TakenOff(id), Incr(id));
    IncrStands(After(syncers, TakenOff(id)), id, Local(Emptied, Idle, 1, 1, 0, 0, true));
  }

  // A view that arrives between the DECRBY and the DEL of a sync is lost, and stays counted if the DEL fails.
  lemma ViewInGapIsLost(syncers: nat, id: string)
    requires syncers >= 2
    ensures Stands(After(syncers, TakenOff(id) + [Incr(id)] + [Del(id, 0)]), id, Local(Deleted, Idle, 2, 1, 0, 1, true))
    ensures Stands(After(syncers, TakenOff(id) + [Incr(id)] + [DelFails(id, 0)]), id, Local(Idle, Idle, 2, 1, 1, 1, true))
  {
    EmptiedStands(syncers, id);
    var c := TakenOff(id) + [Incr(id)];
    AfterSnoc(syncers, c, Del(id, 0));
    AfterSnoc(syncers, c, DelFails(id, 0));
    DelStands(After(syncers, c), id, 0, Local(Emptied, Idle, 2, 1, 1, 1, true));
    FailureStands(After(syncers, c), id, 0, Local(Emptied, Idle, 2, 1, 1, 1, true), DelFails(id, 0));
  }

  // A view made and registered between the DEL and the SREM waits where no sync looks.
  lemma ViewBeforeSremIsUnnoticed(syncers: nat, id: string)
    requires syncers >= 2
    ensures Stands(After(syncers, TakenOff(id) + [Del(id, 0)] + [Incr(id)] + [Sadd(id)] + [Srem(id, 0)]), id,
                   Local(Idle, Idle, 2, 1, 1, 0, false))
  {
    EmptiedStands(syncers, id);
    var c1 := TakenOff(id) + [Del(id, 0)];
    var c2, c3 := c1 + [Incr(id)], c1 + [Incr(id)] + [Sadd(id)];
    AfterSnoc(syncers, TakenOff(id), Del(id, 0));
    DelStands(After(syncers, TakenOff(id)), id, 0, Local(Emptied, Idle, 1, 1, 0, 0, true));
    AfterSnoc(syncers, c1, Incr(id));
    IncrStands(After(syncers, c1), id, Local(Deleted, Idle, 1, 1, 0, 0, true));
    AfterSnoc(syncers, c2, Sadd(id));
    SaddStands(After(syncers, c2), id, Local(Deleted, Idle, 2, 1, 1, 1, true));
    AfterSnoc(syncers, c3, Srem(id, 0));
    SremStands(After(syncers, c3), id, 0, Local(Deleted, Idle, 2, 1, 1, 0, true));
  }

  // Both syncers read the view before either takes it off.
  function BothWrite(id: string): seq<Command> {
    FirstView(id) + [Smembers(id, 0)] + [Fetch(id, 0)] + [Smembers(id, 1)] + [Fetch(id, 1)]
    + [WriteDb(id, 0)] + [WriteDb(id, 1)]
  }

  lemma BothWriteStands(syncers: nat, id: string)
    requires syncers >= 2
    ensures Stands(After(syncers, BothWrite(id)), id, Local(Written(1), Written(1), 1, 2, 1, 0, true))
  {
    FirstWriteStands(syncers, id);
    var c4 := FirstView(id) + [Smembers(id, 0)] + [Fetch(id, 0)];
    AfterSnoc(syncers, c4, Smembers(id, 1));
    AfterSnoc(syncers, c4 + [Smembers(id, 1)], Fetch(id, 1));
    ReadStands(After(syncers, c4), id, 1, Local(Fetched(1), Idle, 1, 0, 1, 0, true));
    var c6 := c4 + [Smembers(id, 1)] + [Fetch(id, 1)];
    AfterSnoc(syncers, c6, WriteDb(id, 0));
    WriteStands(After(syncers, c6), id, 0, Local(Fetched(1), Fetched(1), 1, 0, 1, 0, true));
    AfterSnoc(syncers, c6 + [WriteDb(id, 0)], WriteDb(id, 1));
    WriteStands(After(syncers, c6 + [WriteDb(id, 0)]), id, 1, Local(Written(1), Fetched(1), 1, 1, 1, 0, true));
  }

  // Two overlapping syncs write one view twice, and the negative count in between is deleted.
  lemma OverlappingSyncsCountTwice(syncers: nat, id: string)
    requires syncers >= 2
    ensures Stands(After(syncers, BothWrite(id) + [Decrby(id, 0)] + [Decrby(id, 1)] + [Del(id, 0)]), id,
                   Local(Deleted, Emptied, 1, 2, 0, 0, true))
  {
    BothWriteStands(syncers, id);
    var c8 := BothWrite(id);
    AfterSnoc(syncers, c8, Decrby(id, 0));
    DecrbyStands(After(syncers, c8), id, 0, Local(Written(1), Written(1), 1, 2, 1, 0, true));
    AfterSnoc(syncers, c8 + [Decrby(id, 0)], Decrby(id, 1));
    DecrbyStands(After(syncers, c8 + [Decrby(id, 0)]), id, 1, Local(Emptied, Written(1), 1, 2, 0, 0, true));
    AfterSnoc(syncers, c8 + [Decrby(id, 0)] + [Decrby(id, 1)], Del(id, 0));
    DelStands(After(syncers, c8 + [Decrby(id, 0)] + [Decrby(id, 1)]), id, 0, Local(Emptied, Emptied, 1, 2, -1, 0, true));
  }

  // ---- The service methods, without interleaving --------------------------------------------------

  class RedisService {
    var counts: map<string, int>
    var tracking: set<string>

    ghost predicate Valid()
      reads this
    {
      forall id :: id in counts ==> counts[id] > 0 && id in tracking
    }

    constructor ()
      ensures Valid() && counts == map[] && tracking == {}
    {
      counts, tracking := map[], {};
    }

    method IncrementAnnouncementViewCount(id: string) returns (newCount: int)
      requires Valid()
      modifies this
      ensures Valid() && newCount == At(old(counts), id) + 1
      ensures counts == old(counts)[id := newCount] && tracking == old(tracking) + {id}
    {
      newCount := At(counts, id) + 1;
      counts := counts[id := newCount];
      tracking := tracking + {id};
    }

    method GetAllAnnouncementViewCounts() returns (viewCounts: map<string, int>)
      requires Valid()
      ensures viewCounts == counts
    {
      viewCounts := map[];
      var rest := tracking;
      while rest != {}
        invariant rest <= tracking
        invariant viewCounts == map id | id in counts && id !in rest :: counts[id]
      {
        var id :| id in rest;
        rest := rest - {id};
        var count := At(counts, id);
        if count > 0 {
          viewCounts := viewCounts[id := count];
        }
      }
    }

    method DecrementAnnouncementViewCount(id: string, count: nat)
      requires Valid()
      modifies this
      ensures Valid()
      ensures At(counts, id) == if At(old(counts), id) <= count then 0 else At(old(counts), id) - count
      ensures forall other :: other != id ==> At(counts, other) == At(old(counts), other)
      ensures tracking == if At(old(counts), id) <= count then old(tracking) - {id} else old(tracking)
    {
      var newCount := At(counts, id) - count;
      counts := counts[id := newCount];
      if newCount <= 0 {
        counts := counts - {id};
        tracking := tracking - {id};
      }
    }

    // One undisturbed sync moves every count into the database, except those whose row could not
    // be updated; those stay where they are.
    method SyncAnnouncementViewCounts(db: map<string, int>, failing: set<string>) returns (updated: map<string, int>)
      requires Valid()
      modifies this
      ensures Valid()
      ensures forall id :: At(updated, id) + At(counts, id) == At(db, id) + At(old(counts), id)
      ensures forall id :: At(counts, id) == if id in failing then At(old(counts), id) else 0
    {
      var viewCounts := GetAllAnnouncementViewCounts();
      updated := db;
      var rest := viewCounts.Keys;
      while rest != {}
        invariant Valid() && rest <= viewCounts.Keys
        invariant forall id :: At(updated, id) + At(counts, id) == At(db, id) + At(viewCounts, id)
        invariant forall id :: At(counts, id) == if id in failing || id in rest then At(viewCounts, id) else 0
      {
        var id :| id in rest;
        rest := rest - {id};
        if id !in failing {
          updated := updated[id := At(updated, id) + viewCounts[id]];
          DecrementAnnouncementViewCount(id, viewCounts[id]);
        }
      }
    }
  }
}

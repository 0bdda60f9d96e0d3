// Scheduled announcement notifications: popped from a sorted set once a minute, sent, recorded, and
// rescheduled five minutes later up to three times when sending or recording fails.
module AnnouncementRetries {
  import opened Wrappers
  import opened Sequences

  const MAX_RETRY_COUNT := 3
  const RETRY_DELAY_SECONDS := 300
  const BATCH_SIZE := 100

  // A member of the sorted set; its score is the second it is due.
  datatype Entry = Entry(id: string, title: string, retryCount: nat)

  // Where one attempt stands; `delivered` tells whether FCM accepted the message.
  datatype Stage =
    | Sending
    | Recording
    | Failed(delivered: bool)
    | Sent
    | Rescheduled(delivered: bool)
    | GivenUp(delivered: bool)
    | Dropped(delivered: bool)      // rescheduling itself failed

  // ranged holds what a tick has read with ZRANGEBYSCORE but not yet removed with ZREM.
  datatype State = State(
    created: set<string>, queue: map<Entry, int>, ranged: map<nat, seq<Entry>>,
    attempts: seq<Entry>, stages: seq<Stage>)

  datatype Command =
    | Schedule(id: string, title: string, at: int)
    | Range(tick: nat, batch: seq<Entry>, now: int)
    | Zrem(tick: nat)
    | ZremFails(tick: nat)
    | FcmAccepts(attempt: nat)
    | FcmFails(attempt: nat)
    | DbUpdates(attempt: nat)
    | DbFails(attempt: nat)
    | Retry(attempt: nat, now: int)
    | RetryFails(attempt: nat)

  const START := State({}, map[], map[], [], [])

  predicate Distinct(batch: seq<Entry>) {
    forall i, j :: 0 <= i < j < |batch| ==> batch[i] != batch[j]
  }

  // ZRANGEBYSCORE -inf now LIMIT 0 100: due members by score, the lowest hundred of them.
  predicate IsBatch(queue: map<Entry, int>, batch: seq<Entry>, now: int) {
    && Distinct(batch)
    && |batch| <= BATCH_SIZE
    && (forall e :: e in batch ==> e in queue && queue[e] <= now)
    && (forall i, j :: 0 <= i < j < |batch| ==> queue[batch[i]] <= queue[batch[j]])
    && (forall e :: e in queue && queue[e] <= now && e !in batch ==>
          |batch| == BATCH_SIZE && forall f :: f in batch ==> queue[f] <= queue[e])
  }

  predicate At(s: State, attempt: nat, stage: Stage) {
    attempt < |s.attempts| == |s.stages| && s.stages[attempt] == stage
  }

  predicate HasFailed(s: State, attempt: nat) {
    attempt < |s.attempts| == |s.stages| && s.stages[attempt].Failed?
  }

  // Announcement ids are fresh when an announcement is created.
  predicate Enabled(s: State, c: Command) {
    match c
    case Schedule(id, _, _) => id !in s.created
    case Range(t, batch, now) => t !in s.ranged && IsBatch(s.queue, batch, now)
    case Zrem(t) => t in s.ranged
    case ZremFails(t) => t in s.ranged
    case FcmAccepts(k) => At(s, k, Sending)
    case FcmFails(k) => At(s, k, Sending)
    case DbUpdates(k) => At(s, k, Recording)
    case DbFails(k) => At(s, k, Recording)
    case Retry(k, _) => HasFailed(s, k)
    case RetryFails(k) => HasFailed(s, k) && s.attempts[k].retryCount < MAX_RETRY_COUNT
  }

  function NextTry(e: Entry): Entry {
    e.(retryCount := e.retryCount + 1)
  }

  // A command whose turn has not come does nothing.
  function Step(s: State, c: Command): State {
    if !Enabled(s, c) then s
    else match c
    case Schedule(id, title, at) =>
      s.(created := s.created + {id}, queue := s.queue[Entry(id, title, 0) := at])
    case Range(t, batch, _) =>
      if batch == [] then s else s.(ranged := s.ranged[t := batch])
    case Zrem(t) =>
      var batch := s.ranged[t];
      s.(queue := s.queue - (set e | e in batch), ranged := s.ranged - {t},
         attempts := s.attempts + batch, stages := s.stages + seq(|batch|, _ => Sending))
    case ZremFails(t) => s.(ranged := s.ranged - {t})
    case FcmAccepts(k) => s.(stages := s.stages[k := Recording])
    case FcmFails(k) => s.(stages := s.stages[k := Failed(false)])
    case DbUpdates(k) => s.(stages := s.stages[k := Sent])
    case DbFails(k) => s.(stages := s.stages[k := Failed(true)])
    case Retry(k, now) =>
      var e, delivered := s.attempts[k], s.stages[k].delivered;
      if e.retryCount < MAX_RETRY_COUNT then
        s.(queue := s.queue[NextTry(e) := now + RETRY_DELAY_SECONDS], stages := s.stages[k := Rescheduled(delivered)])
      else s.(stages := s.stages[k := GivenUp(delivered)])
    case RetryFails(k) => s.(stages := s.stages[k := Dropped(s.stages[k].delivered)])
  }

  function After(commands: seq<Command>): State {
    if commands == [] then START
    else Step(After(commands[..|commands| - 1]), commands[|commands| - 1])
  }

  // What a tick has read is still in the sorted set when it removes it.
  predicate StillQueued(s: State, t: nat) {
    t in s.ranged ==> forall e :: e in s.ranged[t] ==> e in s.queue
  }

  predicate BatchesStillQueued(commands: seq<Command>) {
    commands == [] ||
    (var before, c := commands[..|commands| - 1], commands[|commands| - 1];
     BatchesStillQueued(before) && (c.Zrem? ==> StillQueued(After(before), c.tick)))
  }

  // ---- One place -----------------------------------------------------------------------------

  function Of(id: string): Entry -> bool {
    (e: Entry) => e.id == id
  }

  function Count(attempts: seq<Entry>, id: string): nat {
    CountIf(attempts, Of(id))
  }

  ghost predicate Queued(s: State, id: string, e: Entry) {
    e in s.queue && e.id == id
  }

  // In flight, sent, given up or dropped: the attempt has not handed over to a later one.
  ghost predicate Holds(s: State, id: string, k: int) {
    0 <= k < |s.attempts| == |s.stages| && s.attempts[k].id == id && !s.stages[k].Rescheduled?
  }

  // An announcement is in exactly one place, and its retry count is the number of earlier attempts.
  ghost predicate OnePlace(s: State, id: string) {
    && (id in s.created <==> (exists e :: Queued(s, id, e)) || (exists k :: Holds(s, id, k)))
    && (forall e, k :: !(Queued(s, id, e) && Holds(s, id, k)))
    && (forall e, f :: Queued(s, id, e) && Queued(s, id, f) ==> e == f)
    && (forall j, k :: Holds(s, id, j) && Holds(s, id, k) ==> j == k)
  }

  ghost predicate EachCountsTheEarlier(attempts: seq<Entry>, id: string) {
    forall k :: 0 <= k < |attempts| && attempts[k].id == id ==>
      attempts[k].retryCount == Count(attempts[..k], id) <= MAX_RETRY_COUNT
  }

  ghost predicate LastHolds(s: State, id: string) {
    forall k :: Holds(s, id, k) ==>
      Count(s.attempts, id) == s.attempts[k].retryCount + 1 && (s.stages[k].GivenUp? ==> s.attempts[k].retryCount == 3)
  }

  ghost predicate Counted(s: State, id: string) {
    && |s.stages| == |s.attempts|
    && (id !in s.created ==> Count(s.attempts, id) == 0)
    && (forall e :: Queued(s, id, e) ==> e.retryCount == Count(s.attempts, id) <= MAX_RETRY_COUNT)
    && EachCountsTheEarlier(s.attempts, id)
    && LastHolds(s, id)
  }

  ghost predicate RangedDistinct(s: State) {
    forall t :: t in s.ranged ==> Distinct(s.ranged[t])
  }

  ghost predicate Inv(s: State, id: string) {
    OnePlace(s, id) && Counted(s, id) && RangedDistinct(s)
  }

  lemma {:induction false} CountNone(a: seq<Entry>, id: string)
    requires forall e :: e in a ==> e.id != id
    ensures Count(a, id) == 0
  {
    if a != [] {
      CountNone(a[..|a| - 1], id);
    }
  }

  lemma SchedulePlaces(s: State, id: string, title: string, at: int, other: string)
    requires OnePlace(s, other) && OnePlace(s, id) && id !in s.created
    ensures OnePlace(Step(s, Schedule(id, title, at)), other)
  {
    var t, e := Step(s, Schedule(id, title, at)), Entry(id, title, 0);
    assert Queued(t, id, e);
    assert forall f :: Queued(t, other, f) <==> Queued(s, other, f) || (other == id && f == e);
    assert forall k :: Holds(t, other, k) <==> Holds(s, other, k);
  }

  lemma ScheduleCounts(s: State, id: string, title: string, at: int, other: string)
    requires Counted(s, other) && id !in s.created
    ensures Counted(Step(s, Schedule(id, title, at)), other)
  {
    var t, e := Step(s, Schedule(id, title, at)), Entry(id, title, 0);
    assert forall f :: Queued(t, other, f) ==> Queued(s, other, f) || (other == id && f == e);
    assert forall k :: Holds(t, other, k) <==> Holds(s, other, k);
  }

  // Between the pop and the batch, an announcement takes at most one of the batch's seats.
  lemma BatchSeat(s: State, t: nat, id: string, k: nat)
    requires OnePlace(s, id) && t in s.ranged && Distinct(s.ranged[t]) && StillQueued(s, t)
    requires k < |s.ranged[t]| && s.ranged[t][k].id == id
    ensures Count(s.ranged[t][..k], id) == 0 && Count(s.ranged[t], id) == 1
    ensures Queued(s, id, s.ranged[t][k])
  {
    var batch := s.ranged[t];
    assert Queued(s, id, batch[k]);
    forall i | 0 <= i < |batch| && i != k ensures batch[i].id != id {
      assert Queued(s, id, batch[i]) <==> batch[i].id == id;
    }
    CountNone(batch[..k], id);
    CountNone(batch[k + 1..], id);
    assert batch == batch[..k] + [batch[k]] + batch[k + 1..];
    CountIfConcat(batch[..k] + [batch[k]], batch[k + 1..], Of(id));
    CountIfConcat(batch[..k], [batch[k]], Of(id));
    CountIfOne(batch[k], Of(id));
  }

  lemma ZremPlaces(s: State, t: nat, id: string)
    requires OnePlace(s, id) && |s.stages| == |s.attempts|
    requires t in s.ranged && Distinct(s.ranged[t]) && StillQueued(s, t)
    ensures OnePlace(Step(s, Zrem(t)), id)
  {
    var u, batch, n := Step(s, Zrem(t)), s.ranged[t], |s.attempts|;
    assert forall e :: Queued(u, id, e) <==> Queued(s, id, e) && e !in batch;
    assert forall k :: k < n ==> (Holds(u, id, k) <==> Holds(s, id, k));
    assert forall k :: n <= k ==> (Holds(u, id, k) <==> k < n + |batch| && batch[k - n].id == id);
    forall j, k | Holds(u, id, j) && Holds(u, id, k) ensures j == k {
      if n <= j {
        assert Queued(s, id, batch[j - n]);
      }
      if n <= k {
        assert Queued(s, id, batch[k - n]);
      }
    }
    forall e, k | Queued(u, id, e) && Holds(u, id, k) ensures false {
      if n <= k {
        assert Queued(s, id, batch[k - n]);
      }
    }
    forall k | Holds(u, id, k) ensures id in s.created {
      if n <= k {
        assert Queued(s, id, batch[k - n]);
      }
    }
    if e :| Queued(s, id, e) {
      if e in batch {
        var k :| 0 <= k < |batch| && batch[k] == e;
        assert Holds(u, id, n + k);
      } else {
        assert Queued(u, id, e);
      }
    }
    if k :| Holds(s, id, k) {
      assert Holds(u, id, k);
    }
  }

  lemma {:induction false} BatchCountsOn(attempts: seq<Entry>, batch: seq<Entry>, id: string)
    requires EachCountsTheEarlier(attempts, id)
    requires forall k :: 0 <= k < |batch| && batch[k].id == id ==>
               Count(batch[..k], id) == 0 && batch[k].retryCount == Count(attempts, id) <= MAX_RETRY_COUNT
    ensures EachCountsTheEarlier(attempts + batch, id)
  {
    var all, n := attempts + batch, |attempts|;
    forall j | 0 <= j < |all| && all[j].id == id ensures all[j].retryCount == Count(all[..j], id) <= MAX_RETRY_COUNT {
      if j < n {
        assert all[..j] == attempts[..j];
      } else {
        assert all[..j] == attempts + batch[..j - n];
        CountIfConcat(attempts, batch[..j - n], Of(id));
      }
    }
  }

  // The popped announcement: its new attempt is the only one that holds it.
  lemma ZremCountsPopped(s: State, t: nat, id: string, k: nat)
    requires Inv(s, id) && t in s.ranged && StillQueued(s, t) && OnePlace(Step(s, Zrem(t)), id)
    requires k < |s.ranged[t]| && s.ranged[t][k].id == id
    ensures var u := Step(s, Zrem(t)); id in s.created && LastHolds(u, id) && forall e :: !Queued(u, id, e)
  {
    var u, batch, n := Step(s, Zrem(t)), s.ranged[t], |s.attempts|;
    CountIfConcat(s.attempts, batch, Of(id));
    BatchSeat(s, t, id, k);
    assert Holds(u, id, n + k) && u.attempts[n + k] == batch[k] && u.stages[n + k] == Sending;
  }

  lemma ZremCountsOther(s: State, t: nat, id: string)
    requires Inv(s, id) && t in s.ranged && forall e :: e in s.ranged[t] ==> e.id != id
    ensures var u := Step(s, Zrem(t));
      LastHolds(u, id) && Count(u.attempts, id) == Count(s.attempts, id) && forall e :: Queued(u, id, e) ==> Queued(s, id, e)
  {
    var u, batch := Step(s, Zrem(t)), s.ranged[t];
    CountIfConcat(s.attempts, batch, Of(id));
    CountNone(batch, id);
    assert forall k :: Holds(u, id, k) ==> Holds(s, id, k) && u.stages[k] == s.stages[k] && u.attempts[k] == s.attempts[k];
  }

  lemma ZremCounts(s: State, t: nat, id: string)
    requires Inv(s, id) && t in s.ranged && StillQueued(s, t) && OnePlace(Step(s, Zrem(t)), id)
    ensures Counted(Step(s, Zrem(t)), id)
  {
    var batch := s.ranged[t];
    forall k | 0 <= k < |batch| && batch[k].id == id
      ensures Count(batch[..k], id) == 0 && batch[k].retryCount == Count(s.attempts, id) <= MAX_RETRY_COUNT
    {
      BatchSeat(s, t, id, k);
    }
    BatchCountsOn(s.attempts, batch, id);
    if k :| 0 <= k < |batch| && batch[k].id == id {
      ZremCountsPopped(s, t, id, k);
    } else {
      ZremCountsOther(s, t, id);
    }
  }

  lemma StagePlaces(s: State, k: nat, stage: Stage, id: string)
    requires OnePlace(s, id) && k < |s.attempts| == |s.stages| && !s.stages[k].Rescheduled? && !stage.Rescheduled?
    ensures OnePlace(s.(stages := s.stages[k := stage]), id)
  {
    var t := s.(stages := s.stages[k := stage]);
    assert forall j :: Holds(t, id, j) <==> Holds(s, id, j);
    assert forall e :: Queued(t, id, e) <==> Queued(s, id, e);
  }

  lemma StageCounts(s: State, k: nat, stage: Stage, id: string)
    requires Counted(s, id) && k < |s.attempts| && !s.stages[k].Rescheduled? && !stage.Rescheduled?
    requires stage.GivenUp? ==> s.attempts[k].retryCount >= MAX_RETRY_COUNT
    ensures Counted(s.(stages := s.stages[k := stage]), id)
  {
    var t := s.(stages := s.stages[k := stage]);
    assert forall j :: Holds(t, id, j) <==> Holds(s, id, j);
    assert forall e :: Queued(t, id, e) <==> Queued(s, id, e);
  }

  lemma ReschedulePlaces(s: State, k: nat, now: int, id: string)
    requires OnePlace(s, id) && HasFailed(s, k) && s.attempts[k].retryCount < MAX_RETRY_COUNT
    ensures OnePlace(Step(s, Retry(k, now)), id)
  {
    var t, e := Step(s, Retry(k, now)), NextTry(s.attempts[k]);
    assert forall f :: Queued(t, id, f) <==> Queued(s, id, f) || (e.id == id && f == e);
    assert forall j :: Holds(t, id, j) <==> Holds(s, id, j) && j != k;
    if e.id == id {
      assert Holds(s, id, k);
      assert Queued(t, id, e);
    }
  }

  lemma RescheduleCounts(s: State, k: nat, now: int, id: string)
    requires Counted(s, id) && HasFailed(s, k) && s.attempts[k].retryCount < MAX_RETRY_COUNT
    ensures Counted(Step(s, Retry(k, now)), id)
  {
    var t, e := Step(s, Retry(k, now)), NextTry(s.attempts[k]);
    assert forall f :: Queued(t, id, f) ==> Queued(s, id, f) || (e.id == id && f == e);
    assert forall j :: Holds(t, id, j) ==> Holds(s, id, j) && t.stages[j] == s.stages[j];
    if e.id == id {
      assert Holds(s, id, k);
    }
  }

  // The stage an attempt moves to when the command does nothing else.
  function NextStage(s: State, c: Command): Option<(nat, Stage)>
    requires Enabled(s, c)
  {
    match c
    case FcmAccepts(k) => Some((k, Recording))
    case FcmFails(k) => Some((k, Failed(false)))
    case DbUpdates(k) => Some((k, Sent))
    case DbFails(k) => Some((k, Failed(true)))
    case Retry(k, _) =>
      if s.attempts[k].retryCount < MAX_RETRY_COUNT then None else Some((k, GivenUp(s.stages[k].delivered)))
    case RetryFails(k) => Some((k, Dropped(s.stages[k].delivered)))
    case _ => None
  }

  lemma OnlyStageMoves(s: State, c: Command)
    requires Enabled(s, c) && NextStage(s, c).Some?
    ensures var (k, stage) := NextStage(s, c).value;
      && k < |s.attempts| == |s.stages| && !s.stages[k].Rescheduled? && !stage.Rescheduled?
      && (stage.GivenUp? ==> s.attempts[k].retryCount >= MAX_RETRY_COUNT)
      && Step(s, c) == s.(stages := s.stages[k := stage])
  {
  }

  // What each command asks of the state to leave one place for every announcement.
  ghost predicate AllInOnePlace(s: State) {
    RangedDistinct(s) && |s.stages| == |s.attempts| && forall id :: OnePlace(s, id)
  }

  lemma StepPlaces(s: State, c: Command, id: string)
    requires AllInOnePlace(s) && (c.Zrem? ==> StillQueued(s, c.tick))
    ensures OnePlace(Step(s, c), id)
  {
    if Enabled(s, c) {
      if c.Schedule? {
        SchedulePlaces(s, c.id, c.title, c.at, id);
      } else if c.Range? || c.ZremFails? {
        RangedAside(s, Step(s, c), id);
      } else if c.Zrem? {
        ZremPlaces(s, c.tick, id);
      } else if NextStage(s, c).None? {
        ReschedulePlaces(s, c.attempt, c.now, id);
      } else {
        OnlyStageMoves(s, c);
        var (k, stage) := NextStage(s, c).value;
        StagePlaces(s, k, stage, id);
      }
    }
  }

  lemma RangedAside(s: State, t: State, id: string)
    requires OnePlace(s, id) && t == s.(ranged := t.ranged)
    ensures OnePlace(t, id) && (Counted(s, id) ==> Counted(t, id))
  {
    assert forall e :: Queued(t, id, e) <==> Queued(s, id, e);
    assert forall k :: Holds(t, id, k) <==> Holds(s, id, k);
  }

  lemma StepCounts(s: State, c: Command, id: string)
    requires AllInOnePlace(s) && Counted(s, id) && (c.Zrem? ==> StillQueued(s, c.tick))
    ensures Counted(Step(s, c), id)
  {
    if Enabled(s, c) {
      if c.Schedule? {
        ScheduleCounts(s, c.id, c.title, c.at, id);
      } else if c.Range? || c.ZremFails? {
        RangedAside(s, Step(s, c), id);
      } else if c.Zrem? {
        ZremPlaces(s, c.tick, id);
        ZremCounts(s, c.tick, id);
      } else if NextStage(s, c).None? {
        RescheduleCounts(s, c.attempt, c.now, id);
      } else {
        OnlyStageMoves(s, c);
        var (k, stage) := NextStage(s, c).value;
        StageCounts(s, k, stage, id);
      }
    }
  }

  lemma StepShape(s: State, c: Command)
    requires RangedDistinct(s) && |s.stages| == |s.attempts|
    ensures RangedDistinct(Step(s, c)) && |Step(s, c).stages| == |Step(s, c).attempts|
  {
  }

  // Removing a batch leaves every announcement in one place if and only if the whole batch is still in
  // the sorted set: an entry another tick has removed is in flight twice afterwards.
  lemma ZremKeepsOnePlaceIff(s: State, t: nat)
    requires AllInOnePlace(s) && t in s.ranged
    ensures (forall id :: OnePlace(Step(s, Zrem(t)), id)) <==> StillQueued(s, t)
  {
    if StillQueued(s, t) {
      forall id ensures OnePlace(Step(s, Zrem(t)), id) {
        ZremPlaces(s, t, id);
      }
    } else {
      var e :| e in s.ranged[t] && e !in s.queue;
      GoneEntryTwice(s, t, e);
    }
  }

  lemma GoneEntryTwice(s: State, t: nat, e: Entry)
    requires AllInOnePlace(s) && t in s.ranged && e in s.ranged[t] && e !in s.queue
    ensures !OnePlace(Step(s, Zrem(t)), e.id)
  {
    var u, batch, n := Step(s, Zrem(t)), s.ranged[t], |s.attempts|;
    var i :| 0 <= i < |batch| && batch[i] == e;
    assert OnePlace(s, e.id);
    assert Holds(u, e.id, n + i);
    if k :| Holds(s, e.id, k) {
      assert Holds(u, e.id, k) && k != n + i;
    } else if f :| Queued(s, e.id, f) {
      if f in batch {
        var j :| 0 <= j < |batch| && batch[j] == f;
        assert Holds(u, e.id, n + j) && j != i;
      } else {
        assert Queued(u, e.id, f);
      }
    } else {
      assert e.id !in u.created;
    }
  }

  // A created announcement is scheduled, in flight, sent, given up or dropped: exactly one of them.
  lemma {:induction false} AlwaysInOnePlace(commands: seq<Command>, id: string)
    requires BatchesStillQueued(commands)
    ensures AllInOnePlace(After(commands)) && Inv(After(commands), id)
  {
    if commands == [] {
      assert forall e, i :: !Queued(START, i, e);
      assert forall k, i :: !Holds(START, i, k);
    } else {
      var before, c := commands[..|commands| - 1], commands[|commands| - 1];
      AlwaysInOnePlace(before, id);
      var s := After(before);
      StepShape(s, c);
      forall other ensures OnePlace(Step(s, c), other) {
        StepPlaces(s, c, other);
      }
      StepCounts(s, c, id);
    }
  }

  ghost predicate AllPlaced(s: State) {
    forall id :: OnePlace(s, id)
  }

  ghost predicate OnePlaceThroughout(commands: seq<Command>) {
    AllPlaced(After(commands)) && (commands != [] ==> OnePlaceThroughout(commands[..|commands| - 1]))
  }

  // Throughout a run every announcement is in one place, exactly when each batch is still in the sorted
  // set at its removal.
  lemma {:induction false} OnePlaceThroughoutIff(commands: seq<Command>)
    ensures OnePlaceThroughout(commands) <==> BatchesStillQueued(commands)
  {
    if commands == [] {
      AlwaysInOnePlace(commands, "");
    } else {
      var before, c := commands[..|commands| - 1], commands[|commands| - 1];
      OnePlaceThroughoutIff(before);
      if BatchesStillQueued(before) {
        AlwaysInOnePlace(before, "");
        StepKeepsOnePlaceIff(After(before), c);
      }
    }
  }

  lemma StepKeepsOnePlaceIff(s: State, c: Command)
    requires AllInOnePlace(s)
    ensures AllPlaced(Step(s, c)) <==> (c.Zrem? ==> StillQueued(s, c.tick))
  {
    if c.Zrem? && c.tick in s.ranged {
      ZremKeepsOnePlaceIff(s, c.tick);
    } else {
      forall id ensures OnePlace(Step(s, c), id) {
        StepPlaces(s, c, id);
      }
    }
  }

  // No tick reads the sorted set while another has read but not yet removed its batch.
  predicate PopsDoNotOverlap(commands: seq<Command>) {
    forall i :: 0 <= i < |commands| && commands[i].Range? ==> After(commands[..i]).ranged == map[]
  }

  ghost predicate OneRanged(s: State) {
    forall t :: t in s.ranged ==> s.ranged.Keys == {t} && StillQueued(s, t)
  }

  // Pops that do not overlap find their batches.
  lemma {:induction false} SeparatePopsFindTheirBatches(commands: seq<Command>)
    requires PopsDoNotOverlap(commands)
    ensures BatchesStillQueued(commands) && OneRanged(After(commands))
  {
    if commands != [] {
      var before, c := commands[..|commands| - 1], commands[|commands| - 1];
      assert forall i :: 0 <= i < |before| ==> before[..i] == commands[..i] && before[i] == commands[i];
      SeparatePopsFindTheirBatches(before);
      OneRangedStep(After(before), c);
    }
  }

  lemma OneRangedStep(s: State, c: Command)
    requires OneRanged(s) && (c.Range? ==> s.ranged == map[])
    ensures OneRanged(Step(s, c))
  {
    var t := Step(s, c);
    if Enabled(s, c) {
      if c.Range? {
        assert forall x :: x in t.ranged ==> x == c.tick;
      } else if c.Zrem? || c.ZremFails? {
        assert t.ranged == map[];
      } else {
        assert t.ranged == s.ranged && forall e :: e in s.queue ==> e in t.queue;
      }
    }
  }

  // ---- No attempt too early -----------------------------------------------------------------------

  // The second for which the run last scheduled or rescheduled the entry.
  function DueSecond(commands: seq<Command>, e: Entry): Option<int> {
    if commands == [] then None
    else
      var before, c := commands[..|commands| - 1], commands[|commands| - 1];
      var s := After(before);
      if c.Schedule? && c.id !in s.created && e == Entry(c.id, c.title, 0) then Some(c.at)
      else if c.Retry? && HasFailed(s, c.attempt) && s.attempts[c.attempt].retryCount < 3
              && e == Entry(s.attempts[c.attempt].id, s.attempts[c.attempt].title, s.attempts[c.attempt].retryCount + 1)
      then Some(c.now + 300)
      else DueSecond(before, e)
  }

  ghost predicate ReadWhenDue(commands: seq<Command>, e: Entry) {
    exists i :: 0 <= i < |commands| && ReadsDue(commands, e, i)
  }

  // The i-th command reads the entry, in or after its second.
  ghost predicate ReadsDue(commands: seq<Command>, e: Entry, i: nat)
    requires i < |commands|
  {
    && commands[i].Range? && e in commands[i].batch
    && DueSecond(commands[..i], e).Some? && DueSecond(commands[..i], e).value <= commands[i].now
  }

  lemma {:induction false} QueueTells(commands: seq<Command>, e: Entry)
    requires e in After(commands).queue
    ensures DueSecond(commands, e) == Some(After(commands).queue[e])
  {
    if commands != [] {
      var before, c := commands[..|commands| - 1], commands[|commands| - 1];
      if e in After(before).queue {
        QueueTells(before, e);
      }
    }
  }

  lemma ReadEarlier(commands: seq<Command>, e: Entry)
    requires commands != [] && ReadWhenDue(commands[..|commands| - 1], e)
    ensures ReadWhenDue(commands, e)
  {
    var before := commands[..|commands| - 1];
    var i :| 0 <= i < |before| && ReadsDue(before, e, i);
    assert commands[..i] == before[..i];
    assert ReadsDue(commands, e, i);
  }

  // No attempt is made before the second it was scheduled or rescheduled for.
  lemma {:induction false} NeverTooEarly(commands: seq<Command>, e: Entry)
    ensures e in After(commands).attempts ==> ReadWhenDue(commands, e)
    ensures forall t :: t in After(commands).ranged && e in After(commands).ranged[t] ==> ReadWhenDue(commands, e)
  {
    if commands != [] {
      var n := |commands| - 1;
      var before, c := commands[..n], commands[n];
      var s := After(before);
      NeverTooEarly(before, e);
      if ReadWhenDue(before, e) {
        ReadEarlier(commands, e);
      } else if c.Range? && Enabled(s, c) && e in c.batch {
        QueueTells(before, e);
        assert ReadsDue(commands, e, n);
      }
    }
  }

  // ---- At most four attempts ---------------------------------------------------------------------

  lemma {:induction false} CountBounded(attempts: seq<Entry>, id: string)
    requires EachCountsTheEarlier(attempts, id)
    ensures Count(attempts, id) <= MAX_RETRY_COUNT + 1
  {
    if attempts != [] {
      var shorter := attempts[..|attempts| - 1];
      assert forall k :: 0 <= k < |shorter| ==> shorter[..k] == attempts[..k] && shorter[k] == attempts[k];
      CountBounded(shorter, id);
    }
  }

  // Repeated failure ends: at most four attempts, and giving up means all four were made.
  lemma AtMostFourAttempts(commands: seq<Command>, id: string)
    requires BatchesStillQueued(commands)
    ensures var s := After(commands);
      && Count(s.attempts, id) <= 4
      && |s.stages| == |s.attempts|
      && (forall k :: 0 <= k < |s.attempts| && s.attempts[k].id == id && s.stages[k].GivenUp? ==> Count(s.attempts, id) == 4)
  {
    AlwaysInOnePlace(commands, id);
    var s := After(commands);
    CountBounded(s.attempts, id);
    forall k | 0 <= k < |s.attempts| && s.attempts[k].id == id && s.stages[k].GivenUp?
      ensures Count(s.attempts, id) == 4
    {
      assert Holds(s, id, k);
    }
  }

  // ---- Deliveries ------------------------------------------------------------------------------------

  predicate Delivered(stage: Stage) {
    match stage
    case Sending => false
    case Recording => true
    case Sent => true
    case Failed(d) => d
    case Rescheduled(d) => d
    case GivenUp(d) => d
    case Dropped(d) => d
  }

  // FCM has the message, but the database refused to record it.
  predicate Unrecorded(stage: Stage) {
    Delivered(stage) && stage != Recording && stage != Sent
  }

  function CountStages(s: State, id: string, n: nat, p: Stage -> bool): nat
    requires n <= |s.attempts| == |s.stages|
  {
    if n == 0 then 0
    else CountStages(s, id, n - 1, p) + if s.attempts[n - 1].id == id && p(s.stages[n - 1]) then 1 else 0
  }

  function Deliveries(s: State, id: string): nat
    requires |s.attempts| == |s.stages|
  {
    CountStages(s, id, |s.attempts|, Delivered)
  }

  lemma {:induction false} OneRecorded(s: State, id: string, n: nat)
    requires OnePlace(s, id) && n <= |s.attempts| == |s.stages|
    ensures CountStages(s, id, n, Delivered) <= CountStages(s, id, n, Unrecorded) + 1
    ensures (forall k :: 0 <= k < n ==> !Holds(s, id, k)) ==>
              CountStages(s, id, n, Delivered) == CountStages(s, id, n, Unrecorded)
  {
    if n > 0 {
      OneRecorded(s, id, n - 1);
      assert Holds(s, id, n - 1) ==> forall k :: 0 <= k < n - 1 ==> !Holds(s, id, k);
    }
  }

  // Every delivery but the last was followed by a failure to record it.
  lemma RepeatsFollowUnrecordedDeliveries(commands: seq<Command>, id: string)
    requires BatchesStillQueued(commands)
    ensures var s := After(commands);
      |s.attempts| == |s.stages| && Deliveries(s, id) <= CountStages(s, id, |s.attempts|, Unrecorded) + 1
  {
    AlwaysInOnePlace(commands, id);
    OneRecorded(After(commands), id, |After(commands).attempts|);
  }

  lemma {:induction false} CountAfterStage(s: State, id: string, n: nat, p: Stage -> bool, k: nat, stage: Stage)
    requires n <= |s.attempts| == |s.stages| && k < |s.attempts|
    ensures var t := s.(stages := s.stages[k := stage]);
      CountStages(t, id, n, p) + (if k < n && s.attempts[k].id == id && p(s.stages[k]) then 1 else 0)
      == CountStages(s, id, n, p) + (if k < n && s.attempts[k].id == id && p(stage) then 1 else 0)
  {
    if n > 0 {
      CountAfterStage(s, id, n - 1, p, k, stage);
    }
  }

  lemma {:induction false} CountOfPrefix(s: State, t: State, id: string, n: nat, p: Stage -> bool)
    requires n <= |s.attempts| == |s.stages| && n <= |t.attempts| == |t.stages|
    requires s.attempts[..n] == t.attempts[..n] && s.stages[..n] == t.stages[..n]
    ensures CountStages(s, id, n, p) == CountStages(t, id, n, p)
  {
    if n > 0 {
      assert s.attempts[n - 1] == s.attempts[..n][n - 1] && s.stages[n - 1] == s.stages[..n][n - 1];
      assert s.attempts[..n - 1] == s.attempts[..n][..n - 1] && t.attempts[..n - 1] == t.attempts[..n][..n - 1];
      assert s.stages[..n - 1] == s.stages[..n][..n - 1] && t.stages[..n - 1] == t.stages[..n][..n - 1];
      CountOfPrefix(s, t, id, n - 1, p);
    }
  }

  lemma {:induction false} NothingFrom(s: State, id: string, n: nat, m: nat, p: Stage -> bool)
    requires n <= m <= |s.attempts| == |s.stages|
    requires forall k :: n <= k < m ==> !p(s.stages[k])
    ensures CountStages(s, id, m, p) == CountStages(s, id, n, p)
  {
    if n < m {
      NothingFrom(s, id, n, m - 1, p);
    }
  }

  ghost predicate AcceptsFor(s: State, c: Command, id: string) {
    c.FcmAccepts? && Enabled(s, c) && s.attempts[c.attempt].id == id
  }

  // Only FCM accepting an attempt delivers, and it delivers once.
  lemma DeliveryStep(s: State, c: Command, id: string)
    requires |s.stages| == |s.attempts|
    ensures |Step(s, c).stages| == |Step(s, c).attempts|
    ensures Deliveries(Step(s, c), id) == Deliveries(s, id) + if AcceptsFor(s, c, id) then 1 else 0
  {
    var t, n := Step(s, c), |s.attempts|;
    if !Enabled(s, c) {
    } else if c.Zrem? {
      CountOfPrefix(s, t, id, n, Delivered);
      NothingFrom(t, id, n, |t.attempts|, Delivered);
    } else if NextStage(s, c).Some? {
      OnlyStageMoves(s, c);
      var (k, stage) := NextStage(s, c).value;
      CountAfterStage(s, id, n, Delivered, k, stage);
    } else if c.Retry? {
      CountAfterStage(s, id, n, Delivered, c.attempt, Rescheduled(s.stages[c.attempt].delivered));
      CountOfPrefix(t, s.(stages := t.stages), id, n, Delivered);
    } else {
      CountOfPrefix(s, t, id, n, Delivered);
    }
  }

  // While an attempt is being sent, every delivery so far is one that could not be recorded.
  lemma {:induction false} SendingHoldsNoRecord(s: State, id: string, k: nat, n: nat)
    requires OnePlace(s, id) && At(s, k, Sending) && s.attempts[k].id == id && n <= |s.attempts|
    ensures CountStages(s, id, n, Delivered) == CountStages(s, id, n, Unrecorded)
  {
    if n > 0 {
      SendingHoldsNoRecord(s, id, k, n - 1);
      assert Holds(s, id, k);
      assert Holds(s, id, n - 1) ==> n - 1 == k;
    }
  }

  // FCM accepting an attempt makes it the only delivery if and only if no earlier delivery of the
  // announcement went unrecorded.
  lemma AcceptedOnceIff(s: State, k: nat, id: string)
    requires OnePlace(s, id) && At(s, k, Sending) && s.attempts[k].id == id
    ensures var t := Step(s, FcmAccepts(k));
      Deliveries(t, id) <= 1 <==> CountStages(s, id, |s.attempts|, Unrecorded) == 0
  {
    SendingHoldsNoRecord(s, id, k, |s.attempts|);
    DeliveryStep(s, FcmAccepts(k), id);
  }

  // No attempt is accepted after an earlier delivery of the announcement went unrecorded.
  ghost predicate NoRepeat(commands: seq<Command>, id: string) {
    commands == [] ||
    (var before, c := commands[..|commands| - 1], commands[|commands| - 1];
     var s := After(before);
     && NoRepeat(before, id)
     && (AcceptsFor(s, c, id) ==> CountStages(s, id, |s.attempts|, Unrecorded) == 0))
  }

  // On every run in which the batches are still queued: delivered at most once, exactly when no
  // attempt is accepted after an unrecorded delivery.
  lemma {:induction false} DeliveredAtMostOnceIff(commands: seq<Command>, id: string)
    requires BatchesStillQueued(commands)
    ensures |After(commands).attempts| == |After(commands).stages|
    ensures Deliveries(After(commands), id) <= 1 <==> NoRepeat(commands, id)
  {
    if commands != [] {
      var before, c := commands[..|commands| - 1], commands[|commands| - 1];
      DeliveredAtMostOnceIff(before, id);
      AlwaysInOnePlace(before, id);
      var s := After(before);
      DeliveryStep(s, c, id);
      if AcceptsFor(s, c, id) {
        AcceptedOnceIff(s, c.attempt, id);
        assert c == FcmAccepts(c.attempt);
      }
    }
  }

  lemma AfterAppend(commands: seq<Command>, c: Command)
    ensures After(commands + [c]) == Step(After(commands), c)
  {
    assert (commands + [c])[..|commands|] == commands;
  }

  lemma PopsOnly(s: State, e: Entry, t: nat, now: int)
    requires s.queue.Keys == {e} && s.queue[e] <= now && t !in s.ranged
    ensures Step(s, Range(t, [e], now)) == s.(ranged := s.ranged[t := [e]])
    ensures var u := Step(Step(s, Range(t, [e], now)), Zrem(t));
      u == s.(queue := map[], attempts := s.attempts + [e], stages := s.stages + [Sending])
  {
    var r := Step(s, Range(t, [e], now));
    assert IsBatch(s.queue, [e], now);
    assert r == s.(ranged := s.ranged[t := [e]]);
    assert (set x | x in [e]) == {e};
    assert s.queue - {e} == map[];
    assert r.ranged - {t} == s.ranged;
    assert seq(1, _ => Sending) == [Sending];
  }

  function RefusedRun(): seq<Command> {
    [Schedule("a", "t", 0), Range(0, [Entry("a", "t", 0)], 0), Zrem(0)] + [FcmAccepts(0)] + [DbFails(0)] + [Retry(0, 0)]
  }

  lemma FirstPop()
    ensures After([Schedule("a", "t", 0)]) == State({"a"}, map[Entry("a", "t", 0) := 0], map[], [], [])
    ensures After([Schedule("a", "t", 0), Range(0, [Entry("a", "t", 0)], 0), Zrem(0)])
      == State({"a"}, map[], map[], [Entry("a", "t", 0)], [Sending])
  {
    var e := Entry("a", "t", 0);
    var c1 := [Schedule("a", "t", 0)];
    assert c1[..0] == [];
    AfterAppend(c1, Range(0, [e], 0));
    AfterAppend(c1 + [Range(0, [e], 0)], Zrem(0));
    PopsOnly(After(c1), e, 0, 0);
    assert c1 + [Range(0, [e], 0)] + [Zrem(0)] == [Schedule("a", "t", 0), Range(0, [e], 0), Zrem(0)];
  }

  lemma RefusedSteps(s: State, k: nat, now: int)
    requires At(s, k, Sending) && s.attempts[k].retryCount < MAX_RETRY_COUNT
    ensures Step(Step(Step(s, FcmAccepts(k)), DbFails(k)), Retry(k, now))
      == s.(queue := s.queue[NextTry(s.attempts[k]) := now + RETRY_DELAY_SECONDS],
            stages := s.stages[k := Rescheduled(true)])
  {
  }

  lemma FirstPrefix()
    ensures After(RefusedRun()[..1]).ranged == map[]
  {
    FirstPop();
    assert RefusedRun()[..1] == [Schedule("a", "t", 0)];
  }

  lemma AppendRefused(c3: seq<Command>, k: nat, now: int)
    requires At(After(c3), k, Sending) && After(c3).attempts[k].retryCount < MAX_RETRY_COUNT
    ensures var s := After(c3);
      After(c3 + [FcmAccepts(k)] + [DbFails(k)] + [Retry(k, now)])
      == s.(queue := s.queue[NextTry(s.attempts[k]) := now + RETRY_DELAY_SECONDS],
            stages := s.stages[k := Rescheduled(true)])
  {
    AfterAppend(c3, FcmAccepts(k));
    AfterAppend(c3 + [FcmAccepts(k)], DbFails(k));
    AfterAppend(c3 + [FcmAccepts(k)] + [DbFails(k)], Retry(k, now));
    RefusedSteps(After(c3), k, now);
  }

  lemma FirstTryRefused()
    ensures After(RefusedRun()) ==
      State({"a"}, map[Entry("a", "t", 1) := 300], map[], [Entry("a", "t", 0)], [Rescheduled(true)])
  {
    FirstPop();
    AppendRefused([Schedule("a", "t", 0), Range(0, [Entry("a", "t", 0)], 0), Zrem(0)], 0, 0);
  }

  // One refused database update makes every subscriber see the announcement twice.
  lemma RefusedUpdateDeliversTwice()
    ensures var commands := RefusedRun() + [Range(0, [Entry("a", "t", 1)], 300)] + [Zrem(0)] + [FcmAccepts(1)];
      && PopsDoNotOverlap(commands)
      && |After(commands).attempts| == |After(commands).stages| && Deliveries(After(commands), "a") == 2
  {
    var e := Entry("a", "t", 1);
    var c6, c7, c8 := RefusedRun(), RefusedRun() + [Range(0, [e], 300)], RefusedRun() + [Range(0, [e], 300)] + [Zrem(0)];
    FirstTryRefused();
    AfterAppend(c6, Range(0, [e], 300));
    AfterAppend(c7, Zrem(0));
    PopsOnly(After(c6), e, 0, 300);
    AfterAppend(c8, FcmAccepts(1));
    var s := After(c8 + [FcmAccepts(1)]);
    assert s.attempts == [Entry("a", "t", 0), e] && s.stages == [Rescheduled(true), Recording];
    assert CountStages(s, "a", 1, Delivered) == 1;
    RefusedRunPops();
  }

  lemma RefusedRunPops()
    ensures PopsDoNotOverlap(RefusedRun() + [Range(0, [Entry("a", "t", 1)], 300)] + [Zrem(0)] + [FcmAccepts(1)])
  {
    var c9 := RefusedRun() + [Range(0, [Entry("a", "t", 1)], 300)] + [Zrem(0)] + [FcmAccepts(1)];
    FirstTryRefused();
    FirstPrefix();
    assert c9[..1] == RefusedRun()[..1] && c9[..6] == RefusedRun();
    assert forall i :: 0 <= i < |c9| && c9[i].Range? ==> i == 1 || i == 6;
  }

  // Two ticks that read before either removes both send: the pop is not one atomic command.
  lemma OverlappingPopsDeliverTwice()
    ensures var e := Entry("a", "t", 0);
      var s := After([Schedule("a", "t", 0)] + [Range(0, [e], 0)] + [Range(1, [e], 0)] + [Zrem(0)] + [Zrem(1)]
                     + [FcmAccepts(0)] + [FcmAccepts(1)]);
      |s.attempts| == |s.stages| && Deliveries(s, "a") == 2
  {
    BothPop();
    var e := Entry("a", "t", 0);
    var c5 := [Schedule("a", "t", 0)] + [Range(0, [e], 0)] + [Range(1, [e], 0)] + [Zrem(0)] + [Zrem(1)];
    AfterAppend(c5, FcmAccepts(0));
    AfterAppend(c5 + [FcmAccepts(0)], FcmAccepts(1));
    var s := After(c5 + [FcmAccepts(0)] + [FcmAccepts(1)]);
    assert s.attempts == [e, e] && s.stages == [Recording, Recording];
    assert CountStages(s, "a", 1, Delivered) == 1;
  }

  lemma BothPop()
    ensures var e := Entry("a", "t", 0);
      var s := After([Schedule("a", "t", 0)] + [Range(0, [e], 0)] + [Range(1, [e], 0)] + [Zrem(0)] + [Zrem(1)]);
      s.attempts == [e, e] && s.stages == [Sending, Sending]
  {
    var e := Entry("a", "t", 0);
    var c1 := [Schedule("a", "t", 0)];
    FirstPop();
    AfterAppend(c1, Range(0, [e], 0));
    AfterAppend(c1 + [Range(0, [e], 0)], Range(1, [e], 0));
    PopsOnly(After(c1), e, 0, 0);
    var c3 := c1 + [Range(0, [e], 0)] + [Range(1, [e], 0)];
    PopsOnly(After(c1 + [Range(0, [e], 0)]), e, 1, 0);
    AfterAppend(c3, Zrem(0));
    AfterAppend(c3 + [Zrem(0)], Zrem(1));
  }

  // ---- The scheduler ----------------------------------------------------------------------------------

  // What FCM and the database answer for one announcement.
  datatype Outcome = Fine | FcmDown | DbDown

  // One announcement of a batch: send, record, and on failure reschedule or give up.
  function Settle(s: State, k: nat, outcome: Outcome, now: int): State {
    match outcome
    case Fine => Step(Step(s, FcmAccepts(k)), DbUpdates(k))
    case FcmDown => Step(Step(s, FcmFails(k)), Retry(k, now))
    case DbDown => Step(Step(Step(s, FcmAccepts(k)), DbFails(k)), Retry(k, now))
  }

  predicate Settled(stage: Stage, e: Entry, outcome: Outcome) {
    match outcome
    case Fine => stage == Sent
    case FcmDown => stage == (if e.retryCount < MAX_RETRY_COUNT then Rescheduled(false) else GivenUp(false))
    case DbDown => stage == (if e.retryCount < MAX_RETRY_COUNT then Rescheduled(true) else GivenUp(true))
  }

  predicate AllSettled(s: State, first: nat, end: nat, outcomeOf: Entry -> Outcome) {
    && end <= |s.attempts| == |s.stages|
    && forall k :: first <= k < end ==> Settled(s.stages[k], s.attempts[k], outcomeOf(s.attempts[k]))
  }

  class AnnouncementScheduler {
    var queue: map<Entry, int>
    ghost var run: State

    ghost predicate Valid()
      reads this
    {
      queue == run.queue && run.ranged == map[] && |run.stages| == |run.attempts|
    }

    constructor ()
      ensures Valid() && run == START
    {
      queue := map[];
      run := START;
    }

    method ScheduleAnnouncementNotification(id: string, title: string, at: int)
      requires Valid() && id !in run.created
      modifies this
      ensures Valid() && run == Step(old(run), Schedule(id, title, at))
      ensures queue == old(queue)[Entry(id, title, 0) := at]
    {
      queue := queue[Entry(id, title, 0) := at];
      run := Step(run, Schedule(id, title, at));
    }

    method Earliest(candidates: set<Entry>) returns (best: Entry)
      requires candidates != {} && forall e :: e in candidates ==> e in queue
      ensures best in candidates && forall e :: e in candidates ==> queue[best] <= queue[e]
    {
      best :| best in candidates;
      var rest := candidates - {best};
      while rest != {}
        invariant best in candidates && rest <= candidates
        invariant forall e :: e in candidates && e !in rest ==> queue[best] <= queue[e]
        decreases rest
      {
        var e :| e in rest;
        rest := rest - {e};
        if queue[e] < queue[best] {
          best := e;
        }
      }
    }

    method ZrangeByScore(now: int) returns (batch: seq<Entry>)
      ensures IsBatch(queue, batch, now)
    {
      batch := [];
      var rest := set e | e in queue && queue[e] <= now;
      while rest != {} && |batch| < BATCH_SIZE
        invariant Distinct(batch) && |batch| <= BATCH_SIZE
        invariant forall e :: e in queue && queue[e] <= now <==> e in batch || e in rest
        invariant forall e :: e in batch ==> e !in rest
        invariant forall i, j :: 0 <= i < j < |batch| ==> queue[batch[i]] <= queue[batch[j]]
        invariant forall e, f :: e in batch && f in rest ==> queue[e] <= queue[f]
        decreases rest
      {
        var next := Earliest(rest);
        batch := batch + [next];
        rest := rest - {next};
      }
    }

    method PopReadyScheduledNotifications(now: int) returns (batch: seq<Entry>)
      requires Valid()
      modifies this
      ensures Valid() && IsBatch(old(queue), batch, now)
      ensures forall e :: e in queue <==> e in old(queue) && e !in batch
      ensures forall e :: e in queue ==> queue[e] == old(queue)[e]
      // The due members by score, the lowest hundred of them.
      ensures forall e :: e in batch ==> e in old(queue) && old(queue)[e] <= now
      ensures |batch| <= 100 && forall i, j :: 0 <= i < j < |batch| ==>
        batch[i] != batch[j] && old(queue)[batch[i]] <= old(queue)[batch[j]]
      ensures forall e :: e in queue && queue[e] <= now ==>
        |batch| == 100 && forall f :: f in batch ==> old(queue)[f] <= queue[e]
      ensures run == if batch == [] then old(run) else Step(Step(old(run), Range(0, batch, now)), Zrem(0))
    {
      batch := ZrangeByScore(now);
      if batch != [] {
        queue := queue - (set e | e in batch);
        run := Step(Step(run, Range(0, batch, now)), Zrem(0));
      }
    }

    // Sends one popped announcement and deals with the failure.
    method SendOne(ghost k: nat, e: Entry, outcome: Outcome, now: int)
      requires Valid() && At(run, k, Sending) && run.attempts[k] == e
      modifies this
      ensures Valid() && run == Settle(old(run), k, outcome, now)
      ensures run.attempts == old(run.attempts) && Settled(run.stages[k], e, outcome)
      ensures forall j :: 0 <= j < |run.stages| && j != k ==> run.stages[j] == old(run.stages[j])
      ensures queue == if outcome.Fine? || e.retryCount >= 3 then old(queue)
                       else old(queue)[Entry(e.id, e.title, e.retryCount + 1) := now + 300]
    {
      run := Settle(run, k, outcome, now);
      if outcome != Fine && e.retryCount < MAX_RETRY_COUNT {
        queue := queue[Entry(e.id, e.title, e.retryCount + 1) := now + RETRY_DELAY_SECONDS];
      }
    }

    // The tick leaves nothing in flight: whatever it popped is sent, rescheduled or given up.
    method SendScheduledNotifications(now: int, outcomeOf: Entry -> Outcome) returns (batch: seq<Entry>)
      requires Valid()
      modifies this
      ensures Valid() && IsBatch(old(queue), batch, now)
      ensures run.attempts == old(run.attempts) + batch
      ensures |run.stages| >= |old(run.stages)| && run.stages[..|old(run.stages)|] == old(run.stages)
      ensures AllSettled(run, |old(run.stages)|, |run.stages|, outcomeOf)
    {
      batch := PopReadyScheduledNotifications(now);
      ghost var n, popped := |old(run.stages)|, run;
      for i := 0 to |batch|
        invariant Valid() && run.attempts == popped.attempts
        invariant AllSettled(run, n, n + i, outcomeOf)
        invariant forall k :: 0 <= k < n || n + i <= k < |run.stages| ==> run.stages[k] == popped.stages[k]
      {
        SendOne(n + i, batch[i], outcomeOf(batch[i]), now);
      }
    }
  }
}

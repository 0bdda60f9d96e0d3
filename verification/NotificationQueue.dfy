// The two-track notification queue: a waiting room (Redis sorted set) for scheduled notifications,
// a ready queue (Redis list) in front of the workers, and the periodic move between the two.
module NotificationQueue {
  import opened Wrappers
  import opened Sequences

  // The serialised notification is its own identity in both stores.
  datatype Notification = Notification(
    userId: string, category: string, title: string, body: string, data: string,
    scheduledTime: Option<int>, key: Option<string>)

  // Scheduled times are in milliseconds, scores in seconds.
  function SecondOf(n: Notification): int
    requires n.scheduledTime.Some?
  {
    n.scheduledTime.value / 1000
  }

  // ---- The run as a whole -------------------------------------------------------------------

  // A ready item remembers the second it was pushed and, if moved, by which move.
  datatype Item = Item(note: Notification, pushedAt: int, move: Option<nat>)

  datatype Handed = Handed(item: Item, at: int)

  // waiting and ready are the two keys (LPUSH side first); the rest is the history of the run.
  datatype State = State(
    waiting: map<Notification, int>, ready: seq<Item>,
    pushed: seq<Item>, handed: seq<Handed>, accepted: multiset<Notification>, cancelled: multiset<Notification>,
    moves: nat, now: int)

  datatype Command =
    | EnqueueImmediate(note: Notification, at: int)
    | EnqueueScheduled(note: Notification, at: int)
    | EnqueueScheduledIfAbsent(note: Notification, reminderId: string, at: int)
    | MoveDue(batch: seq<Notification>, at: int)
    | Zrem(members: set<Notification>, at: int)
    | Pop(at: int)

  function Is(n: Notification): Notification -> bool {
    (x: Notification) => x == n
  }

  function Count(notes: seq<Notification>, n: Notification): nat {
    CountIf(notes, Is(n))
  }

  function Reverse<T>(s: seq<T>): seq<T> {
    if s == [] then [] else Reverse(s[1..]) + [s[0]]
  }

  function Notes(items: seq<Item>): (notes: seq<Notification>)
    ensures |notes| == |items|
  {
    seq(|items|, i requires 0 <= i < |items| => items[i].note)
  }

  function Items(handed: seq<Handed>): (items: seq<Item>)
    ensures |items| == |handed|
  {
    seq(|handed|, i requires 0 <= i < |handed| => handed[i].item)
  }

  function Moved(batch: seq<Notification>, at: int, move: nat): (items: seq<Item>)
    ensures |items| == |batch|
  {
    seq(|batch|, i requires 0 <= i < |batch| => Item(batch[i], at, Some(move)))
  }

  predicate HasKey(n: Notification, keys: set<string>) {
    n.key.Some? && n.key.value != "" && n.key.value in keys
  }

  predicate IsDue(waiting: map<Notification, int>, n: Notification, at: int) {
    n in waiting && waiting[n] <= at
  }

  // What ZRANGEBYSCORE returns, in any order among equal scores: each due member once, by score.
  ghost predicate IsDueBatch(waiting: map<Notification, int>, batch: seq<Notification>, at: int) {
    && (forall n :: Count(batch, n) == if IsDue(waiting, n, at) then 1 else 0)
    && (forall i :: 0 <= i < |batch| ==> IsDue(waiting, batch[i], at))
    && (forall i, j :: 0 <= i < j < |batch| ==> waiting[batch[i]] <= waiting[batch[j]])
  }

  // The clock never runs backwards, and a move takes what is due.
  ghost predicate Enabled(s: State, c: Command) {
    && s.now <= c.at
    && (c.MoveDue? ==> IsDueBatch(s.waiting, c.batch, c.at))
  }

  function Accept(s: State, n: Notification): State
    requires n.scheduledTime.Some?
  {
    if n in s.waiting then s.(waiting := s.waiting[n := SecondOf(n)])
    else s.(waiting := s.waiting[n := SecondOf(n)], accepted := s.accepted + multiset{n})
  }

  ghost function Step(s: State, c: Command): State {
    if !Enabled(s, c) then s
    else Perform(s.(now := c.at), c)
  }

  function Perform(s: State, c: Command): State {
    match c
    case EnqueueImmediate(n, at) =>
      var item := Item(n, at, None);
      s.(ready := [item] + s.ready, pushed := s.pushed + [item], accepted := s.accepted + multiset{n})
    case EnqueueScheduled(n, _) =>
      if n.scheduledTime.None? then s else Accept(s, n)
    case EnqueueScheduledIfAbsent(n, reminderId, _) =>
      var member := n.(key := Some(reminderId));
      if n.scheduledTime.None? || member in s.waiting then s else Accept(s, member)
    case MoveDue(batch, at) =>
      var items := Moved(batch, at, s.moves);
      s.(waiting := map n | n in s.waiting && !IsDue(s.waiting, n, at) :: s.waiting[n],
         ready := Reverse(items) + s.ready, pushed := s.pushed + items, moves := s.moves + 1)
    case Zrem(members, _) =>
      s.(waiting := s.waiting - members, cancelled := s.cancelled + multiset(members * s.waiting.Keys))
    case Pop(at) =>
      if s.ready == [] then s
      else
        var last := |s.ready| - 1;
        s.(ready := s.ready[..last], handed := s.handed + [Handed(s.ready[last], at)])
  }

  const START := State(map[], [], [], [], multiset{}, multiset{}, 0, 0)

  ghost function After(commands: seq<Command>): State {
    if commands == [] then START
    else Step(After(commands[..|commands| - 1]), commands[|commands| - 1])
  }

  // ---- Conservation -----------------------------------------------------------------------------

  // Every accepted notification is waiting, ready, handed out or cancelled, as often as accepted.
  ghost predicate Conserved(s: State, n: Notification) {
    s.accepted[n] == (if n in s.waiting then 1 else 0) + Count(Notes(s.ready), n)
                     + Count(Notes(Items(s.handed)), n) + s.cancelled[n]
  }

  lemma {:induction false} CountReverse(items: seq<Item>, n: Notification)
    ensures Count(Notes(Reverse(items)), n) == Count(Notes(items), n)
  {
    if items != [] {
      var rest := items[1..];
      CountReverse(rest, n);
      assert Notes(Reverse(items)) == Notes(Reverse(rest)) + [items[0].note];
      assert Notes(items) == [items[0].note] + Notes(rest);
      CountIfConcat(Notes(Reverse(rest)), [items[0].note], Is(n));
      CountIfConcat([items[0].note], Notes(rest), Is(n));
    }
  }

  lemma PushConserves(s: State, x: Notification, at: int, n: Notification)
    requires Conserved(s, n)
    ensures Conserved(Perform(s, EnqueueImmediate(x, at)), n)
  {
    assert Notes(Perform(s, EnqueueImmediate(x, at)).ready) == [x] + Notes(s.ready);
    CountIfConcat([x], Notes(s.ready), Is(n));
    CountIfOne(x, Is(n));
  }

  lemma MoveConserves(s: State, batch: seq<Notification>, at: int, n: Notification)
    requires Conserved(s, n) && IsDueBatch(s.waiting, batch, at)
    ensures Conserved(Perform(s, MoveDue(batch, at)), n)
  {
    var items := Moved(batch, at, s.moves);
    assert Notes(Reverse(items) + s.ready) == Notes(Reverse(items)) + Notes(s.ready);
    CountIfConcat(Notes(Reverse(items)), Notes(s.ready), Is(n));
    CountReverse(items, n);
    assert Notes(items) == batch;
  }

  lemma PopConserves(s: State, at: int, n: Notification)
    requires Conserved(s, n)
    ensures Conserved(Perform(s, Pop(at)), n)
  {
    if s.ready != [] {
      var t, last := Perform(s, Pop(at)), |s.ready| - 1;
      var x := s.ready[last].note;
      CountIfOne(x, Is(n));
      assert Notes(s.ready) == Notes(t.ready) + [x];
      CountIfConcat(Notes(t.ready), [x], Is(n));
      assert Notes(Items(t.handed)) == Notes(Items(s.handed)) + [x];
      CountIfConcat(Notes(Items(s.handed)), [x], Is(n));
    }
  }

  lemma CancelConserves(s: State, members: set<Notification>, at: int, n: Notification)
    requires Conserved(s, n)
    ensures Conserved(Perform(s, Zrem(members, at)), n)
  {
    var t := Perform(s, Zrem(members, at));
    assert t.cancelled[n] == s.cancelled[n] + if n in members && n in s.waiting then 1 else 0;
  }

  lemma PerformConserves(s: State, c: Command, n: Notification)
    requires Conserved(s, n)
    requires c.MoveDue? ==> IsDueBatch(s.waiting, c.batch, c.at)
    ensures Conserved(Perform(s, c), n)
  {
    match c
    case EnqueueImmediate(x, at) => PushConserves(s, x, at, n);
    case MoveDue(batch, at) => MoveConserves(s, batch, at, n);
    case Pop(at) => PopConserves(s, at, n);
    case Zrem(members, at) => CancelConserves(s, members, at, n);
    case _ =>
  }

  lemma {:induction false} NothingLostOrInvented(commands: seq<Command>, n: Notification)
    ensures Conserved(After(commands), n)
  {
    if commands != [] {
      var before, c := commands[..|commands| - 1], commands[|commands| - 1];
      NothingLostOrInvented(before, n);
      var s := After(before);
      if Enabled(s, c) {
        assert Conserved(s.(now := c.at), n);
        PerformConserves(s.(now := c.at), c, n);
      }
    }
  }

  lemma HandedOutNoMoreThanAccepted(commands: seq<Command>, n: Notification)
    ensures Count(Notes(Items(After(commands).handed)), n) <= After(commands).accepted[n]
  {
    NothingLostOrInvented(commands, n);
  }

  // ---- Order and time -------------------------------------------------------------------------------

  // Hand-outs follow the order of the pushes, whatever is left in the list comes next; a scheduled
  // notification is pushed no earlier than its second; one move pushes in scheduled order.
  ghost predicate InOrder(s: State) {
    && s.pushed == Items(s.handed) + Reverse(s.ready)
    && ScoresAreTimes(s.waiting)
    && AllInTime(s, s.pushed)
    && (forall i :: 0 <= i < |s.handed| ==> s.handed[i].item.pushedAt <= s.handed[i].at <= s.now)
    && MovesInOrder(s.pushed)
  }

  ghost predicate ScoresAreTimes(waiting: map<Notification, int>) {
    forall n :: n in waiting ==> n.scheduledTime.Some? && waiting[n] == SecondOf(n)
  }

  ghost predicate AllInTime(s: State, pushed: seq<Item>) {
    forall i :: 0 <= i < |pushed| ==> PushedInTime(s, pushed[i])
  }

  ghost predicate MovesInOrder(pushed: seq<Item>) {
    forall i, j :: 0 <= i < j < |pushed| ==> MovedInOrder(pushed[i], pushed[j])
  }

  ghost predicate PushedInTime(s: State, item: Item) {
    && item.pushedAt <= s.now
    && (item.move.Some? ==>
          item.move.value < s.moves && item.note.scheduledTime.Some? && SecondOf(item.note) <= item.pushedAt)
  }

  ghost predicate MovedInOrder(a: Item, b: Item) {
    a.move.Some? && a.move == b.move ==>
      a.note.scheduledTime.Some? && b.note.scheduledTime.Some? && SecondOf(a.note) <= SecondOf(b.note)
  }

  lemma {:induction false} ReverseConcat<T>(a: seq<T>, b: seq<T>)
    ensures Reverse(a + b) == Reverse(b) + Reverse(a)
  {
    if a == [] {
      assert a + b == b;
    } else {
      ReverseConcat(a[1..], b);
      assert (a + b)[1..] == a[1..] + b;
    }
  }

  lemma {:induction false} ReverseTwice<T>(a: seq<T>)
    ensures Reverse(Reverse(a)) == a
  {
    if a != [] {
      ReverseTwice(a[1..]);
      ReverseConcat(Reverse(a[1..]), [a[0]]);
    }
  }

  // A move's items are in scheduled order, and no earlier item belongs to the same move.
  lemma BatchInOrder(s: State, batch: seq<Notification>, at: int)
    requires ScoresAreTimes(s.waiting) && AllInTime(s, s.pushed) && MovesInOrder(s.pushed)
    requires IsDueBatch(s.waiting, batch, at)
    ensures MovesInOrder(s.pushed + Moved(batch, at, s.moves))
  {
    var items := Moved(batch, at, s.moves);
    var all, n := s.pushed + items, |s.pushed|;
    forall i, j | 0 <= i < j < |all| ensures MovedInOrder(all[i], all[j]) {
      if j < n {
        assert MovedInOrder(s.pushed[i], s.pushed[j]);
      } else if i < n {
        assert PushedInTime(s, s.pushed[i]);
      } else {
        assert IsDue(s.waiting, batch[i - n], at) && IsDue(s.waiting, batch[j - n], at);
      }
    }
  }

  lemma BatchInTime(s: State, batch: seq<Notification>, at: int)
    requires ScoresAreTimes(s.waiting) && AllInTime(s, s.pushed) && s.now == at
    requires IsDueBatch(s.waiting, batch, at)
    ensures AllInTime(s.(moves := s.moves + 1), s.pushed + Moved(batch, at, s.moves))
  {
    var all, n, t := s.pushed + Moved(batch, at, s.moves), |s.pushed|, s.(moves := s.moves + 1);
    forall i | 0 <= i < |all| ensures PushedInTime(t, all[i]) {
      if i < n {
        assert PushedInTime(s, s.pushed[i]);
      } else {
        assert IsDue(s.waiting, batch[i - n], at);
      }
    }
  }

  lemma InTimeOfClock(s: State, t: State, pushed: seq<Item>)
    requires AllInTime(s, pushed) && s.now <= t.now && s.moves <= t.moves
    ensures AllInTime(t, pushed)
  {
    forall i | 0 <= i < |pushed| ensures PushedInTime(t, pushed[i]) {
      assert PushedInTime(s, pushed[i]);
    }
  }

  lemma MovePushesInOrder(s: State, batch: seq<Notification>, at: int)
    requires InOrder(s) && s.now == at && IsDueBatch(s.waiting, batch, at)
    ensures InOrder(Perform(s, MoveDue(batch, at)))
  {
    var t := Perform(s, MoveDue(batch, at));
    var items := Moved(batch, at, s.moves);
    ReverseConcat(Reverse(items), s.ready);
    ReverseTwice(items);
    assert t.pushed == Items(t.handed) + Reverse(t.ready);
    BatchInOrder(s, batch, at);
    BatchInTime(s, batch, at);
    InTimeOfClock(s.(moves := s.moves + 1), t, t.pushed);
  }

  lemma PushKeepsOrder(s: State, n: Notification, at: int)
    requires InOrder(s) && s.now == at
    ensures InOrder(Perform(s, EnqueueImmediate(n, at)))
  {
    var t, item := Perform(s, EnqueueImmediate(n, at)), Item(n, at, None);
    ReverseConcat([item], s.ready);
    InTimeOfClock(s, t, s.pushed);
    assert PushedInTime(t, item);
    forall i, j | 0 <= i < j < |t.pushed| ensures MovedInOrder(t.pushed[i], t.pushed[j]) {
      if j < |s.pushed| {
        assert MovedInOrder(s.pushed[i], s.pushed[j]);
      }
    }
  }

  lemma PopTakesOldest(s: State, at: int)
    requires InOrder(s) && s.now == at
    ensures InOrder(Perform(s, Pop(at)))
  {
    if s.ready != [] {
      var last := |s.ready| - 1;
      var item := s.ready[last];
      assert s.ready == s.ready[..last] + [item];
      ReverseConcat(s.ready[..last], [item]);
      assert Items(s.handed + [Handed(item, at)]) == Items(s.handed) + [item];
      assert s.pushed[|s.handed|] == item;
      InTimeOfClock(s, Perform(s, Pop(at)), s.pushed);
    }
  }

  lemma PerformKeepsOrder(s: State, c: Command)
    requires InOrder(s) && s.now == c.at
    requires c.MoveDue? ==> IsDueBatch(s.waiting, c.batch, c.at)
    ensures InOrder(Perform(s, c))
  {
    match c
    case EnqueueImmediate(x, at) => PushKeepsOrder(s, x, at);
    case MoveDue(batch, at) => MovePushesInOrder(s, batch, at);
    case Pop(at) => PopTakesOldest(s, at);
    case _ => InTimeOfClock(s, Perform(s, c), s.pushed);
  }

  lemma ClockKeepsOrder(s: State, at: int)
    requires InOrder(s) && s.now <= at
    ensures InOrder(s.(now := at))
  {
    InTimeOfClock(s, s.(now := at), s.pushed);
  }

  lemma {:induction false} EveryRunIsInOrder(commands: seq<Command>)
    ensures InOrder(After(commands))
  {
    if commands == [] {
      assert Items([]) == [];
    } else {
      var before, c := commands[..|commands| - 1], commands[|commands| - 1];
      EveryRunIsInOrder(before);
      var s := After(before);
      if Enabled(s, c) {
        ClockKeepsOrder(s, c.at);
        PerformKeepsOrder(s.(now := c.at), c);
      }
    }
  }

  // A moved notification is never handed out before its scheduled second, in milliseconds.
  lemma NeverBeforeItsSecond(commands: seq<Command>, i: nat)
    requires i < |After(commands).handed| && After(commands).handed[i].item.move.Some?
    ensures var h := After(commands).handed[i];
      h.item.note.scheduledTime.Some? && h.item.note.scheduledTime.value < 1000 * (h.at + 1)
  {
    EveryRunIsInOrder(commands);
    var s := After(commands);
    assert s.pushed[i] == s.handed[i].item && PushedInTime(s, s.pushed[i]);
  }

  // Every score is the second of the scheduled millisecond.
  lemma ScoresAreSeconds(commands: seq<Command>, n: Notification)
    requires n in After(commands).waiting
    ensures n.scheduledTime.Some?
    ensures var score := After(commands).waiting[n];
      1000 * score <= n.scheduledTime.value < 1000 * (score + 1)
  {
    EveryRunIsInOrder(commands);
  }

  // First in, first out; and two notifications of one move leave in scheduled order.
  lemma FirstInFirstOut(commands: seq<Command>, i: nat, j: nat)
    requires i < j < |After(commands).handed|
    ensures var s := After(commands);
      && |s.handed| <= |s.pushed|
      && s.handed[i].item == s.pushed[i]
      && s.handed[j].item == s.pushed[j]
      && var (a, b) := (s.handed[i].item, s.handed[j].item);
         a.move.Some? && a.move == b.move ==>
           a.note.scheduledTime.Some? && b.note.scheduledTime.Some?
           && a.note.scheduledTime.value < b.note.scheduledTime.value + 1000
  {
    EveryRunIsInOrder(commands);
    var s := After(commands);
    assert s.pushed[i] == Items(s.handed)[i] && s.pushed[j] == Items(s.handed)[j];
    assert MovedInOrder(s.pushed[i], s.pushed[j]);
  }

  lemma {:induction false} ReversedAt<T>(s: seq<T>)
    ensures |Reverse(s)| == |s| && forall i :: 0 <= i < |s| ==> Reverse(s)[i] == s[|s| - 1 - i]
  {
    if s != [] {
      ReversedAt(s[1..]);
    }
  }

  lemma {:induction false} CountTwice(s: seq<Notification>, i: nat, j: nat)
    requires i < j < |s| && s[i] == s[j]
    ensures Count(s, s[i]) >= 2
  {
    CountIfConcat(s[..j], s[j..], Is(s[i]));
    CountIfConcat(s[..i], s[i..j], Is(s[i]));
    assert s == s[..j] + s[j..] && s[..j] == s[..i] + s[i..j];
    CountIn(s[j..], s[i], 0);
    CountIn(s[i..j], s[i], 0);
  }

  lemma {:induction false} CountIn(s: seq<Notification>, n: Notification, i: nat)
    requires i < |s| && s[i] == n
    ensures Count(s, n) >= 1
  {
    if i < |s| - 1 {
      CountIn(s[..|s| - 1], n, i);
    }
  }

  lemma {:induction false} CountedIsIn(s: seq<Notification>, n: Notification)
    requires Count(s, n) >= 1
    ensures n in s
  {
    if s[|s| - 1] != n {
      CountedIsIn(s[..|s| - 1], n);
    }
  }

  // A due batch holds the members that are due by their scheduled time, each once and in its order.
  lemma EachDueOnce(waiting: map<Notification, int>, batch: seq<Notification>, at: int)
    requires ScoresAreTimes(waiting) && IsDueBatch(waiting, batch, at)
    ensures forall n :: n in batch <==>
      n in waiting && n.scheduledTime.Some? && n.scheduledTime.value < 1000 * (at + 1)
    ensures forall i, j :: 0 <= i < j < |batch| ==>
      batch[i] != batch[j] && batch[i].scheduledTime.value < batch[j].scheduledTime.value + 1000
  {
    forall n ensures n in batch <==> IsDue(waiting, n, at) {
      if IsDue(waiting, n, at) {
        CountedIsIn(batch, n);
      }
    }
    forall i, j | 0 <= i < j < |batch| ensures batch[i] != batch[j] {
      if batch[i] == batch[j] {
        CountTwice(batch, i, j);
      }
    }
  }

  // ---- The service -------------------------------------------------------------------------------------

  class QueueService {
    var waiting: map<Notification, int>
    var ready: seq<Notification>
    ghost var run: State

    ghost predicate Valid()
      reads this
    {
      waiting == run.waiting && ready == Notes(run.ready) && InOrder(run)
    }

    constructor ()
      ensures Valid() && run == START
    {
      waiting, ready := map[], [];
      run := START;
      new;
      assert Items([]) == [];
    }

    method EnqueueNow(n: Notification, at: int)
      requires Valid() && run.now <= at
      modifies this
      ensures Valid() && run == Step(old(run), EnqueueImmediate(n, at))
      ensures ready == [n] + old(ready) && waiting == old(waiting)
    {
      ready := [n] + ready;
      Advance(EnqueueImmediate(n, at));
    }

    // Replays on the history what has just been done to the stores.
    ghost method Advance(c: Command)
      requires InOrder(run) && Enabled(run, c)
      modifies this`run
      ensures run == Step(old(run), c) && InOrder(run)
    {
      ClockKeepsOrder(run, c.at);
      PerformKeepsOrder(run.(now := c.at), c);
      run := Perform(run.(now := c.at), c);
    }

    method EnqueueLater(n: Notification, at: int) returns (r: Result<bool, string>)
      requires Valid() && run.now <= at
      modifies this
      ensures Valid() && run == Step(old(run), EnqueueScheduled(n, at))
      ensures r.Failure? <==> n.scheduledTime.None?
      ensures waiting == if r.Failure? then old(waiting) else old(waiting)[n := SecondOf(n)]
      ensures r.Success? ==> n in waiting && 1000 * waiting[n] <= n.scheduledTime.value < 1000 * (waiting[n] + 1)
      ensures ready == old(ready)
    {
      if n.scheduledTime.None? {
        Advance(EnqueueScheduled(n, at));
        return Failure("scheduledTime is required for scheduled notifications");
      }
      waiting := waiting[n := SecondOf(n)];
      Advance(EnqueueScheduled(n, at));
      return Success(true);
    }

    method EnqueueLaterIfAbsent(n: Notification, reminderId: string, at: int) returns (r: Result<bool, string>)
      requires Valid() && run.now <= at
      modifies this
      ensures Valid() && run == Step(old(run), EnqueueScheduledIfAbsent(n, reminderId, at))
      ensures r.Failure? <==> n.scheduledTime.None?
      ensures r.Success? ==> (r.value <==> n.(key := Some(reminderId)) !in old(waiting))
      ensures ready == old(ready)
      ensures !(r.Success? && r.value) ==> waiting == old(waiting)
      ensures r.Success? && r.value ==>
        var member := n.(key := Some(reminderId));
        && waiting.Keys == old(waiting).Keys + {member} && waiting - {member} == old(waiting)
        && 1000 * waiting[member] <= n.scheduledTime.value < 1000 * (waiting[member] + 1)
    {
      var member := n.(key := Some(reminderId));
      if n.scheduledTime.None? {
        Advance(EnqueueScheduledIfAbsent(n, reminderId, at));
        return Failure("scheduledTime is required for scheduled notifications");
      }
      var added := member !in waiting;
      if added {
        waiting := waiting[member := SecondOf(n)];
      }
      Advance(EnqueueScheduledIfAbsent(n, reminderId, at));
      return Success(added);
    }

    // ZRANGEBYSCORE: the due members in order of their score.
    method DueByScore(at: int) returns (batch: seq<Notification>)
      ensures IsDueBatch(waiting, batch, at)
    {
      batch := [];
      var rest := set n | n in waiting && waiting[n] <= at;
      while rest != {}
        invariant forall n :: n in rest ==> IsDue(waiting, n, at)
        invariant forall n :: Count(batch, n) == if IsDue(waiting, n, at) && n !in rest then 1 else 0
        invariant forall i :: 0 <= i < |batch| ==> IsDue(waiting, batch[i], at)
        invariant forall i, j :: 0 <= i < j < |batch| ==> waiting[batch[i]] <= waiting[batch[j]]
        invariant forall i, n :: 0 <= i < |batch| && n in rest ==> waiting[batch[i]] <= waiting[n]
        decreases rest
      {
        var next := Earliest(rest);
        assert (batch + [next])[..|batch|] == batch;
        batch := batch + [next];
        rest := rest - {next};
      }
    }

    method Earliest(candidates: set<Notification>) returns (best: Notification)
      requires candidates != {} && forall n :: n in candidates ==> n in waiting
      ensures best in candidates && forall n :: n in candidates ==> waiting[best] <= waiting[n]
    {
      best :| best in candidates;
      var rest := candidates - {best};
      while rest != {}
        invariant best in candidates && rest <= candidates
        invariant forall n :: n in candidates && n !in rest ==> waiting[best] <= waiting[n]
        decreases rest
      {
        var n :| n in rest;
        rest := rest - {n};
        if waiting[n] < waiting[best] {
          best := n;
        }
      }
    }

    method Lpush(items: seq<Notification>)
      modifies this`ready
      ensures ready == Reverse(items) + old(ready)
      ensures |ready| == |items| + |old(ready)| && ready[|items|..] == old(ready)
      ensures forall i :: 0 <= i < |items| ==> ready[i] == items[|items| - 1 - i]
    {
      for i := 0 to |items|
        invariant ready == Reverse(items[..i]) + old(ready)
      {
        ready := [items[i]] + ready;
        assert items[..i + 1] == items[..i] + [items[i]];
        ReverseConcat(items[..i], [items[i]]);
      }
      assert items[..|items|] == items;
      ReversedAt(items);
    }

    // Every minute: all due members move to the ready queue, the earliest to be popped first.
    method MoveReadyNotificationsFromWaiting(at: int) returns (moved: nat, ghost batch: seq<Notification>)
      requires Valid() && run.now <= at
      modifies this
      ensures Valid() && IsDueBatch(old(waiting), batch, at) && moved == |batch|
      ensures run == Step(old(run), MoveDue(batch, at))
      ensures forall n :: n in waiting <==>
        n in old(waiting) && n.scheduledTime.Some? && 1000 * (at + 1) <= n.scheduledTime.value
      ensures forall n :: n in waiting ==> waiting[n] == old(waiting)[n]
      ensures forall n :: n in batch <==>
        n in old(waiting) && n.scheduledTime.Some? && n.scheduledTime.value < 1000 * (at + 1)
      ensures forall i, j :: 0 <= i < j < |batch| ==>
        batch[i] != batch[j] && batch[i].scheduledTime.value < batch[j].scheduledTime.value + 1000
      ensures |ready| == moved + |old(ready)| && ready[moved..] == old(ready)
      ensures forall i :: 0 <= i < moved ==> ready[i] == batch[moved - 1 - i]
    {
      var items := DueByScore(at);
      batch, moved := items, |items|;
      MovedStores(run.(now := at), batch, at);
      EachDueOnce(waiting, items, at);
      Lpush(items);
      LeaveWaiting(at);
      Advance(MoveDue(batch, at));
    }

    // ZREMRANGEBYSCORE.
    method LeaveWaiting(at: int)
      modifies this`waiting
      ensures waiting == map n | n in old(waiting) && !IsDue(old(waiting), n, at) :: old(waiting)[n]
      ensures ScoresAreTimes(old(waiting)) ==> forall n :: n in waiting <==>
        n in old(waiting) && n.scheduledTime.Some? && 1000 * (at + 1) <= n.scheduledTime.value
    {
      waiting := map n | n in waiting && !IsDue(waiting, n, at) :: waiting[n];
    }

    // ZSCAN for the members with one of the given (non-empty) keys.
    method MembersWithKey(reminderIds: set<string>) returns (toRemove: set<Notification>)
      ensures toRemove == set n | n in waiting && HasKey(n, reminderIds)
    {
      toRemove := {};
      var rest := waiting.Keys;
      while rest != {}
        invariant rest <= waiting.Keys
        invariant toRemove == set n | n in waiting && n !in rest && HasKey(n, reminderIds)
        decreases rest
      {
        var n :| n in rest;
        rest := rest - {n};
        if HasKey(n, reminderIds) {
          toRemove := toRemove + {n};
        }
      }
    }

    // Cancelling takes out of the waiting room exactly the reminders asked for.
    method RemoveRemindersFromWaitingRoom(reminderIds: set<string>, at: int)
      requires Valid() && run.now <= at
      modifies this
      ensures Valid()
      ensures run == Step(old(run), Zrem((set n | n in old(waiting) && HasKey(n, reminderIds)), at))
      ensures forall n :: n in waiting <==>
        n in old(waiting) && !(n.key.Some? && n.key.value != "" && n.key.value in reminderIds)
      ensures forall n :: n in waiting ==> waiting[n] == old(waiting)[n]
      ensures ready == old(ready)
    {
      var toRemove := MembersWithKey(reminderIds);
      waiting := waiting - toRemove;
      Advance(Zrem(toRemove, at));
    }

    method BlockingPopFromReadyQueue(at: int) returns (n: Option<Notification>)
      requires Valid() && run.now <= at
      modifies this
      ensures Valid() && run == Step(old(run), Pop(at)) && waiting == old(waiting)
      ensures n.None? <==> old(ready) == []
      ensures n.Some? ==> old(ready) == ready + [n.value]
    {
      if ready == [] {
        Advance(Pop(at));
        return None;
      }
      n := Some(ready[|ready| - 1]);
      ready := ready[..|ready| - 1];
      Advance(Pop(at));
    }
  }

  lemma MovedStores(s: State, batch: seq<Notification>, at: int)
    ensures Notes(Perform(s, MoveDue(batch, at)).ready) == Reverse(batch) + Notes(s.ready)
  {
    NotesOfReverse(batch, at, s.moves);
    var items := Reverse(Moved(batch, at, s.moves));
    assert Notes(items + s.ready) == Notes(items) + Notes(s.ready);
  }

  lemma {:induction false} NotesOfReverse(batch: seq<Notification>, at: int, move: nat)
    ensures Notes(Reverse(Moved(batch, at, move))) == Reverse(batch)
  {
    if batch != [] {
      NotesOfReverse(batch[1..], at, move);
      assert Moved(batch, at, move)[1..] == Moved(batch[1..], at, move);
    }
  }
}

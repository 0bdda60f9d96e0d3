// Read receipts: marked in Redis, popped in batches and inserted into the database, with readers
// and any number of syncers interleaved command by command.
module ReadReceipts {
  // ---- The tracking item "announcement:user" --------------------------------------------------

  predicate NoColon(s: string) {
    ':' !in s
  }

  function Item(announcement: string, user: string): string {
    announcement + ":" + user
  }

  // Everything before the first colon; the whole string when there is none.
  function UntilColon(s: string): string {
    if s == "" || s[0] == ':' then "" else [s[0]] + UntilColon(s[1..])
  }

  // The first two parts of `item.split(':')`.
  function Decode(item: string): (string, string) {
    var first := UntilColon(item);
    (first, if |first| < |item| then UntilColon(item[|first| + 1..]) else "")
  }

  lemma {:induction false} UntilColonPrefix(s: string)
    ensures |UntilColon(s)| <= |s| && UntilColon(s) == s[..|UntilColon(s)|] && NoColon(UntilColon(s))
    ensures |UntilColon(s)| < |s| ==> s[|UntilColon(s)|] == ':'
  {
    if s != "" && s[0] != ':' {
      UntilColonPrefix(s[1..]);
      assert s == [s[0]] + s[1..];
    }
  }

  lemma {:induction false} UntilColonStops(a: string, rest: string)
    requires NoColon(a) && (rest == "" || rest[0] == ':')
    ensures UntilColon(a + rest) == a
  {
    if a == "" {
      assert a + rest == rest;
    } else {
      UntilColonStops(a[1..], rest);
      assert (a + rest)[1..] == a[1..] + rest;
    }
  }

  // An item decodes to the pair it was made from exactly when neither id contains a colon.
  lemma {:induction false} DecodeInvertsItemIff(announcement: string, user: string)
    ensures Decode(Item(announcement, user)) == (announcement, user) <==> NoColon(announcement) && NoColon(user)
  {
    var item := Item(announcement, user);
    UntilColonPrefix(item);
    var first := UntilColon(item);
    if |first| < |item| {
      UntilColonPrefix(item[|first| + 1..]);
    }
    if NoColon(announcement) && NoColon(user) {
      assert item == announcement + (":" + user);
      UntilColonStops(announcement, ":" + user);
      assert item[|announcement| + 1..] == user;
      assert user + "" == user;
      UntilColonStops(user, "");
    }
  }

  // ---- Redis, the database and the syncers ------------------------------------------------------

  type Pair = (string, string)

  datatype Stage =
    | Idle
    | Popped(items: set<string>, found: set<Pair>)  // after SPOP: items still to GET, receipts whose key was found
    | Removed(gone: set<Pair>)                      // after DEL: the receipts only live in this process

  // keys holds the suffix of each `announcement:read:` key; marked is the history of all SETNX calls.
  datatype State = State(
    keys: set<string>, tracking: set<string>, awaiting: set<Pair>, syncers: map<nat, Stage>, db: set<Pair>,
    marked: set<Pair>)

  // A command that fails has no effect of its own and ends its caller. One that takes effect but reports an
  // error is that command followed by the failure of the caller's next one.
  datatype Command =
    | Setnx(announcement: string, user: string)
    | Sadd(announcement: string, user: string)
    | SaddFails(announcement: string, user: string)
    | Spop(syncer: nat, items: set<string>)
    | Get(syncer: nat, item: string)
    | GetFails(syncer: nat)
    | Del(syncer: nat)
    | DelFails(syncer: nat)
    | Insert(syncer: nat)
    | InsertFails(syncer: nat)

  const START := State({}, {}, {}, map[], {}, {})

  function StageOf(s: State, w: nat): Stage {
    if w in s.syncers then s.syncers[w] else Idle
  }

  predicate Enabled(s: State, c: Command) {
    match c
    case Setnx(_, _) => true
    case Sadd(a, u) => (a, u) in s.awaiting
    case SaddFails(a, u) => (a, u) in s.awaiting
    case Spop(w, items) => StageOf(s, w) == Idle && items <= s.tracking && items != {}
    case Get(w, item) => StageOf(s, w).Popped? && item in StageOf(s, w).items
    case GetFails(w) => StageOf(s, w).Popped? && StageOf(s, w).items != {}
    case Del(w) => StageOf(s, w).Popped? && StageOf(s, w).items == {}
    case DelFails(w) => StageOf(s, w).Popped? && StageOf(s, w).items == {}
    case Insert(w) => StageOf(s, w).Removed?
    case InsertFails(w) => StageOf(s, w).Removed?
  }

  function KeyOf(p: Pair): string {
    Item(p.0, p.1)
  }

  // A command whose turn has not come does nothing.
  function Step(s: State, c: Command): State {
    if !Enabled(s, c) then s
    else match c
    case Setnx(a, u) =>
      var marked := s.marked + {(a, u)};
      if Item(a, u) in s.keys then s.(marked := marked)
      else s.(keys := s.keys + {Item(a, u)}, awaiting := s.awaiting + {(a, u)}, marked := marked)
    case Sadd(a, u) => s.(tracking := s.tracking + {Item(a, u)}, awaiting := s.awaiting - {(a, u)})
    case SaddFails(a, u) => s.(awaiting := s.awaiting - {(a, u)})
    case Spop(w, items) => s.(tracking := s.tracking - items, syncers := s.syncers[w := Popped(items, {})])
    case Get(w, item) =>
      var stage := StageOf(s, w);
      s.(syncers := s.syncers[w := Popped(stage.items - {item}, stage.found + Receipts({item}, s.keys))])
    case Del(w) =>
      var found := StageOf(s, w).found;
      s.(keys := s.keys - KeysOf(found), syncers := s.syncers[w := Removed(found)])
    case Insert(w) => s.(db := s.db + StageOf(s, w).gone, syncers := s.syncers[w := Idle])
    case GetFails(w) => s.(syncers := s.syncers[w := Idle])
    case DelFails(w) => s.(syncers := s.syncers[w := Idle])
    case InsertFails(w) => s.(syncers := s.syncers[w := Idle])
  }

  function After(commands: seq<Command>): State {
    if commands == [] then START
    else Step(After(commands[..|commands| - 1]), commands[|commands| - 1])
  }

  // ---- Where a receipt can be --------------------------------------------------------------------

  // The syncer has popped the item and its key still exists.
  ghost predicate Holds(s: State, w: nat, p: Pair) {
    StageOf(s, w).Popped? && (KeyOf(p) in StageOf(s, w).items || p in StageOf(s, w).found)
  }

  ghost predicate Carries(s: State, w: nat, p: Pair) {
    Holds(s, w, p) || (StageOf(s, w).Removed? && p in StageOf(s, w).gone)
  }

  ghost predicate Clean(p: Pair) {
    NoColon(p.0) && NoColon(p.1)
  }

  ghost predicate CleanItem(item: string) {
    Clean(Decode(item)) && item == KeyOf(Decode(item))
  }

  ghost predicate CleanStage(stage: Stage) {
    stage.Popped? ==>
      (forall item :: item in stage.items ==> CleanItem(item)) && forall p :: p in stage.found ==> Clean(p)
  }

  // Only ids without a colon are around.
  ghost predicate AllClean(s: State) {
    && (forall item :: item in s.tracking ==> CleanItem(item))
    && (forall w :: CleanStage(StageOf(s, w)))
    && (forall p :: p in s.awaiting ==> Clean(p))
  }

  // Before its key is deleted a receipt is in at most one place, and wherever it is it has been marked.
  ghost predicate OnePlace(s: State, p: Pair) {
    && (p in s.awaiting ==> KeyOf(p) in s.keys && KeyOf(p) !in s.tracking && forall w :: !Holds(s, w, p))
    && (KeyOf(p) in s.tracking ==> KeyOf(p) in s.keys && forall w :: !Holds(s, w, p))
    && (forall w :: Holds(s, w, p) ==> KeyOf(p) in s.keys)
    && (forall v, w :: Holds(s, v, p) && Holds(s, w, p) ==> v == w)
    && (KeyOf(p) in s.keys ==> p in s.marked)
    && (forall w :: Carries(s, w, p) ==> p in s.marked)
  }

  // Marked, but neither stored nor on its way to be: a sync will not find it.
  ghost predicate Gone(s: State, p: Pair) {
    p in s.marked && p !in s.db && p !in s.awaiting && KeyOf(p) !in s.tracking && forall w :: !Carries(s, w, p)
  }

  // Moreover the key is still there, so that marking it again does nothing.
  ghost predicate Stranded(s: State, p: Pair) {
    Gone(s, p) && KeyOf(p) in s.keys
  }

  lemma KeysDiffer(p: Pair, q: Pair)
    requires Clean(p) && Clean(q)
    ensures KeyOf(p) == KeyOf(q) <==> p == q
    ensures Decode(KeyOf(p)) == p
  {
    DecodeInvertsItemIff(p.0, p.1);
    DecodeInvertsItemIff(q.0, q.1);
  }

  ghost predicate CleanCommand(c: Command) {
    c.Setnx? ==> Clean((c.announcement, c.user))
  }

  lemma StepStaysClean(s: State, c: Command)
    requires AllClean(s) && CleanCommand(c)
    ensures AllClean(Step(s, c))
  {
    if c.Sadd? && Enabled(s, c) {
      DecodeInvertsItemIff(c.announcement, c.user);
      assert CleanItem(Item(c.announcement, c.user));
    }
    var t := Step(s, c);
    forall w ensures CleanStage(StageOf(t, w)) {
      if !c.Setnx? && !c.Sadd? && !c.SaddFails? && w == c.syncer {
        assert CleanStage(StageOf(s, w));
      } else {
        assert StageOf(t, w) == StageOf(s, w);
      }
    }
  }

  // The command fails while its caller has the receipt.
  ghost predicate Drops(s: State, c: Command, p: Pair) {
    match c
    case SaddFails(a, u) => (a, u) == p && p in s.awaiting
    case GetFails(w) => Enabled(s, c) && Carries(s, w, p)
    case DelFails(w) => Enabled(s, c) && Carries(s, w, p)
    case InsertFails(w) => Enabled(s, c) && Carries(s, w, p)
    case _ => false
  }

  // The receipt is not stored, and nobody but the caller of the command has it.
  ghost predicate OnlyThere(s: State, c: Command, p: Pair) {
    && p !in s.db && KeyOf(p) !in s.tracking
    && (c.SaddFails? || p !in s.awaiting)
    && forall v :: Carries(s, v, p) ==> (c.GetFails? || c.DelFails? || c.InsertFails?) && v == c.syncer
  }

  ghost predicate Revives(s: State, c: Command, p: Pair) {
    c == Setnx(p.0, p.1) && KeyOf(p) !in s.keys
  }

  // What a command does to one receipt.
  ghost predicate Accounted(s: State, c: Command, p: Pair) {
    && OnePlace(Step(s, c), p)
    && (Gone(Step(s, c), p) <==> (Gone(s, p) && !Revives(s, c, p)) || (Drops(s, c, p) && OnlyThere(s, c, p)))
  }

  lemma MarkingAccounted(s: State, c: Command, p: Pair)
    requires AllClean(s) && Clean(p) && OnePlace(s, p) && CleanCommand(c)
    requires c.Setnx? || c.Sadd? || c.SaddFails?
    ensures Accounted(s, c, p)
  {
    var t := Step(s, c);
    if Enabled(s, c) {
      KeysDiffer(p, (c.announcement, c.user));
    }
    assert forall w :: StageOf(t, w) == StageOf(s, w);
    assert forall w :: Holds(t, w, p) <==> Holds(s, w, p);
    assert forall w :: Carries(t, w, p) <==> Carries(s, w, p);
  }

  // A syncer's command leaves what the other syncers hold alone.
  lemma OtherSyncers(s: State, c: Command, p: Pair)
    requires Enabled(s, c) && !c.Setnx? && !c.Sadd? && !c.SaddFails?
    ensures forall v :: v != c.syncer ==> (Holds(Step(s, c), v, p) <==> Holds(s, v, p))
    ensures forall v :: v != c.syncer ==> (Carries(Step(s, c), v, p) <==> Carries(s, v, p))
  {
    assert forall v :: v != c.syncer ==> StageOf(Step(s, c), v) == StageOf(s, v);
  }

  lemma SpopAccounted(s: State, w: nat, items: set<string>, p: Pair)
    requires OnePlace(s, p) && Enabled(s, Spop(w, items))
    ensures Accounted(s, Spop(w, items), p)
  {
    var t := Step(s, Spop(w, items));
    OtherSyncers(s, Spop(w, items), p);
    assert !Carries(s, w, p);
    assert Holds(t, w, p) <==> KeyOf(p) in items;
    assert Carries(t, w, p) <==> KeyOf(p) in items;
  }

  // A popped item whose key still exists is fetched as the pair it stands for.
  lemma GetKeeps(s: State, w: nat, item: string, p: Pair)
    requires AllClean(s) && Clean(p) && OnePlace(s, p) && Enabled(s, Get(w, item))
    ensures Holds(Step(s, Get(w, item)), w, p) <==> Holds(s, w, p)
    ensures Carries(Step(s, Get(w, item)), w, p) <==> Carries(s, w, p)
  {
    KeysDiffer(p, p);
    assert CleanStage(StageOf(s, w));
    assert CleanItem(item);
    if KeyOf(p) == item {
      assert Holds(s, w, p);
      assert Receipts({item}, s.keys) == {p};
    } else {
      assert p !in Receipts({item}, s.keys);
    }
  }

  // Deleting a batch's keys removes the key of p exactly when p is in the batch.
  lemma DelRemoves(s: State, w: nat, p: Pair)
    requires AllClean(s) && Clean(p) && Enabled(s, Del(w))
    ensures KeyOf(p) in Step(s, Del(w)).keys <==> KeyOf(p) in s.keys && !Holds(s, w, p)
    ensures !Holds(Step(s, Del(w)), w, p)
    ensures Carries(Step(s, Del(w)), w, p) <==> Holds(s, w, p)
  {
    assert CleanStage(StageOf(s, w));
    forall q | q in StageOf(s, w).found ensures KeyOf(q) == KeyOf(p) <==> q == p {
      KeysDiffer(q, p);
    }
  }

  // Exactly the failure of the only caller that has a receipt makes it gone, and exactly marking it again
  // when its key is gone too brings it back.
  lemma GoneStepIff(s: State, c: Command, p: Pair)
    requires AllClean(s) && Clean(p) && OnePlace(s, p) && CleanCommand(c)
    ensures OnePlace(Step(s, c), p)
    ensures Gone(Step(s, c), p) <==> (Gone(s, p) && !Revives(s, c, p)) || (Drops(s, c, p) && OnlyThere(s, c, p))
  {
    if c.Setnx? || c.Sadd? || c.SaddFails? {
      MarkingAccounted(s, c, p);
    } else if Enabled(s, c) {
      OtherSyncers(s, c, p);
      match c {
        case Spop(w, items) => SpopAccounted(s, w, items, p);
        case Get(w, item) =>
          GetKeeps(s, w, item, p);
          assert forall v :: Carries(Step(s, c), v, p) <==> Carries(s, v, p);
        case Del(w) =>
          DelRemoves(s, w, p);
          assert forall v :: Carries(Step(s, c), v, p) <==> Carries(s, v, p);
        case _ => EndedAccounted(s, c, p);
      }
    }
  }

  // Stored or failed, the syncer holds nothing any more.
  lemma EndedAccounted(s: State, c: Command, p: Pair)
    requires OnePlace(s, p) && Enabled(s, c) && (c.Insert? || c.GetFails? || c.DelFails? || c.InsertFails?)
    ensures Accounted(s, c, p)
  {
    var t := Step(s, c);
    OtherSyncers(s, c, p);
    assert !Carries(t, c.syncer, p);
    if Carries(s, c.syncer, p) {
      assert !Gone(s, p) && p in s.marked;
      if c.Insert? {
        assert p in t.db;
      } else {
        assert OnlyThere(s, c, p) <==> Gone(t, p);
      }
    } else {
      assert forall v :: Carries(t, v, p) <==> Carries(s, v, p);
    }
  }

  ghost predicate IdsWithoutColon(commands: seq<Command>) {
    forall i :: 0 <= i < |commands| ==> CleanCommand(commands[i])
  }

  // The last failure that dropped the only copy of the receipt has not been followed by a new mark.
  ghost predicate DroppedLast(commands: seq<Command>, p: Pair) {
    commands != [] &&
    (var before, c := commands[..|commands| - 1], commands[|commands| - 1];
     (DroppedLast(before, p) && !Revives(After(before), c, p))
     || (Drops(After(before), c, p) && OnlyThere(After(before), c, p)))
  }

  // In every interleaving with any number of syncers: a receipt is in at most one place before its key is
  // deleted, and a marked one is gone exactly when its only holder failed and it was not marked anew.
  lemma {:induction false} GoneIff(commands: seq<Command>, p: Pair)
    requires IdsWithoutColon(commands) && Clean(p)
    ensures AllClean(After(commands)) && OnePlace(After(commands), p)
    ensures Gone(After(commands), p) <==> DroppedLast(commands, p)
  {
    if commands != [] {
      var before, c := commands[..|commands| - 1], commands[|commands| - 1];
      GoneIff(before, p);
      StepStaysClean(After(before), c);
      GoneStepIff(After(before), c, p);
    }
  }

  // Once nothing waits and no syncer is busy, a marked receipt is in the database exactly unless it is gone.
  lemma QuietMeansStored(commands: seq<Command>, p: Pair)
    requires IdsWithoutColon(commands) && Clean(p)
    requires var s := After(commands);
      p in s.marked && s.awaiting == {} && s.tracking == {} && forall w :: StageOf(s, w) == Idle
    ensures p in After(commands).db <==> !DroppedLast(commands, p)
  {
    GoneIff(commands, p);
  }

  // With its key left behind a receipt is never stored, however often it is marked and synced.
  lemma {:induction false} StrandedForever(commands: seq<Command>, later: seq<Command>, p: Pair)
    requires IdsWithoutColon(commands + later) && Clean(p) && Stranded(After(commands), p)
    ensures Stranded(After(commands + later), p)
  {
    if later == [] {
      assert commands + later == commands;
    } else {
      var all, c := commands + later, later[|later| - 1];
      var before := commands + later[..|later| - 1];
      assert all == before + [c] && all[..|all| - 1] == before;
      assert forall i :: 0 <= i < |before| ==> before[i] == all[i];
      assert c == all[|before|] && CleanCommand(c);
      StrandedForever(commands, later[..|later| - 1], p);
      GoneIff(before, p);
      GoneStepIff(After(before), c, p);
      StrandedKeepsKey(After(before), c, p);
    }
  }

  lemma StrandedKeepsKey(s: State, c: Command, p: Pair)
    requires AllClean(s) && Clean(p) && Stranded(s, p)
    ensures KeyOf(p) in Step(s, c).keys
  {
    if c.Del? && Enabled(s, c) {
      DelRemoves(s, c.syncer, p);
      assert !Carries(s, c.syncer, p);
    }
  }

  lemma AfterSnoc(commands: seq<Command>, c: Command)
    ensures After(commands + [c]) == Step(After(commands), c)
  {
    assert (commands + [c])[..|commands|] == commands;
  }

  // One receipt is marked and its item popped by syncer 0.
  function MarkAndPop(a: string, u: string): seq<Command> {
    [Setnx(a, u)] + [Sadd(a, u)] + [Spop(0, {Item(a, u)})]
  }

  function MarkAndGet(a: string, u: string): seq<Command> {
    MarkAndPop(a, u) + [Get(0, Item(a, u))]
  }

  lemma MarkAndGetHolds(a: string, u: string)
    ensures After([Setnx(a, u)]) == State({Item(a, u)}, {}, {(a, u)}, map[], {}, {(a, u)})
    ensures After(MarkAndPop(a, u))
         == State({Item(a, u)}, {}, {}, map[0 := Popped({Item(a, u)}, {})], {}, {(a, u)})
    ensures After(MarkAndGet(a, u))
         == State({Item(a, u)}, {}, {}, map[0 := Popped({}, Receipts({Item(a, u)}, {Item(a, u)}))], {}, {(a, u)})
  {
    var c1 := [Setnx(a, u)];
    AfterSnoc([], Setnx(a, u));
    assert [] + c1 == c1;
    AfterSnoc(c1, Sadd(a, u));
    AfterSnoc(c1 + [Sadd(a, u)], Spop(0, {Item(a, u)}));
    AfterSnoc(MarkAndPop(a, u), Get(0, Item(a, u)));
    assert After(c1 + [Sadd(a, u)]) == State({Item(a, u)}, {Item(a, u)}, {}, map[], {}, {(a, u)});
    assert {} + Receipts({Item(a, u)}, {Item(a, u)}) == Receipts({Item(a, u)}, {Item(a, u)});
    assert {Item(a, u)} - {Item(a, u)} == {};
  }

  // A SADD, a GET or a DEL that fails leaves the key behind: stranded.
  lemma FailureStrands(a: string, u: string)
    requires Clean((a, u))
    ensures Stranded(After([Setnx(a, u)] + [SaddFails(a, u)]), (a, u))
    ensures Stranded(After(MarkAndPop(a, u) + [GetFails(0)]), (a, u))
    ensures Stranded(After(MarkAndGet(a, u) + [DelFails(0)]), (a, u))
  {
    MarkAndGetHolds(a, u);
    AfterSnoc([Setnx(a, u)], SaddFails(a, u));
    AfterSnoc(MarkAndPop(a, u), GetFails(0));
    AfterSnoc(MarkAndGet(a, u), DelFails(0));
  }

  // An insert that fails comes after the DEL: the receipt is gone, but marking it again brings it back.
  lemma FailedInsertLoses(a: string, u: string)
    requires Clean((a, u))
    ensures var s := After(MarkAndGet(a, u) + [Del(0)] + [InsertFails(0)]);
      Gone(s, (a, u)) && KeyOf((a, u)) !in s.keys && Revives(s, Setnx(a, u), (a, u))
  {
    var item := Item(a, u);
    MarkAndGetHolds(a, u);
    DecodeInvertsItemIff(a, u);
    assert item in {item} && Receipts({item}, {item}) == {(a, u)};
    assert KeysOf({(a, u)}) == {item};
    AfterSnoc(MarkAndGet(a, u), Del(0));
    AfterSnoc(MarkAndGet(a, u) + [Del(0)], InsertFails(0));
  }

  lemma OneColon(x: string, y: string, k: nat)
    requires NoColon(x) && NoColon(y) && k < |Item(x, y)|
    ensures Item(x, y)[k] == ':' <==> k == |x|
  {
    if k < |x| {
      assert Item(x, y)[k] == x[k];
    } else if |x| < k {
      assert Item(x, y)[k] == y[k - |x| - 1];
    }
  }

  // The decoded pair of an item leads back to the item only if there is no second colon in it.
  lemma KeyOfDecoded(a: string, u: string)
    ensures KeyOf(Decode(Item(a, u))) == Item(a, u) <==> Clean((a, u))
  {
    var item := Item(a, u);
    var (x, y) := Decode(item);
    DecodeInvertsItemIff(a, u);
    UntilColonPrefix(item);
    if |x| < |item| {
      UntilColonPrefix(item[|x| + 1..]);
    }
    if KeyOf((x, y)) == item {
      OneColon(x, y, |a|);
      assert a == item[..|a|] == x;
      assert u == item[|a| + 1..] == y;
    }
  }

  // A pair with a colon in an id is looked up under another key: popped, never stored, and not marked again.
  lemma ColonLosesReceipt(a: string, u: string)
    requires !Clean((a, u))
    ensures Stranded(After(MarkAndGet(a, u) + [Del(0)] + [Insert(0)]), (a, u))
  {
    var item := Item(a, u);
    MarkAndGetHolds(a, u);
    KeyOfDecoded(a, u);
    assert Receipts({item}, {item}) == {};
    assert KeysOf({}) == {};
    AfterSnoc(MarkAndGet(a, u), Del(0));
    AfterSnoc(MarkAndGet(a, u) + [Del(0)], Insert(0));
  }

  // ---- The service methods, without interleaving ------------------------------------------------------

  function DecodeAll(items: set<string>): set<Pair> {
    set item | item in items :: Decode(item)
  }

  ghost predicate CleanItems(items: set<string>) {
    forall item :: item in items ==> CleanItem(item)
  }

  // The GETs of a batch: the pairs whose key is found.
  function Receipts(items: set<string>, keys: set<string>): set<Pair> {
    set item | item in items && KeyOf(Decode(item)) in keys :: Decode(item)
  }

  function KeysOf(receipts: set<Pair>): set<string> {
    set p | p in receipts :: KeyOf(p)
  }

  lemma NoReceiptSkipped(items: set<string>, keys: set<string>)
    requires CleanItems(items) && items <= keys
    ensures Receipts(items, keys) == DecodeAll(items)
  {
    forall item | item in items ensures KeyOf(Decode(item)) in keys {
      assert CleanItem(item);
    }
  }

  lemma OtherPair(items: set<string>, x: string)
    requires CleanItems(items) && CleanItem(x) && x !in items
    ensures Decode(x) !in DecodeAll(items)
  {
    forall y | y in items ensures Decode(y) != Decode(x) {
      assert CleanItem(y);
    }
  }

  lemma {:induction false} DecodeAllIsInjective(items: set<string>)
    requires CleanItems(items)
    ensures |DecodeAll(items)| == |items|
    decreases items
  {
    if items != {} {
      var x :| x in items;
      var rest := items - {x};
      DecodeAllIsInjective(rest);
      assert CleanItem(x);
      OtherPair(rest, x);
      assert DecodeAll(items) == DecodeAll(rest) + {Decode(x)};
    }
  }

  lemma KeysOfDecoded(items: set<string>)
    requires CleanItems(items)
    ensures KeysOf(DecodeAll(items)) == items
  {
    forall x ensures x in KeysOf(DecodeAll(items)) <==> x in items {
      if x in items {
        assert CleanItem(x) && Decode(x) in DecodeAll(items);
      }
      if x in KeysOf(DecodeAll(items)) {
        var y :| y in items && KeyOf(Decode(y)) == x;
        assert CleanItem(y);
      }
    }
  }

  class ReceiptStore {
    var keys: set<string>
    var tracking: set<string>
    var db: set<Pair>

    ghost predicate Valid()
      reads this
    {
      keys == tracking && CleanItems(tracking)
    }

    constructor ()
      ensures Valid() && tracking == {} && db == {}
    {
      keys, tracking, db := {}, {}, {};
    }

    method MarkAnnouncementAsRead(announcement: string, user: string)
      requires Valid()
      modifies this`keys, this`tracking
      ensures keys == old(keys) + {Item(announcement, user)} && tracking == old(tracking) + {Item(announcement, user)}
      ensures NoColon(announcement) && NoColon(user) ==> Valid()
    {
      DecodeInvertsItemIff(announcement, user);
      var item := Item(announcement, user);
      assert NoColon(announcement) && NoColon(user) ==> CleanItem(item);
      if item in keys { return; }
      keys := keys + {item};
      tracking := tracking + {item};
    }

    method Spop(n: nat) returns (items: set<string>)
      modifies this`tracking
      ensures items <= old(tracking) && tracking == old(tracking) - items
      ensures |items| == if |old(tracking)| < n then |old(tracking)| else n
    {
      items := {};
      while |items| < n && tracking != {}
        invariant items <= old(tracking) && tracking == old(tracking) - items && |items| <= n
        invariant |items| + |tracking| == |old(tracking)|
        decreases |tracking|
      {
        var item :| item in tracking;
        items, tracking := items + {item}, tracking - {item};
      }
    }

    method PopAnnouncementReads(batchSize: nat) returns (receipts: set<Pair>)
      requires Valid()
      modifies this`keys, this`tracking
      ensures Valid() && tracking <= old(tracking)
      ensures receipts == DecodeAll(old(tracking) - tracking)
      ensures |receipts| == |old(tracking) - tracking|
      ensures |receipts| == if |old(tracking)| < batchSize then |old(tracking)| else batchSize
    {
      var items := Spop(batchSize);
      assert items == old(tracking) - tracking;
      DecodeAllIsInjective(items);
      KeysOfDecoded(items);
      NoReceiptSkipped(items, keys);
      receipts := Receipts(items, keys);
      keys := keys - KeysOf(receipts);
    }

    // One round: pop a batch and insert it; a short batch was the last one.
    method SyncBatch(batchSize: nat) returns (hasMore: bool)
      requires Valid() && batchSize > 0
      modifies this
      ensures Valid() && tracking <= old(tracking)
      ensures db == old(db) + DecodeAll(old(tracking) - tracking)
      ensures if hasMore then |tracking| < |old(tracking)| else tracking == {}
    {
      ghost var before := tracking;
      var receipts := PopAnnouncementReads(batchSize);
      AllGone(before, tracking);
      if receipts == {} { return false; }
      db := db + receipts;
      hasMore := |receipts| == batchSize;
    }

    // The batch loop of one sync empties Redis into the database.
    method SyncAnnouncementReads(batchSize: nat)
      requires Valid() && batchSize > 0
      modifies this
      ensures Valid() && tracking == {}
      ensures db == old(db) + DecodeAll(old(tracking))
    {
      ghost var all, stored := tracking, db;
      var hasMore := true;
      while hasMore
        invariant Valid() && tracking <= all && (!hasMore ==> tracking == {})
        invariant db == stored + DecodeAll(all - tracking)
        decreases hasMore, |tracking|
      {
        ghost var before := tracking;
        hasMore := SyncBatch(batchSize);
        DecodeAllStep(all, before, tracking);
      }
      assert all - tracking == all;
    }
  }

  lemma DecodeAllStep(all: set<string>, before: set<string>, after: set<string>)
    requires after <= before <= all
    ensures DecodeAll(all - after) == DecodeAll(all - before) + DecodeAll(before - after)
  {
    assert all - after == (all - before) + (before - after);
  }

  lemma AllGone(before: set<string>, after: set<string>)
    requires after <= before
    ensures |before - after| == |before| - |after|
    ensures |before - after| == |before| ==> after == {}
  {
    assert before == after + (before - after);
  }
}

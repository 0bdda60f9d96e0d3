// Device tokens in the database and the look-aside cache in front of them, command by command: a change
// commits to the database and drops the cache entry later, and a lookup that misses reads the database
// first and fills the cache later.
module TokenCache {
  import opened Wrappers

  datatype Row = Row(user: string, platform: string)

  // Where a lookup stands.
  datatype Lookup =
    | Found(user: string)                         // EXISTS said yes: SMEMBERS comes next
    | Missed(user: string)                        // EXISTS said no: the query comes next
    | Fill(user: string, tokens: set<string>)     // the answer of the query is about to be cached
    | Emptied(user: string)                       // no tokens: after the DEL, the marker is about to be added

  // cache holds the Redis set under `user:<id>:tokens`; dels the users whose entries each committed
  // change has yet to drop.
  datatype State = State(
    db: map<string, Row>, cache: map<string, set<string>>, lookups: map<nat, Lookup>, dels: map<nat, seq<string>>)

  // A command that fails has no effect of its own and ends its caller: a change gives up the drops it has
  // left, a lookup does not fill the cache. One that takes effect but reports an error is that command
  // followed by the failure of the caller's next one.
  datatype Command =
    | Register(op: nat, user: string, token: string, platform: string)
    | Delete(op: nat, user: string, token: string)
    | RemoveFailed(op: nat, user: string, failed: set<string>)
    | Del(op: nat)
    | DelFails(op: nat)
    | Exists(lookup: nat, user: string)
    | Smembers(lookup: nat)
    | Query(lookup: nat)
    | Sadd(lookup: nat)
    | SaddMarker(lookup: nat)
    | LookupFails(lookup: nat)
    | Expire(user: string)

  datatype Refusal = TokenNotFound | TokenNotYours

  // The marker that stands for "no tokens".
  const EMPTY := "__empty__"

  const START := State(map[], map[], map[], map[])

  function TokensOf(db: map<string, Row>, user: string): set<string> {
    set t | t in db && db[t].user == user
  }

  function Encode(tokens: set<string>): set<string> {
    if tokens == {} then {EMPTY} else tokens
  }

  function Decode(cached: set<string>): set<string> {
    if cached == {EMPTY} then {} else cached
  }

  // The marker is also a legal token: alone, it reads back as no token at all.
  lemma DecodeInvertsEncodeIff(tokens: set<string>)
    ensures Decode(Encode(tokens)) == tokens <==> tokens != {EMPTY}
  {
    assert EMPTY in {EMPTY};
  }

  predicate Owns(db: map<string, Row>, user: string, token: string) {
    token in db && db[token].user == user
  }

  // A user's own token only changes platform; otherwise the token leaves its former owner, and all
  // tokens of the new owner on that platform go.
  function Registered(db: map<string, Row>, user: string, token: string, platform: string): map<string, Row> {
    if Owns(db, user, token) then db[token := Row(user, platform)]
    else
      (map t | t in db && t != token && db[t] != Row(user, platform) :: db[t])[token := Row(user, platform)]
  }

  // A former owner's entry is dropped first.
  function EntriesToDrop(db: map<string, Row>, user: string, token: string): seq<string> {
    if token in db && db[token].user != user then [db[token].user, user] else [user]
  }

  function CachedOr(cache: map<string, set<string>>, user: string): set<string> {
    if user in cache then cache[user] else {}
  }

  predicate Enabled(s: State, c: Command) {
    match c
    case Register(op, _, _, _) => op !in s.dels
    case Delete(op, u, t) => op !in s.dels && Owns(s.db, u, t)
    case RemoveFailed(op, _, _) => op !in s.dels
    case Del(op) => op in s.dels && s.dels[op] != []
    case DelFails(op) => op in s.dels && s.dels[op] != []
    case Exists(l, _) => l !in s.lookups
    case Smembers(l) => l in s.lookups && s.lookups[l].Found?
    case Query(l) => l in s.lookups && s.lookups[l].Missed?
    case Sadd(l) => l in s.lookups && s.lookups[l].Fill?
    case SaddMarker(l) => l in s.lookups && s.lookups[l].Emptied?
    case LookupFails(l) => l in s.lookups
    case Expire(_) => true
  }

  // A command whose turn has not come, or that the service refuses, does nothing.
  function Step(s: State, c: Command): State {
    if !Enabled(s, c) then s
    else match c
    case Register(op, u, t, p) =>
      s.(db := Registered(s.db, u, t, p), dels := s.dels[op := EntriesToDrop(s.db, u, t)])
    case Delete(op, u, t) => s.(db := s.db - {t}, dels := s.dels[op := [u]])
    case RemoveFailed(op, u, failed) => s.(db := s.db - failed, dels := s.dels[op := [u]])
    case Del(op) =>
      var users := s.dels[op];
      s.(cache := s.cache - {users[0]}, dels := if |users| == 1 then s.dels - {op} else s.dels[op := users[1..]])
    case DelFails(op) => s.(dels := s.dels - {op})
    case Exists(l, u) => s.(lookups := s.lookups[l := if u in s.cache then Found(u) else Missed(u)])
    case Smembers(l) => s.(lookups := s.lookups - {l})
    case Query(l) =>
      var u := s.lookups[l].user;
      s.(lookups := s.lookups[l := Fill(u, TokensOf(s.db, u))])
    case Sadd(l) =>
      var u, tokens := s.lookups[l].user, s.lookups[l].tokens;
      if tokens == {} then s.(cache := s.cache - {u}, lookups := s.lookups[l := Emptied(u)])
      else s.(cache := s.cache[u := CachedOr(s.cache, u) + tokens], lookups := s.lookups - {l})
    case SaddMarker(l) =>
      var u := s.lookups[l].user;
      s.(cache := s.cache[u := CachedOr(s.cache, u) + {EMPTY}], lookups := s.lookups - {l})
    case LookupFails(l) => s.(lookups := s.lookups - {l})
    case Expire(u) => s.(cache := s.cache - {u})
  }

  // The commands that write or drop the user's entry.
  predicate TouchesEntry(s: State, c: Command, user: string) {
    match c
    case Del(op) => op in s.dels && s.dels[op] != [] && s.dels[op][0] == user
    case Sadd(l) => l in s.lookups && s.lookups[l].Fill? && s.lookups[l].user == user
    case SaddMarker(l) => l in s.lookups && s.lookups[l].Emptied? && s.lookups[l].user == user
    case Expire(u) => u == user
    case _ => false
  }

  lemma EntriesElsewhereStay(s: State, c: Command, user: string)
    ensures !TouchesEntry(s, c, user) ==>
      && (user in Step(s, c).cache <==> user in s.cache)
      && CachedOr(Step(s, c).cache, user) == CachedOr(s.cache, user)
    ensures TouchesEntry(s, c, user) && (c.Del? || c.Expire?) ==> user !in Step(s, c).cache
    ensures TouchesEntry(s, c, user) && c.Sadd? ==>
      var tokens := s.lookups[c.lookup].tokens;
      if tokens == {} then user !in Step(s, c).cache
      else user in Step(s, c).cache && Step(s, c).cache[user] == CachedOr(s.cache, user) + tokens
    ensures TouchesEntry(s, c, user) && c.SaddMarker? ==>
      user in Step(s, c).cache && Step(s, c).cache[user] == CachedOr(s.cache, user) + {"__empty__"}
  {
  }

  // Only the three changes write rows, and a lookup ends or moves on by its own commands alone.
  lemma RowsAndLookupsElsewhereStay(s: State, c: Command, l: nat)
    ensures !c.Register? && !c.Delete? && !c.RemoveFailed? ==> Step(s, c).db == s.db
    ensures c.Register? || c.Delete? || c.RemoveFailed? || c.Del? || c.DelFails? || c.Expire? || c.lookup != l ==>
      (l in Step(s, c).lookups <==> l in s.lookups) && (l in s.lookups ==> Step(s, c).lookups[l] == s.lookups[l])
    ensures l !in s.lookups ==> forall u ::
      Step(s, Exists(l, u)).lookups == s.lookups[l := if u in s.cache then Found(u) else Missed(u)]
    ensures l !in Step(s, LookupFails(l)).lookups
  {
  }

  ghost function After(commands: seq<Command>): State {
    if commands == [] then START
    else Step(After(commands[..|commands| - 1]), commands[|commands| - 1])
  }

  // ---- Coherence ------------------------------------------------------------------------------

  // A committed change has yet to drop the user's entry.
  ghost predicate Pending(s: State, user: string) {
    exists op :: op in s.dels && user in s.dels[op]
  }

  ghost predicate Exact(s: State, user: string) {
    user in s.cache ==> Decode(s.cache[user]) == TokensOf(s.db, user)
  }

  // The lookup is about to write these tokens to the user's entry.
  predicate Carries(lookup: Lookup, user: string) {
    (lookup.Fill? || lookup.Emptied?) && lookup.user == user
  }

  function Carried(lookup: Lookup): set<string> {
    if lookup.Fill? then lookup.tokens else {}
  }

  ghost predicate FillsCurrent(s: State, user: string) {
    forall l :: l in s.lookups && Carries(s.lookups[l], user) ==> Carried(s.lookups[l]) == TokensOf(s.db, user)
  }

  ghost predicate CoherentFor(s: State, user: string) {
    Pending(s, user) || (Exact(s, user) && FillsCurrent(s, user))
  }

  // Unless a drop is on its way, an entry reads as the database's token set, and so does what is about to be
  // written.
  ghost predicate Coherent(s: State) {
    forall u :: CoherentFor(s, u)
  }

  // The user whose entry a DEL drops awaits a further one.
  ghost predicate AwaitsAnother(s: State, op: nat)
    requires op in s.dels && s.dels[op] != []
  {
    var u := s.dels[op][0];
    u in s.dels[op][1..] || AwaitsOther(s, op, u)
  }

  // Another change has yet to drop the user's entry.
  ghost predicate AwaitsOther(s: State, op: nat, user: string) {
    exists other :: other != op && other in s.dels && user in s.dels[other]
  }

  // A failed token has not moved to a user who is cached or being looked up; no lookup carries tokens from
  // before a change past the last DEL after it; a DEL is not given up for an entry that is out of date or
  // about to be; and the marker is not cached as a user's only token.
  ghost predicate Harmless(s: State, c: Command) {
    Enabled(s, c) ==>
      match c
      case RemoveFailed(_, u, failed) =>
        forall t :: t in failed && t in s.db && s.db[t].user != u && !Pending(s, s.db[t].user) ==>
          s.db[t].user !in s.cache && forall l :: l in s.lookups ==> !Carries(s.lookups[l], s.db[t].user)
      case Del(op) => AwaitsAnother(s, op) || FillsCurrent(s, s.dels[op][0])
      case DelFails(op) =>
        forall u :: u in s.dels[op] ==> AwaitsOther(s, op, u) || (Exact(s, u) && FillsCurrent(s, u))
      case Sadd(l) => s.lookups[l].tokens != {EMPTY} || Pending(s, s.lookups[l].user)
      case _ => true
  }

  lemma OthersKeepTokens(db: map<string, Row>, user: string, token: string, platform: string, other: string)
    requires other != user && (token in db ==> other != db[token].user)
    ensures TokensOf(Registered(db, user, token, platform), other) == TokensOf(db, other)
  {
    var after := Registered(db, user, token, platform);
    forall t ensures Owns(after, other, t) <==> Owns(db, other, t) {
    }
  }

  lemma RemovedTokens(db: map<string, Row>, failed: set<string>, user: string)
    ensures TokensOf(db - failed, user) == TokensOf(db, user) - failed
  {
  }

  // Apart from further drops, nothing that concerns the user has changed.
  lemma Aside(s: State, t: State, user: string)
    requires TokensOf(t.db, user) == TokensOf(s.db, user)
    requires forall op :: op in s.dels && user in s.dels[op] ==> op in t.dels && user in t.dels[op]
    requires user in t.cache ==> user in s.cache && t.cache[user] == s.cache[user]
    requires forall l :: l in t.lookups && Carries(t.lookups[l], user) ==>
               l in s.lookups && Carries(s.lookups[l], user) && Carried(t.lookups[l]) == Carried(s.lookups[l])
    ensures CoherentFor(s, user) ==> CoherentFor(t, user)
  {
    if Pending(s, user) {
      var op :| op in s.dels && user in s.dels[op];
      assert op in t.dels && user in t.dels[op];
    }
  }

  lemma RegisterStaysCoherent(s: State, op: nat, user: string, token: string, platform: string)
    requires Coherent(s) && op !in s.dels
    ensures Coherent(Step(s, Register(op, user, token, platform)))
  {
    var t := Step(s, Register(op, user, token, platform));
    forall u ensures CoherentFor(t, u) {
      if u in EntriesToDrop(s.db, user, token) {
        assert op in t.dels && u in t.dels[op];
      } else {
        assert user in EntriesToDrop(s.db, user, token);
        OthersKeepTokens(s.db, user, token, platform, u);
        Aside(s, t, u);
      }
    }
  }

  lemma DeleteStaysCoherent(s: State, op: nat, user: string, token: string)
    requires Coherent(s) && op !in s.dels && Owns(s.db, user, token)
    ensures Coherent(Step(s, Delete(op, user, token)))
  {
    var t := Step(s, Delete(op, user, token));
    forall u ensures CoherentFor(t, u) {
      if u == user {
        assert op in t.dels && u in t.dels[op];
      } else {
        RemovedTokens(s.db, {token}, u);
        assert token !in TokensOf(s.db, u);
        Aside(s, t, u);
      }
    }
  }

  // The failed tokens of one user besides the one the message went to.
  ghost predicate Untouched(s: State, user: string, failed: set<string>, other: string) {
    (exists t :: t in failed && Owns(s.db, other, t)) && other != user && !Pending(s, other) ==>
      other !in s.cache && forall l :: l in s.lookups ==> !Carries(s.lookups[l], other)
  }

  lemma RemoveFailedForIff(s: State, op: nat, user: string, failed: set<string>, other: string)
    requires Coherent(s) && op !in s.dels
    ensures CoherentFor(Step(s, RemoveFailed(op, user, failed)), other) <==> Untouched(s, user, failed, other)
  {
    var t := Step(s, RemoveFailed(op, user, failed));
    RemovedTokens(s.db, failed, other);
    assert CoherentFor(s, other);
    assert t.dels[op] == [user];
    if other == user {
      assert op in t.dels && other in t.dels[op];
    } else if x :| x in failed && Owns(s.db, other, x) {
      assert x in TokensOf(s.db, other) && x !in TokensOf(t.db, other);
      if Pending(s, other) {
        var o :| o in s.dels && other in s.dels[o];
        assert o in t.dels && other in t.dels[o];
      } else {
        assert !Pending(t, other);
        assert other in s.cache ==> x in Decode(s.cache[other]);
        assert other in s.cache ==> !Exact(t, other);
        forall l | l in s.lookups && Carries(s.lookups[l], other) ensures !FillsCurrent(t, other) {
          assert x in Carried(s.lookups[l]);
        }
      }
    } else {
      assert TokensOf(s.db, other) - failed == TokensOf(s.db, other) by {
        assert forall x :: x in TokensOf(s.db, other) ==> Owns(s.db, other, x);
      }
      Aside(s, t, other);
    }
  }

  // Removing failed tokens stays coherent if and only if none of them has moved to a user who is cached or
  // being looked up.
  lemma RemoveFailedCoherentIff(s: State, op: nat, user: string, failed: set<string>)
    requires Coherent(s) && op !in s.dels
    ensures Coherent(Step(s, RemoveFailed(op, user, failed))) <==> Harmless(s, RemoveFailed(op, user, failed))
  {
    var t := Step(s, RemoveFailed(op, user, failed));
    forall u ensures CoherentFor(t, u) <==> Untouched(s, user, failed, u) {
      RemoveFailedForIff(s, op, user, failed, u);
    }
    if Harmless(s, RemoveFailed(op, user, failed)) {
      forall u ensures Untouched(s, user, failed, u) {
      }
    } else {
      var x :| x in failed && x in s.db && s.db[x].user != user && !Pending(s, s.db[x].user)
        && !(s.db[x].user !in s.cache && forall l :: l in s.lookups ==> !Carries(s.lookups[l], s.db[x].user));
      assert Owns(s.db, s.db[x].user, x);
      assert !Untouched(s, user, failed, s.db[x].user);
    }
  }

  // A DEL stays coherent if and only if its user awaits another one or no lookup carries older tokens.
  lemma DelCoherentIff(s: State, op: nat)
    requires Coherent(s) && op in s.dels && s.dels[op] != []
    ensures Coherent(Step(s, Del(op))) <==> Harmless(s, Del(op))
  {
    var t, users := Step(s, Del(op)), s.dels[op];
    var u0 := users[0];
    assert users == [u0] + users[1..];
    assert op in t.dels ==> t.dels[op] == users[1..];
    forall u | u != u0 ensures CoherentFor(t, u) {
      assert u in users ==> u in users[1..] && |users| > 1;
      Aside(s, t, u);
      assert CoherentFor(s, u);
    }
    DroppedStillPendingIff(s, op);
    assert Exact(t, u0) && (FillsCurrent(t, u0) <==> FillsCurrent(s, u0));
    assert CoherentFor(t, u0) <==> AwaitsAnother(s, op) || FillsCurrent(s, u0);
    assert Coherent(t) <==> CoherentFor(t, u0);
  }

  lemma DroppedStillPendingIff(s: State, op: nat)
    requires op in s.dels && s.dels[op] != []
    ensures Pending(Step(s, Del(op)), s.dels[op][0]) <==> AwaitsAnother(s, op)
  {
    var t, users := Step(s, Del(op)), s.dels[op];
    var u0 := users[0];
    if AwaitsAnother(s, op) {
      if u0 in users[1..] {
        assert op in t.dels && u0 in t.dels[op];
      } else {
        var o :| o != op && o in s.dels && u0 in s.dels[o];
        assert o in t.dels && u0 in t.dels[o];
      }
    }
    if Pending(t, u0) {
      var o :| o in t.dels && u0 in t.dels[o];
      assert o != op ==> o in s.dels && u0 in s.dels[o];
    }
  }

  // A DEL that is given up leaves coherence alone if and only if each entry it leaves behind has another DEL
  // coming or is up to date.
  lemma DelFailsCoherentIff(s: State, op: nat)
    requires Coherent(s) && op in s.dels && s.dels[op] != []
    ensures Coherent(Step(s, DelFails(op))) <==> Harmless(s, DelFails(op))
  {
    var t := Step(s, DelFails(op));
    forall u ensures Pending(t, u) <==> AwaitsOther(s, op, u) {
      if AwaitsOther(s, op, u) {
        var o :| o != op && o in s.dels && u in s.dels[o];
        assert o in t.dels && u in t.dels[o];
      }
      if Pending(t, u) {
        var o :| o in t.dels && u in t.dels[o];
        assert o != op && o in s.dels;
      }
    }
    forall u ensures CoherentFor(t, u) <==> AwaitsOther(s, op, u) || (Exact(s, u) && FillsCurrent(s, u)) {
      assert Exact(t, u) <==> Exact(s, u);
      assert FillsCurrent(t, u) <==> FillsCurrent(s, u);
    }
    forall u | u !in s.dels[op] ensures CoherentFor(t, u) {
      assert CoherentFor(s, u);
      if Pending(s, u) {
        var o :| o in s.dels && u in s.dels[o];
        assert AwaitsOther(s, op, u);
      }
    }
  }

  // Caching what a lookup found stays coherent unless that is the marker alone.
  lemma SaddCoherentIff(s: State, l: nat)
    requires Coherent(s) && Enabled(s, Sadd(l))
    ensures Coherent(Step(s, Sadd(l))) <==> Harmless(s, Sadd(l))
  {
    var t, u, tokens := Step(s, Sadd(l)), s.lookups[l].user, s.lookups[l].tokens;
    assert CoherentFor(s, u) && Carries(s.lookups[l], u);
    if !Pending(s, u) {
      assert !Pending(t, u) && tokens == TokensOf(s.db, u);
      if tokens != {} {
        assert CachedOr(s.cache, u) + tokens == tokens;
        DecodeInvertsEncodeIff(tokens);
        assert Exact(t, u) <==> tokens != {EMPTY};
      }
    }
    forall v ensures CoherentFor(t, v) || (v == u && tokens == {EMPTY} && !Pending(s, u)) {
      if v == u && !Pending(s, u) {
        assert tokens != {EMPTY} ==> Exact(t, u) && FillsCurrent(t, u);
      } else if v == u {
        var op :| op in s.dels && u in s.dels[op];
        assert op in t.dels && u in t.dels[op];
      } else {
        Aside(s, t, v);
      }
    }
    if tokens == {EMPTY} && !Pending(s, u) {
      assert !Exact(t, u) && !CoherentFor(t, u);
    }
  }

  lemma SaddMarkerStaysCoherent(s: State, l: nat)
    requires Coherent(s) && Enabled(s, SaddMarker(l))
    ensures Coherent(Step(s, SaddMarker(l)))
  {
    var t, u := Step(s, SaddMarker(l)), s.lookups[l].user;
    forall v ensures CoherentFor(t, v) {
      if v == u && !Pending(s, u) {
        assert CoherentFor(s, u) && Carries(s.lookups[l], u);
        assert CachedOr(s.cache, u) + {EMPTY} == {EMPTY};
        assert Exact(t, u) && FillsCurrent(t, u);
      } else if v == u {
        var op :| op in s.dels && u in s.dels[op];
        assert op in t.dels && u in t.dels[op];
      } else {
        Aside(s, t, v);
      }
    }
  }

  lemma ReadingStaysCoherent(s: State, c: Command)
    requires Coherent(s) && Enabled(s, c) && (c.Exists? || c.Smembers? || c.Query? || c.LookupFails? || c.Expire?)
    ensures Coherent(Step(s, c))
  {
    var t := Step(s, c);
    forall u ensures CoherentFor(t, u) {
      if c.Query? && u == s.lookups[c.lookup].user {
        assert CoherentFor(s, u);
        if Pending(s, u) {
          var op :| op in s.dels && u in s.dels[op];
          assert op in t.dels && u in t.dels[op];
        } else {
          assert FillsCurrent(t, u);
        }
      } else {
        Aside(s, t, u);
      }
    }
  }

  // From a coherent state, exactly the harmless commands leave a coherent state.
  lemma StaysCoherentIffHarmless(s: State, c: Command)
    requires Coherent(s)
    ensures Coherent(Step(s, c)) <==> Harmless(s, c)
  {
    if Enabled(s, c) {
      match c
      case Register(op, u, t, p) => RegisterStaysCoherent(s, op, u, t, p);
      case Delete(op, u, t) => DeleteStaysCoherent(s, op, u, t);
      case RemoveFailed(op, u, failed) => RemoveFailedCoherentIff(s, op, u, failed);
      case Del(op) => DelCoherentIff(s, op);
      case DelFails(op) => DelFailsCoherentIff(s, op);
      case Sadd(l) => SaddCoherentIff(s, l);
      case SaddMarker(l) => SaddMarkerStaysCoherent(s, l);
      case Exists(_, _) => ReadingStaysCoherent(s, c);
      case Smembers(_) => ReadingStaysCoherent(s, c);
      case Query(_) => ReadingStaysCoherent(s, c);
      case LookupFails(_) => ReadingStaysCoherent(s, c);
      case Expire(_) => ReadingStaysCoherent(s, c);
    }
  }

  ghost predicate HarmlessRun(commands: seq<Command>) {
    commands == [] ||
    (HarmlessRun(commands[..|commands| - 1]) && Harmless(After(commands[..|commands| - 1]), commands[|commands| - 1]))
  }

  ghost predicate CoherentThroughout(commands: seq<Command>) {
    Coherent(After(commands)) && (commands != [] ==> CoherentThroughout(commands[..|commands| - 1]))
  }

  // Over a run the cache is coherent throughout, exactly when every command is harmless.
  lemma {:induction false} CoherentThroughoutIff(commands: seq<Command>)
    ensures CoherentThroughout(commands) <==> HarmlessRun(commands)
  {
    if commands == [] {
      forall u ensures CoherentFor(START, u) {
      }
    } else {
      var before := commands[..|commands| - 1];
      CoherentThroughoutIff(before);
      if CoherentThroughout(before) {
        StaysCoherentIffHarmless(After(before), commands[|commands| - 1]);
      }
    }
  }

  // ---- What lookups answer ----------------------------------------------------------------------

  // SMEMBERS after EXISTS found the entry: gone meanwhile, it reads as the empty set.
  function Answer(s: State, l: nat): set<string>
    requires l in s.lookups && s.lookups[l].Found?
  {
    Decode(CachedOr(s.cache, s.lookups[l].user))
  }

  // After a harmless run, and with no change of the user under way: a lookup that found the entry answers
  // what the query would, unless the entry has gone since and there are tokens.
  lemma AnswerIsTheQueryIff(commands: seq<Command>, l: nat)
    requires HarmlessRun(commands)
    requires var s := After(commands);
      l in s.lookups && s.lookups[l].Found? && !Pending(s, s.lookups[l].user)
    ensures var s := After(commands);
      var u := s.lookups[l].user;
      Answer(s, l) == TokensOf(s.db, u) <==> u in s.cache || TokensOf(s.db, u) == {}
  {
    CoherentThroughoutIff(commands);
    var s := After(commands);
    var u := s.lookups[l].user;
    assert CoherentFor(s, u);
  }

  // Between the commit of a registration and its DEL, a hit still answers the tokens from before.
  lemma HitBeforeDelIsStale(s: State, op: nat, l: nat, user: string, token: string, platform: string)
    requires Coherent(s) && user in s.cache && !Pending(s, user) && token !in s.db
    requires op !in s.dels && l !in s.lookups
    ensures var r := Step(Step(s, Register(op, user, token, platform)), Exists(l, user));
      && r.lookups[l] == Found(user)
      && Answer(r, l) == TokensOf(s.db, user) && token !in Answer(r, l) && token in TokensOf(r.db, user)
  {
    assert CoherentFor(s, user);
    assert token in Registered(s.db, user, token, platform);
  }

  // If that DEL fails, the entry without the new token is there to stay until the next change or its expiry.
  lemma FailedDelIsStale(s: State, op: nat, user: string, token: string, platform: string)
    requires Coherent(s) && user in s.cache && !Pending(s, user) && token !in s.db && op !in s.dels
    ensures var r := Step(Step(s, Register(op, user, token, platform)), DelFails(op));
      && r.dels == s.dels && !CoherentFor(r, user)
      && user in r.cache && token !in Decode(r.cache[user]) && token in TokensOf(r.db, user)
  {
    assert CoherentFor(s, user);
    var r := Step(Step(s, Register(op, user, token, platform)), DelFails(op));
    assert token in Registered(s.db, user, token, platform);
    assert r.dels == s.dels && !Pending(r, user);
    assert token in TokensOf(r.db, user) && !Exact(r, user);
  }

  lemma FillsAbsentEntry(s: State, l: nat)
    requires Enabled(s, Sadd(l)) && s.lookups[l].user !in s.cache
    ensures var u := s.lookups[l].user;
      var r := Step(Step(s, Sadd(l)), SaddMarker(l));
      r.dels == s.dels && r.db == s.db && u in r.cache && r.cache[u] == Encode(s.lookups[l].tokens)
  {
    var tokens := s.lookups[l].tokens;
    assert {} + tokens == tokens && {} + {EMPTY} == {EMPTY};
  }

  // A lookup that carries its tokens past a registration and its DEL leaves them in the cache for good.
  lemma OvertakenFillIsStale(s: State, op: nat, l: nat, token: string, platform: string)
    requires Coherent(s) && Enabled(s, Sadd(l)) && op !in s.dels && token !in s.db
    requires !Pending(s, s.lookups[l].user)
    ensures var u, tokens := s.lookups[l].user, s.lookups[l].tokens;
      var r := Step(Step(Step(Step(s, Register(op, u, token, platform)), Del(op)), Sadd(l)), SaddMarker(l));
      r.dels == s.dels && u in r.cache && r.cache[u] == Encode(tokens) && token !in Decode(r.cache[u]) && Owns(r.db, u, token)
  {
    var u, tokens := s.lookups[l].user, s.lookups[l].tokens;
    assert CoherentFor(s, u) && Carries(s.lookups[l], u);
    assert tokens == TokensOf(s.db, u);
    var s1 := Step(s, Register(op, u, token, platform));
    assert s1.dels[op] == [u] && Owns(s1.db, u, token);
    var s2 := Step(s1, Del(op));
    assert s2.dels == s.dels && u !in s2.cache;
    FillsAbsentEntry(s2, l);
  }

  // ---- One token per platform ----------------------------------------------------------------------

  ghost predicate OnePerPlatform(db: map<string, Row>, user: string) {
    forall t, v :: Owns(db, user, t) && Owns(db, user, v) && db[t].platform == db[v].platform ==> t == v
  }

  // Registering keeps one token per platform unless the user's own token moves onto a platform that
  // another token of the user already has.
  lemma RegisterKeepsOnePerPlatformIff(db: map<string, Row>, user: string, token: string, platform: string)
    requires OnePerPlatform(db, user)
    ensures OnePerPlatform(Registered(db, user, token, platform), user) <==>
      !(Owns(db, user, token) && exists t :: t in db && t != token && db[t] == Row(user, platform))
  {
    var after := Registered(db, user, token, platform);
    assert Owns(after, user, token) && after[token].platform == platform;
    if Owns(db, user, token) {
      if t :| t in db && t != token && db[t] == Row(user, platform) {
        assert Owns(after, user, t) && after[t].platform == platform;
      }
    }
    forall t | Owns(after, user, t) && t != token ensures Owns(db, user, t) && after[t] == db[t] {
    }
  }

  // The former owner and everybody else keep theirs.
  lemma RegisterKeepsOthersOnePerPlatform(
      db: map<string, Row>, user: string, token: string, platform: string, other: string)
    requires OnePerPlatform(db, other) && other != user
    ensures OnePerPlatform(Registered(db, user, token, platform), other)
  {
    var after := Registered(db, user, token, platform);
    forall t | Owns(after, other, t) ensures Owns(db, other, t) && after[t] == db[t] {
    }
  }

  // ---- The service, one call at a time -----------------------------------------------------------

  // A committed change drops its one or two entries.
  function Finished(s: State, op: nat): State {
    Step(Step(s, Del(op)), Del(op))
  }

  ghost predicate Idle(s: State) {
    s.lookups == map[] && s.dels == map[]
  }

  lemma IdleIsExact(s: State, user: string)
    requires Coherent(s) && Idle(s)
    ensures Exact(s, user)
  {
    assert CoherentFor(s, user) && !Pending(s, user);
  }

  lemma ExactIsCoherent(s: State)
    requires Idle(s) && forall u :: Exact(s, u)
    ensures Coherent(s)
  {
  }

  // Undisturbed, a harmless change and its drops leave an idle, coherent state.
  lemma UndisturbedChange(s: State, c: Command)
    requires Coherent(s) && Idle(s) && (c.Register? || c.Delete? || c.RemoveFailed?) && c.op == 0
    requires Enabled(s, c) && Harmless(s, c)
    ensures Coherent(Finished(Step(s, c), 0)) && Idle(Finished(Step(s, c), 0))
  {
    var t := Step(s, c);
    StaysCoherentIffHarmless(s, c);
    StaysCoherentIffHarmless(t, Del(0));
    StaysCoherentIffHarmless(Step(t, Del(0)), Del(0));
  }

  class TokenService {
    var db: map<string, Row>
    var cache: map<string, set<string>>

    ghost function View(): State
      reads this
    {
      State(db, cache, map[], map[])
    }

    ghost predicate Valid()
      reads this
    {
      Coherent(View())
    }

    constructor ()
      ensures Valid() && View() == START
    {
      db, cache := map[], map[];
      new;
      ExactIsCoherent(View());
    }

    method InvalidateUserTokensCache(user: string)
      modifies this`cache
      ensures cache == old(cache) - {user}
    {
      cache := cache - {user};
    }

    // The rows: a former owner's row goes, then all rows of the user on the platform.
    method StoreToken(user: string, token: string, platform: string) returns (oldUser: Option<string>)
      modifies this`db
      ensures db == Registered(old(db), user, token, platform)
      ensures oldUser == if token in old(db) && old(db)[token].user != user then Some(old(db)[token].user) else None
    {
      oldUser := if token in db && db[token].user != user then Some(db[token].user) else None;
      if token in db && db[token].user == user {
        db := db[token := Row(user, platform)];
        return;
      }
      if oldUser.Some? {
        db := db - {token};
      }
      db := map t | t in db && db[t] != Row(user, platform) :: db[t];
      db := db[token := Row(user, platform)];
    }

    method InvalidateBoth(oldUser: Option<string>, user: string)
      modifies this`cache
      ensures cache == old(cache) - (if oldUser.Some? then {oldUser.value} else {}) - {user}
    {
      if oldUser.Some? {
        InvalidateUserTokensCache(oldUser.value);
      }
      InvalidateUserTokensCache(user);
    }

    // The user owns the token afterwards.
    method RegisterToken(user: string, token: string, platform: string)
      requires Valid()
      modifies this
      ensures Valid()
      ensures View() == Finished(Step(old(View()), Register(0, user, token, platform)), 0)
      ensures token in db && db[token] == Row(user, platform)
      // A new token replaces the user's tokens of the platform; an own one only moves to it.
      ensures forall t :: t in db && t != token ==> t in old(db) && db[t] == old(db)[t]
      ensures forall t :: t in old(db) && t != token ==>
        (t in db <==> old(db)[t].user != user || old(db)[t].platform != platform
                      || (token in old(db) && old(db)[token].user == user))
      ensures forall u :: u in cache <==>
        u in old(cache) && u != user && !(token in old(db) && u == old(db)[token].user)
      ensures forall u :: u in cache ==> cache[u] == old(cache)[u]
    {
      var oldUser := StoreToken(user, token, platform);
      InvalidateBoth(oldUser, user);
      RegisteredAndDropped(old(View()), user, token, platform);
      UndisturbedChange(old(View()), Register(0, user, token, platform));
    }

    method DeleteToken(user: string, token: string) returns (r: Result<bool, Refusal>)
      requires Valid()
      modifies this
      ensures Valid()
      ensures r == if token !in old(db) then Failure(TokenNotFound)
                   else if old(db)[token].user != user then Failure(TokenNotYours) else Success(true)
      ensures r.Failure? ==> View() == old(View())
      ensures r.Success? ==> View() == Finished(Step(old(View()), Delete(0, user, token)), 0)
      ensures r.Success? ==> db == old(db) - {token} && cache == old(cache) - {user}
    {
      if token !in db {
        return Failure(TokenNotFound);
      }
      if db[token].user != user {
        return Failure(TokenNotYours);
      }
      UndisturbedChange(View(), Delete(0, user, token));
      DeletedAndDropped(View(), user, token);
      db := db - {token};
      InvalidateUserTokensCache(user);
      return Success(true);
    }

    // Into a missing entry: what is cached reads back as the tokens, unless the one token is the marker.
    method CacheUserTokens(user: string, tokens: set<string>)
      modifies this`cache
      ensures cache == old(cache)[user := if tokens == {} then {EMPTY} else CachedOr(old(cache), user) + tokens]
      ensures user !in old(cache) ==> cache[user] == Encode(tokens)
      ensures user !in old(cache) ==> (Decode(cache[user]) == tokens <==> tokens != {EMPTY})
    {
      DecodeInvertsEncodeIff(tokens);
      if tokens == {} {
        cache := cache - {user};
        cache := cache[user := {EMPTY}];
        assert cache == old(cache)[user := {EMPTY}];
        return;
      }
      assert {} + tokens == tokens;
      var cached := if user in cache then cache[user] else {};
      cache := cache[user := cached + tokens];
    }

    // A hit is the database's answer; no answer means a miss.
    method GetCachedUserTokens(user: string) returns (tokens: Option<set<string>>)
      requires Valid()
      ensures tokens.None? <==> user !in cache
      ensures tokens.Some? ==> tokens.value == TokensOf(db, user)
    {
      IdleIsExact(View(), user);
      if user !in cache {
        return None;
      }
      var members := cache[user];
      if members == {EMPTY} {
        return Some({});
      }
      return Some(members);
    }

    // Hit or miss, the answer is the database's. Afterwards it is cached, and later hits read the same unless
    // the marker is the user's only token.
    method GetUserTokens(user: string) returns (tokens: set<string>)
      requires Valid()
      modifies this`cache
      ensures tokens == TokensOf(db, user) && user in cache
      ensures Valid() <==> tokens != {"__empty__"}
      ensures forall u :: u != user ==> Exact(View(), u) && (u in cache <==> u in old(cache))
    {
      forall u ensures Exact(View(), u) {
        IdleIsExact(View(), u);
      }
      var cached := GetCachedUserTokens(user);
      if cached.Some? {
        assert Exact(View(), user) && cached.value == Decode(cache[user]);
        assert EMPTY in {EMPTY};
        return cached.value;
      }
      tokens := set t | t in db && db[t].user == user;
      CacheUserTokens(user, tokens);
      forall u | u != user ensures Exact(View(), u) {
        assert Exact(old(View()), u);
      }
      assert Exact(View(), user) <==> tokens != {EMPTY};
      if tokens != {EMPTY} {
        ExactIsCoherent(View());
      } else {
        assert !CoherentFor(View(), user);
      }
    }

    // Those of the tokens that FCM refuses.
    method Refused(tokens: set<string>, accepts: string -> bool) returns (failed: set<string>)
      ensures failed == set t | t in tokens && !accepts(t)
    {
      failed := {};
      var rest := tokens;
      while rest != {}
        invariant rest <= tokens
        invariant failed == set t | t in tokens && t !in rest && !accepts(t)
        decreases rest
      {
        var t :| t in rest;
        rest := rest - {t};
        if !accepts(t) {
          failed := failed + {t};
        }
      }
    }

    // After sending to the user's tokens, those FCM rejected are removed.
    method SendNotification(user: string, accepts: string -> bool)
      requires Valid()
      modifies this
      ensures TokensOf(db, user) == set t | t in TokensOf(old(db), user) && accepts(t)
      ensures forall u :: u != user ==> TokensOf(db, u) == TokensOf(old(db), u)
      ensures Valid() <==> !(TokensOf(old(db), user) == {"__empty__"} && accepts("__empty__"))
      ensures forall t :: t in db <==> t in old(db) && (old(db)[t].user == user ==> accepts(t))
      ensures forall t :: t in db ==> db[t] == old(db)[t]
    {
      var tokens := GetUserTokens(user);
      var failed := Refused(tokens, accepts);
      assert forall t :: t in tokens ==> (t in failed <==> !accepts(t));
      if failed != {} {
        RemoveTokens(user, failed);
        assert tokens == {EMPTY} ==> EMPTY in failed;
      } else {
        assert tokens == {EMPTY} ==> EMPTY in tokens;
      }
    }

    method RemoveTokens(user: string, failed: set<string>)
      requires failed <= TokensOf(db, user) && forall u :: u != user ==> Exact(View(), u)
      modifies this
      ensures Valid() && View() == Finished(Step(old(View()), RemoveFailed(0, user, failed)), 0)
      ensures db == old(db) - failed && cache == old(cache) - {user}
      ensures forall u :: TokensOf(db, u) == TokensOf(old(db), u) - failed
      ensures forall u :: u != user ==> TokensOf(db, u) == TokensOf(old(db), u)
    {
      RemovedAndDropped(View(), user, failed);
      forall u
        ensures TokensOf(db - failed, u) == TokensOf(db, u) - failed
        ensures u != user ==> TokensOf(db, u) - failed == TokensOf(db, u)
      {
        RemovedTokens(db, failed, u);
      }
      db := db - failed;
      InvalidateUserTokensCache(user);
      forall u ensures Exact(View(), u) {
        assert u != user ==> Exact(old(View()), u);
      }
      ExactIsCoherent(View());
    }
  }

  lemma RegisteredAndDropped(s: State, user: string, token: string, platform: string)
    requires Idle(s)
    ensures var former := if token in s.db && s.db[token].user != user then {s.db[token].user} else {};
      Finished(Step(s, Register(0, user, token, platform)), 0)
        == State(Registered(s.db, user, token, platform), s.cache - former - {user}, map[], map[])
  {
    var t := Step(s, Register(0, user, token, platform));
    assert t.dels == map[0 := EntriesToDrop(s.db, user, token)];
    if token in s.db && s.db[token].user != user {
      assert Step(t, Del(0)).dels == map[0 := [user]];
    } else {
      assert Step(t, Del(0)).dels == map[];
      assert s.cache - {} - {user} == s.cache - {user};
    }
  }

  lemma DeletedAndDropped(s: State, user: string, token: string)
    requires Idle(s) && Owns(s.db, user, token)
    ensures Finished(Step(s, Delete(0, user, token)), 0) == State(s.db - {token}, s.cache - {user}, map[], map[])
  {
    assert Step(s, Delete(0, user, token)).dels == map[0 := [user]];
  }

  lemma RemovedAndDropped(s: State, user: string, failed: set<string>)
    requires Idle(s)
    ensures Finished(Step(s, RemoveFailed(0, user, failed)), 0) == State(s.db - failed, s.cache - {user}, map[], map[])
  {
    assert Step(s, RemoveFailed(0, user, failed)).dels == map[0 := [user]];
  }
}

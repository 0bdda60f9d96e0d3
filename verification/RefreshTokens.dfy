// Refresh tokens in Redis with their per-user reverse index, both under a time to live, and the
// accounts they belong to: login, rotation, logout, revocation and deletion after the grace period.
module RefreshTokens {
  import opened Wrappers

  // Times are in milliseconds.
  const TTL := 7 * 24 * 60 * 60 * 1000
  const GRACE := 7 * 24 * 60 * 60 * 1000

  // A signed token is determined by its payload: subject, e-mail and name, and the second of issue.
  datatype Token = Token(user: string, profile: string, second: int)

  datatype Stored = Stored(user: string, expiry: int)

  // Without an expiry the set has no time to live.
  datatype Index = Index(members: set<Token>, expiry: Option<int>)

  datatype Account = Account(profile: string, deletedAt: Option<int>)

  datatype State = State(
    now: int, accounts: map<string, Account>, tokens: map<Token, Stored>, index: map<string, Index>)

  // The last three are calls that fail half way: DEL and SREM, and SETEX, SADD and EXPIRE, are sent together,
  // and the flags tell which of them took effect. Any other failure leaves a call without effect, or with
  // that of another command.
  datatype Command =
    | Wait(ms: nat)
    | Join(user: string, profile: string)
    | ChangeProfile(user: string, profile: string)
    | Login(user: string)
    | Refresh(token: Token)
    | Logout(token: Token)
    | RequestDeletion(user: string, admin: bool)
    | CancelDeletion(user: string)
    | ForceDelete(user: string)
    | Purge(failing: set<string>)
    | RevokeOnly(user: string)
    | DropPartly(token: Token, del: bool, srem: bool)
    | PutPartly(user: string, setex: bool, sadd: bool, expire: bool)

  datatype Refusal = InvalidRefreshToken | UserNotFound | AlreadyScheduled | NotScheduled

  const START := State(0, map[], map[], map[])

  // ---- The Redis keys ---------------------------------------------------------------------------

  predicate Live(s: State, t: Token) {
    t in s.tokens && s.now < s.tokens[t].expiry
  }

  predicate Open(s: State, user: string) {
    user in s.index && (s.index[user].expiry.None? || s.now < s.index[user].expiry.value)
  }

  // An expired index reads as the empty set.
  function Members(s: State, user: string): set<Token> {
    if Open(s, user) then s.index[user].members else {}
  }

  // SETEX, SADD and EXPIRE.
  function Put(s: State, t: Token, user: string, ttl: int): State {
    s.(tokens := s.tokens[t := Stored(user, s.now + ttl)],
       index := s.index[user := Index(Members(s, user) + {t}, Some(s.now + ttl))])
  }

  // The index with these members and the time to live it has; a set without members does not exist.
  function Remembered(s: State, user: string, members: set<Token>): map<string, Index> {
    if members == {} then s.index - {user}
    else s.index[user := Index(members, if Open(s, user) then s.index[user].expiry else None)]
  }

  // DEL and SREM.
  function Drop(s: State, t: Token, user: string): State {
    s.(tokens := s.tokens - {t}, index := Remembered(s, user, Members(s, user) - {t}))
  }

  function DroppedPartly(s: State, t: Token, user: string, del: bool, srem: bool): State {
    s.(tokens := if del then s.tokens - {t} else s.tokens,
       index := if srem then Remembered(s, user, Members(s, user) - {t}) else s.index)
  }

  function StoredPartly(s: State, t: Token, user: string, setex: bool, sadd: bool, expire: bool): State {
    var members := Members(s, user) + if sadd then {t} else {};
    s.(tokens := if setex then s.tokens[t := Stored(user, s.now + TTL)] else s.tokens,
       index := if expire && members != {} then s.index[user := Index(members, Some(s.now + TTL))]
                else Remembered(s, user, members))
  }

  // DEL of the token keys of a snapshot of the index, and of the index.
  function DropSnapshot(s: State, user: string, snapshot: set<Token>): State {
    s.(tokens := s.tokens - snapshot, index := s.index - {user})
  }

  function DropAll(s: State, user: string): State {
    DropSnapshot(s, user, Members(s, user))
  }

  function Mint(s: State, user: string): Token
    requires user in s.accounts
  {
    Token(user, s.accounts[user].profile, s.now / 1000)
  }

  // ---- The service ------------------------------------------------------------------------------

  function Issue(s: State, user: string): State {
    if user !in s.accounts then s else Put(s, Mint(s, user), user, TTL)
  }

  // Accounts past their grace period whose tokens Redis could delete.
  function Purged(s: State, failing: set<string>): set<string> {
    set u | u in s.accounts && u !in failing && s.accounts[u].deletedAt.Some? && s.accounts[u].deletedAt.value <= s.now
  }

  function TokensIn(s: State, users: set<string>): set<Token> {
    set u, t | u in users && t in Members(s, u) :: t
  }

  function Revoked(s: State, users: set<string>): State {
    s.(tokens := s.tokens - TokensIn(s, users), index := s.index - users)
  }

  // A refused request changes nothing.
  function Step(s: State, c: Command): State {
    match c
    case Wait(ms) => s.(now := s.now + ms)
    case Join(u, p) => if u in s.accounts then s else s.(accounts := s.accounts[u := Account(p, None)])
    case ChangeProfile(u, p) =>
      if u !in s.accounts then s else s.(accounts := s.accounts[u := s.accounts[u].(profile := p)])
    case Login(u) => Issue(s, u)
    case Refresh(t) => if !Live(s, t) then s else Issue(Drop(s, t, s.tokens[t].user), s.tokens[t].user)
    case Logout(t) => if Live(s, t) then Drop(s, t, s.tokens[t].user) else s.(tokens := s.tokens - {t})
    case RequestDeletion(u, admin) =>
      if u !in s.accounts || s.accounts[u].deletedAt.Some? then s
      else
        var marked := s.(accounts := s.accounts[u := s.accounts[u].(deletedAt := Some(s.now + GRACE))]);
        if admin then DropAll(marked, u) else marked
    case CancelDeletion(u) =>
      if u !in s.accounts || s.accounts[u].deletedAt.None? then s
      else s.(accounts := s.accounts[u := s.accounts[u].(deletedAt := None)])
    case ForceDelete(u) =>
      if u !in s.accounts || s.accounts[u].deletedAt.None? then s
      else DropAll(s, u).(accounts := s.accounts - {u})
    case Purge(failing) =>
      var gone := Purged(s, failing);
      Revoked(s, gone).(accounts := s.accounts - gone)
    case RevokeOnly(u) => DropAll(s, u)
    case DropPartly(t, del, srem) =>
      if !Live(s, t) then s else DroppedPartly(s, t, s.tokens[t].user, del, srem)
    case PutPartly(u, setex, sadd, expire) =>
      if u !in s.accounts then s else StoredPartly(s, Mint(s, u), u, setex, sadd, expire)
  }

  function AfterFrom(s: State, commands: seq<Command>): State {
    if commands == [] then s
    else Step(AfterFrom(s, commands[..|commands| - 1]), commands[|commands| - 1])
  }

  function After(commands: seq<Command>): State {
    AfterFrom(START, commands)
  }

  // ---- The index -------------------------------------------------------------------------------------

  // The index does not expire before the time.
  predicate Outlives(s: State, user: string, time: int) {
    Open(s, user) && (s.index[user].expiry.None? || time <= s.index[user].expiry.value)
  }

  ghost predicate IndexedToken(s: State, t: Token) {
    Live(s, t) ==>
      && s.tokens[t].user == t.user
      && t in Members(s, t.user)
      && Outlives(s, t.user, s.tokens[t].expiry)
  }

  // Every live token is in its user's index, which lives at least as long.
  ghost predicate Indexed(s: State) {
    forall t :: IndexedToken(s, t)
  }

  // With one time to live for all, nothing expires later than what is stored now.
  ghost predicate Bounded(s: State) {
    && (forall t :: t in s.tokens ==> s.tokens[t].expiry <= s.now + TTL)
    && (forall u, t :: u in s.index && t in s.index[u].members ==> t.user == u)
  }

  ghost predicate Inv(s: State) {
    Indexed(s) && Bounded(s)
  }

  // Storing a token keeps the index exact if and only if no other live token of the user outlives it.
  lemma PutKeepsIndexedIff(s: State, t: Token, ttl: int)
    requires Indexed(s) && ttl > 0
    ensures Indexed(Put(s, t, t.user, ttl)) <==>
      forall x :: Live(s, x) && x.user == t.user && x != t ==> s.tokens[x].expiry <= s.now + ttl
  {
    var r := Put(s, t, t.user, ttl);
    assert IndexedToken(r, t);
    forall x | x != t
      ensures IndexedToken(r, x) <==> Live(s, x) && x.user == t.user ==> s.tokens[x].expiry <= s.now + ttl
    {
      assert IndexedToken(s, x);
    }
  }

  // Deleting by a snapshot of the index leaves it exact, and the user without a live token, if and
  // only if every live token was in the snapshot: a login between SMEMBERS and DEL escapes.
  lemma SnapshotRevokesIff(s: State, user: string, snapshot: set<Token>)
    requires Indexed(s) && forall t :: t in snapshot ==> t.user == user
    ensures var r := DropSnapshot(s, user, snapshot);
      && (Indexed(r) <==> forall t :: Live(s, t) && t.user == user ==> t in snapshot)
      && (Indexed(r) <==> forall t :: Live(r, t) ==> t.user != user)
  {
    var r := DropSnapshot(s, user, snapshot);
    forall t
      ensures IndexedToken(r, t) <==> (Live(s, t) && t.user == user ==> t in snapshot)
      ensures Live(r, t) <==> Live(s, t) && t !in snapshot
    {
      assert IndexedToken(s, t);
    }
  }

  lemma PutKeeps(s: State, t: Token)
    requires Inv(s)
    ensures Inv(Put(s, t, t.user, TTL))
  {
    PutKeepsIndexedIff(s, t, TTL);
  }

  lemma DropKeeps(s: State, t: Token, user: string)
    requires Inv(s) && t.user == user
    ensures Inv(Drop(s, t, user))
  {
    var r := Drop(s, t, user);
    forall x ensures IndexedToken(r, x) {
      assert IndexedToken(s, x);
    }
  }

  lemma DropAllKeeps(s: State, user: string)
    requires Inv(s)
    ensures Inv(DropAll(s, user)) && forall t :: Live(DropAll(s, user), t) ==> t.user != user
  {
    forall t | Live(s, t) && t.user == user ensures t in Members(s, user) {
      assert IndexedToken(s, t);
    }
    SnapshotRevokesIff(s, user, Members(s, user));
  }

  lemma OthersSurviveDropAll(s: State, user: string)
    requires Inv(s)
    ensures forall x: Token :: x.user != user ==> (Live(DropAll(s, user), x) <==> Live(s, x))
  {
    forall x: Token | Live(s, x) && x.user != user ensures x !in Members(s, user) {
    }
  }

  lemma IssueKeeps(s: State, user: string)
    requires Inv(s)
    ensures Inv(Issue(s, user))
  {
    if user in s.accounts {
      PutKeeps(s, Mint(s, user));
    }
  }

  lemma PurgeKeeps(s: State, failing: set<string>)
    requires Inv(s)
    ensures Inv(Step(s, Purge(failing)))
    ensures forall t :: Live(Step(s, Purge(failing)), t) <==> Live(s, t) && t.user !in Purged(s, failing)
  {
    var r, gone := Step(s, Purge(failing)), Purged(s, failing);
    forall t
      ensures IndexedToken(r, t)
      ensures Live(r, t) <==> Live(s, t) && t.user !in gone
    {
      assert IndexedToken(s, t);
      assert t in s.tokens && t !in r.tokens ==> t in TokensIn(s, gone);
      assert Live(s, t) && t.user in gone ==> t in TokensIn(s, gone);
    }
  }

  lemma AccountsAside(s: State, accounts: map<string, Account>)
    requires Inv(s)
    ensures Inv(s.(accounts := accounts))
  {
    var r := s.(accounts := accounts);
    forall t ensures IndexedToken(r, t) {
      assert IndexedToken(s, t);
    }
  }

  // A failed call that leaves a live token without its index: DEL fails where SREM does not, or SETEX takes
  // effect and the token is not added to the index, or the index may expire before it.
  predicate Orphans(s: State, c: Command) {
    match c
    case DropPartly(t, del, srem) => Live(s, t) && !del && srem
    case PutPartly(u, setex, sadd, expire) =>
      u in s.accounts && setex
      && !((sadd || Mint(s, u) in Members(s, u)) && (expire || !Open(s, u) || Outlives(s, u, s.now + TTL)))
    case _ => false
  }

  lemma DropPartlyKeepsIff(s: State, t: Token, del: bool, srem: bool)
    requires Inv(s)
    ensures Inv(Step(s, DropPartly(t, del, srem))) <==> !Orphans(s, DropPartly(t, del, srem))
  {
    var r := Step(s, DropPartly(t, del, srem));
    assert IndexedToken(s, t);
    if Orphans(s, DropPartly(t, del, srem)) {
      assert !IndexedToken(r, t);
    } else {
      forall x ensures IndexedToken(r, x) {
        assert IndexedToken(s, x);
      }
    }
  }

  lemma PutPartlyKeepsIff(s: State, u: string, setex: bool, sadd: bool, expire: bool)
    requires Inv(s)
    ensures Inv(Step(s, PutPartly(u, setex, sadd, expire))) <==> !Orphans(s, PutPartly(u, setex, sadd, expire))
  {
    var r := Step(s, PutPartly(u, setex, sadd, expire));
    if u in s.accounts {
      var t := Mint(s, u);
      forall x | x != t ensures IndexedToken(r, x) {
        assert IndexedToken(s, x);
      }
      assert IndexedToken(s, t);
      assert IndexedToken(r, t) <==> !Orphans(s, PutPartly(u, setex, sadd, expire));
    }
  }

  // A command keeps every live token indexed, if and only if it is not such a failure.
  lemma StepKeepsIff(s: State, c: Command)
    requires Inv(s)
    ensures Inv(Step(s, c)) <==> !Orphans(s, c)
  {
    match c
    case DropPartly(t, del, srem) => DropPartlyKeepsIff(s, t, del, srem);
    case PutPartly(u, setex, sadd, expire) => PutPartlyKeepsIff(s, u, setex, sadd, expire);
    case _ => StepKeeps(s, c);
  }

  lemma StepKeeps(s: State, c: Command)
    requires Inv(s) && !c.DropPartly? && !c.PutPartly?
    ensures Inv(Step(s, c))
  {
    match c
    case RevokeOnly(u) => DropAllKeeps(s, u);
    case Wait(ms) =>
      forall t ensures IndexedToken(Step(s, c), t) {
        assert IndexedToken(s, t);
      }
    case Join(u, p) => AccountsAside(s, s.accounts[u := Account(p, None)]);
    case ChangeProfile(u, p) =>
      if u in s.accounts {
        AccountsAside(s, s.accounts[u := s.accounts[u].(profile := p)]);
      }
    case Login(u) => IssueKeeps(s, u);
    case Refresh(t) =>
      assert IndexedToken(s, t);
      if Live(s, t) {
        DropKeeps(s, t, t.user);
        IssueKeeps(Drop(s, t, t.user), t.user);
      }
    case Logout(t) =>
      assert IndexedToken(s, t);
      if Live(s, t) {
        DropKeeps(s, t, t.user);
      } else {
        forall x ensures IndexedToken(Step(s, c), x) {
          assert IndexedToken(s, x);
        }
      }
    case RequestDeletion(u, admin) =>
      if u in s.accounts && s.accounts[u].deletedAt.None? {
        var marked := s.accounts[u := s.accounts[u].(deletedAt := Some(s.now + GRACE))];
        AccountsAside(s, marked);
        DropAllKeeps(s.(accounts := marked), u);
      }
    case CancelDeletion(u) =>
      if u in s.accounts {
        AccountsAside(s, s.accounts[u := s.accounts[u].(deletedAt := None)]);
      }
    case ForceDelete(u) =>
      DropAllKeeps(s, u);
      AccountsAside(DropAll(s, u), s.accounts - {u});
    case Purge(failing) => PurgeKeeps(s, failing);
  }

  ghost predicate NoOrphans(commands: seq<Command>) {
    commands == [] ||
    (NoOrphans(commands[..|commands| - 1]) && !Orphans(After(commands[..|commands| - 1]), commands[|commands| - 1]))
  }

  ghost predicate IndexedThroughout(commands: seq<Command>) {
    Inv(After(commands)) && (commands != [] ==> IndexedThroughout(commands[..|commands| - 1]))
  }

  // Throughout a run each live token is in its user's index and the index outlives it, exactly when no call
  // fails in such a way.
  lemma {:induction false} IndexHoldsEveryLiveTokenIff(commands: seq<Command>)
    ensures IndexedThroughout(commands) <==> NoOrphans(commands)
  {
    if commands != [] {
      var before := commands[..|commands| - 1];
      IndexHoldsEveryLiveTokenIff(before);
      if IndexedThroughout(before) {
        StepKeepsIff(After(before), commands[|commands| - 1]);
      }
    }
  }

  // ---- Revocation ----------------------------------------------------------------------------------------

  predicate Accepts(s: State, t: Token) {
    Live(s, t) && s.tokens[t].user in s.accounts
  }

  // After such a run, deleting all tokens of a user leaves none of them live.
  lemma DeleteAllLeavesNone(commands: seq<Command>, t: Token)
    requires NoOrphans(commands)
    ensures !Live(DropAll(After(commands), t.user), t)
  {
    IndexHoldsEveryLiveTokenIff(commands);
    DropAllKeeps(After(commands), t.user);
  }

  lemma {:induction false} TimePasses(s: State, commands: seq<Command>)
    ensures s.now <= AfterFrom(s, commands).now
  {
    if commands != [] {
      TimePasses(s, commands[..|commands| - 1]);
    }
  }

  lemma StepDoesNotRevive(s: State, t: Token, c: Command)
    requires !Live(s, t) && t.second < s.now / 1000
    ensures !Live(Step(s, c), t)
  {
  }

  // A dead token from an earlier second stays dead, whatever follows.
  lemma {:induction false} DeadStaysDead(s: State, t: Token, commands: seq<Command>)
    requires !Live(s, t) && t.second < s.now / 1000
    ensures !Live(AfterFrom(s, commands), t)
  {
    if commands != [] {
      var before := commands[..|commands| - 1];
      DeadStaysDead(s, t, before);
      TimePasses(s, before);
      StepDoesNotRevive(AfterFrom(s, before), t, commands[|commands| - 1]);
    }
  }

  // So once a user's tokens are revoked, every later refresh with an earlier token fails.
  lemma RevokedTokensNeverRefresh(earlier: seq<Command>, t: Token, later: seq<Command>)
    requires NoOrphans(earlier)
    requires t.second < After(earlier).now / 1000
    ensures !Accepts(AfterFrom(DropAll(After(earlier), t.user), later), t)
  {
    DeleteAllLeavesNone(earlier, t);
    DeadStaysDead(DropAll(After(earlier), t.user), t, later);
  }

  lemma AfterSnoc(s: State, commands: seq<Command>, c: Command)
    ensures AfterFrom(s, commands + [c]) == Step(AfterFrom(s, commands), c)
  {
    assert (commands + [c])[..|commands|] == commands;
  }

  // The account comes back to the profile of the token, at the second of the token, and logs in.
  function Reissue(t: Token, ms: nat): seq<Command> {
    [Wait(ms)] + [Join(t.user, t.profile)] + [ChangeProfile(t.user, t.profile)] + [Login(t.user)]
  }

  lemma AccountPrepared(s: State, t: Token, ms: nat)
    requires (s.now + ms) / 1000 == t.second
    ensures var r := Step(Step(Step(s, Wait(ms)), Join(t.user, t.profile)), ChangeProfile(t.user, t.profile));
      t.user in r.accounts && Mint(r, t.user) == t
  {
  }

  lemma LoginMints(s: State, user: string)
    requires user in s.accounts
    ensures Accepts(Step(s, Login(user)), Mint(s, user))
  {
  }

  lemma ReissueRevives(s: State, t: Token)
    requires s.now / 1000 <= t.second
    ensures exists later :: Accepts(AfterFrom(s, later), t)
  {
    var ms: nat := if s.now < t.second * 1000 then t.second * 1000 - s.now else 0;
    var c1 := [Wait(ms)];
    assert [] + c1 == c1;
    AfterSnoc(s, [], Wait(ms));
    AfterSnoc(s, c1, Join(t.user, t.profile));
    AfterSnoc(s, c1 + [Join(t.user, t.profile)], ChangeProfile(t.user, t.profile));
    AfterSnoc(s, c1 + [Join(t.user, t.profile)] + [ChangeProfile(t.user, t.profile)], Login(t.user));
    AccountPrepared(s, t, ms);
    LoginMints(AfterFrom(s, c1 + [Join(t.user, t.profile)] + [ChangeProfile(t.user, t.profile)]), t.user);
    assert Accepts(AfterFrom(s, Reissue(t, ms)), t);
  }

  // A logout whose SREM takes effect but whose DEL fails leaves a token that no revocation finds.
  lemma OrphanSurvivesRevocation(user: string, profile: string)
    ensures var t := Token(user, profile, 0);
      var commands := [Join(user, profile)] + [Login(user)] + [DropPartly(t, false, true)];
      Accepts(DropAll(After(commands), user), t)
  {
    var t := Token(user, profile, 0);
    var c1 := [Join(user, profile)];
    AfterSnoc(START, [], Join(user, profile));
    assert [] + c1 == c1;
    assert After(c1) == State(0, map[user := Account(profile, None)], map[], map[]);
    AfterSnoc(START, c1, Login(user));
    LoginMints(After(c1), user);
    assert Mint(After(c1), user) == t && {} + {t} == {t};
    assert After(c1 + [Login(user)]).index == map[user := Index({t}, Some(TTL))];
    AfterSnoc(START, c1 + [Login(user)], DropPartly(t, false, true));
    assert {t} - {t} == {};
  }

  // A revoked token is refused for ever, exactly when its second is over.
  lemma RevokedForeverIff(earlier: seq<Command>, t: Token)
    requires NoOrphans(earlier)
    ensures (forall later :: !Accepts(AfterFrom(DropAll(After(earlier), t.user), later), t))
       <==> t.second < After(earlier).now / 1000
  {
    var s := DropAll(After(earlier), t.user);
    if t.second < s.now / 1000 {
      forall later ensures !Accepts(AfterFrom(s, later), t) {
        RevokedTokensNeverRefresh(earlier, t, later);
      }
    } else {
      ReissueRevives(s, t);
    }
  }

  // Rotation retires the presented token unless it was issued in this very second from the same
  // profile: then the new token is the same string.
  lemma RotationRetiresIff(s: State, t: Token)
    requires Inv(s) && Accepts(s, t)
    ensures var r := Step(s, Refresh(t));
      var user := s.tokens[t].user;
      && Accepts(r, Mint(s, user))
      && (!Live(r, t) <==> !(t.second == s.now / 1000 && t.profile == s.accounts[user].profile))
  {
    assert IndexedToken(s, t);
  }

  // A login adds the new token, a refresh trades the presented one for it, and a logout takes the presented
  // one: every other token, of the same user or of another one, is as live as before.
  lemma OtherTokensUntouched(s: State, t: Token, other: Token)
    requires Inv(s)
    ensures t.user !in s.accounts || other != Mint(s, t.user) ==>
      (Live(Step(s, Login(t.user)), other) <==> Live(s, other))
    ensures other != t && (t.user !in s.accounts || other != Mint(s, t.user)) ==>
      (Live(Step(s, Refresh(t)), other) <==> Live(s, other))
    ensures other != t ==> (Live(Step(s, Logout(t)), other) <==> Live(s, other))
  {
    assert IndexedToken(s, t);
  }

  // The commands that open, change or remove the user's account; signing up again is not one of them.
  predicate TouchesAccount(s: State, c: Command, user: string) {
    match c
    case Join(u, _) => u == user && user !in s.accounts
    case ChangeProfile(u, _) => u == user
    case RequestDeletion(u, _) => u == user
    case CancelDeletion(u) => u == user
    case ForceDelete(u) => u == user
    case Purge(failing) =>
      user !in failing && user in s.accounts && s.accounts[user].deletedAt.Some? && s.accounts[user].deletedAt.value <= s.now
    case _ => false
  }

  lemma AccountsElsewhereStay(s: State, c: Command, user: string)
    ensures !TouchesAccount(s, c, user) ==>
      && (user in Step(s, c).accounts <==> user in s.accounts)
      && (user in s.accounts ==> Step(s, c).accounts[user] == s.accounts[user])
    ensures c.ChangeProfile? && c.user == user && user in s.accounts ==>
      Step(s, c) == s.(accounts := s.accounts[user := Account(c.profile, s.accounts[user].deletedAt)])
    ensures c.Purge? && TouchesAccount(s, c, user) ==> user !in Step(s, c).accounts
  {
  }

  // A request schedules the deletion seven days ahead, once; only an administrator's ends the sessions.
  lemma RequestSchedules(s: State, user: string, admin: bool, t: Token)
    requires Inv(s) && user in s.accounts && s.accounts[user].deletedAt.None?
    ensures var r := Step(s, RequestDeletion(user, admin));
      && r.accounts == s.accounts[user := Account(s.accounts[user].profile, Some(s.now + 604_800_000))]
      && (Live(r, t) <==> Live(s, t) && !(admin && t.user == user))
      && Step(r, CancelDeletion(user)).accounts == s.accounts
      && forall again :: Step(r, RequestDeletion(user, again)) == r
  {
    var marked := s.(accounts := s.accounts[user := s.accounts[user].(deletedAt := Some(s.now + GRACE))]);
    AccountsAside(s, marked.accounts);
    DropAllKeeps(marked, user);
    OthersSurviveDropAll(marked, user);
  }

  lemma RevokeOneMore(s: State, users: set<string>, u: string)
    requires u !in users
    ensures DropAll(Revoked(s, users), u) == Revoked(s, users + {u})
  {
    var r := Revoked(s, users);
    assert Members(r, u) == Members(s, u);
    forall t ensures t in TokensIn(s, users + {u}) <==> t in TokensIn(s, users) || t in Members(s, u) {
    }
    assert r.tokens - Members(s, u) == s.tokens - TokensIn(s, users + {u});
    assert r.index - {u} == s.index - (users + {u});
  }

  // ---- Deleting accounts -------------------------------------------------------------------------------------

  ghost predicate DatesWithinGrace(s: State) {
    forall u :: u in s.accounts && s.accounts[u].deletedAt.Some? ==> s.accounts[u].deletedAt.value <= s.now + GRACE
  }

  lemma {:induction false} RunsDateWithinGrace(commands: seq<Command>)
    ensures DatesWithinGrace(After(commands))
  {
    if commands != [] {
      RunsDateWithinGrace(commands[..|commands| - 1]);
    }
  }

  // Not scheduled for deletion before day d.
  predicate KeptUntil(s: State, user: string, d: int) {
    user in s.accounts && (s.accounts[user].deletedAt.Some? ==> d <= s.accounts[user].deletedAt.value)
  }

  lemma StepKeepsAccount(s: State, c: Command, user: string, d: int)
    requires KeptUntil(s, user, d) && s.now < d <= s.now + GRACE && c != ForceDelete(user)
    ensures KeptUntil(Step(s, c), user, d)
  {
  }

  lemma {:induction false} AccountSurvivesUntil(s: State, later: seq<Command>, user: string, d: int)
    requires KeptUntil(s, user, d) && d <= s.now + GRACE
    requires AfterFrom(s, later).now < d
    requires ForceDelete(user) !in later
    ensures KeptUntil(AfterFrom(s, later), user, d)
  {
    if later != [] {
      var before, c := later[..|later| - 1], later[|later| - 1];
      assert c in later && forall b :: b in before ==> b in later;
      AfterSnoc(AfterFrom(s, before), [], c);
      TimePasses(AfterFrom(s, before), [c]);
      assert [c][..0] == [];
      AccountSurvivesUntil(s, before, user, d);
      TimePasses(s, before);
      StepKeepsAccount(AfterFrom(s, before), c, user, d);
    }
  }

  // An account scheduled for deletion is still there throughout its grace period, however often that is
  // cancelled and requested again, unless an administrator forces the deletion.
  lemma AccountSurvivesGrace(earlier: seq<Command>, later: seq<Command>, user: string)
    requires user in After(earlier).accounts && After(earlier).accounts[user].deletedAt.Some?
    requires AfterFrom(After(earlier), later).now < After(earlier).accounts[user].deletedAt.value
    requires ForceDelete(user) !in later
    ensures user in AfterFrom(After(earlier), later).accounts
  {
    RunsDateWithinGrace(earlier);
    AccountSurvivesUntil(After(earlier), later, user, After(earlier).accounts[user].deletedAt.value);
  }

  // A purge that Redis answers finds the account past day d.
  predicate Purges(s: State, c: Command, user: string, d: int) {
    c.Purge? && user !in c.failing && d <= s.now
  }

  ghost predicate NeverPurged(s: State, later: seq<Command>, user: string, d: int) {
    later == [] ||
    (var before := later[..|later| - 1];
     NeverPurged(s, before, user, d) && !Purges(AfterFrom(s, before), later[|later| - 1], user, d))
  }

  ghost predicate LeftAlone(later: seq<Command>, user: string) {
    CancelDeletion(user) !in later && ForceDelete(user) !in later && NeverJoins(later, user)
  }

  ghost predicate NeverJoins(later: seq<Command>, user: string) {
    forall c :: c in later && c.Join? ==> c.user != user
  }

  predicate ScheduledFor(s: State, user: string, d: int) {
    user in s.accounts && s.accounts[user].deletedAt == Some(d)
  }

  // A scheduled account that nobody cancels or forces is gone after a run, exactly when a purge that Redis
  // answered came on or after its day.
  lemma {:induction false} ScheduledAccountGoesIff(s: State, later: seq<Command>, user: string, d: int)
    requires ScheduledFor(s, user, d) && LeftAlone(later, user)
    ensures if NeverPurged(s, later, user, d) then ScheduledFor(AfterFrom(s, later), user, d)
            else user !in AfterFrom(s, later).accounts
  {
    if later != [] {
      var before, c := later[..|later| - 1], later[|later| - 1];
      assert c in later && forall b :: b in before ==> b in later;
      ScheduledAccountGoesIff(s, before, user, d);
      ScheduledStep(AfterFrom(s, before), c, user, d);
    }
  }

  lemma ScheduledStep(s: State, c: Command, user: string, d: int)
    requires c != CancelDeletion(user) && c != ForceDelete(user) && (c.Join? ==> c.user != user)
    ensures user !in s.accounts ==> user !in Step(s, c).accounts
    ensures ScheduledFor(s, user, d) ==>
      if Purges(s, c, user, d) then user !in Step(s, c).accounts else ScheduledFor(Step(s, c), user, d)
  {
  }

  // Every token is stored under its own user.
  ghost predicate Owned(s: State) {
    forall t :: t in s.tokens ==> s.tokens[t].user == t.user
  }

  ghost predicate ShutOut(s: State, user: string) {
    user !in s.accounts && Owned(s) && forall t: Token :: t.user == user ==> !Live(s, t)
  }

  lemma ShutOutStep(s: State, c: Command, user: string)
    requires ShutOut(s, user) && (c.Join? ==> c.user != user)
    ensures ShutOut(Step(s, c), user)
  {
    OwnedStep(s, c);
    forall t: Token | t.user == user ensures !Live(Step(s, c), t) {
      assert !Live(s, t);
    }
  }

  lemma OwnedStep(s: State, c: Command)
    requires Owned(s)
    ensures Owned(Step(s, c))
  {
  }

  lemma {:induction false} AlwaysOwned(commands: seq<Command>)
    ensures Owned(After(commands))
  {
    if commands != [] {
      AlwaysOwned(commands[..|commands| - 1]);
      OwnedStep(After(commands[..|commands| - 1]), commands[|commands| - 1]);
    }
  }

  // Whoever a purge removes has no live token and cannot log in on any later run, unless they join again.
  lemma {:induction false} PurgedStaysOut(earlier: seq<Command>, failing: set<string>, later: seq<Command>, user: string)
    requires NoOrphans(earlier) && NeverJoins(later, user)
    requires user in After(earlier).accounts && user !in Step(After(earlier), Purge(failing)).accounts
    ensures var r := AfterFrom(Step(After(earlier), Purge(failing)), later);
      ShutOut(r, user) && Step(r, Login(user)) == r
  {
    var s := After(earlier);
    if later == [] {
      IndexHoldsEveryLiveTokenIff(earlier);
      PurgeKeeps(s, failing);
      AlwaysOwned(earlier);
      OwnedStep(s, Purge(failing));
      assert user in Purged(s, failing);
    } else {
      var before, c := later[..|later| - 1], later[|later| - 1];
      assert c in later && forall b :: b in before ==> b in later;
      PurgedStaysOut(earlier, failing, before, user);
      ShutOutStep(AfterFrom(Step(s, Purge(failing)), before), c, user);
    }
  }

  // ---- The methods ------------------------------------------------------------------------------------------------

  class AuthService {
    var now: int
    var accounts: map<string, Account>
    var tokens: map<Token, Stored>
    var index: map<string, Index>

    ghost function View(): State
      reads this
    {
      State(now, accounts, tokens, index)
    }

    ghost predicate Valid()
      reads this
    {
      Inv(View())
    }

    constructor ()
      ensures Valid() && View() == START
    {
      now, accounts, tokens, index := 0, map[], map[], map[];
    }

    method Smembers(user: string) returns (members: set<Token>)
      ensures members == Members(View(), user)
    {
      if user in index && (index[user].expiry.None? || now < index[user].expiry.value) {
        return index[user].members;
      }
      return {};
    }

    method Get(t: Token) returns (user: Option<string>)
      ensures user == if Live(View(), t) then Some(tokens[t].user) else None
    {
      if t in tokens && now < tokens[t].expiry {
        return Some(tokens[t].user);
      }
      return None;
    }

    method SetRefreshToken(t: Token, user: string, ttl: int)
      modifies this`tokens, this`index
      ensures View() == Put(old(View()), t, user, ttl)
      ensures ttl > 0 ==> Live(View(), t) && Members(View(), user) == old(Members(View(), user)) + {t}
      ensures forall x: Token :: x != t ==> (Live(View(), x) <==> old(Live(View(), x)))
    {
      var members := Smembers(user);
      tokens := tokens[t := Stored(user, now + ttl)];
      index := index[user := Index(members + {t}, Some(now + ttl))];
    }

    method DeleteRefreshToken(t: Token, user: string)
      modifies this`tokens, this`index
      ensures View() == Drop(old(View()), t, user)
      ensures Members(View(), user) == old(Members(View(), user)) - {t}
      ensures forall x: Token :: Live(View(), x) <==> old(Live(View(), x)) && x != t
    {
      var members := Smembers(user);
      tokens := tokens - {t};
      var rest := members - {t};
      if rest == {} {
        index := index - {user};
      } else {
        index := index[user := Index(rest, index[user].expiry)];
      }
    }

    method DeleteAllRefreshTokensByUserId(user: string)
      modifies this`tokens, this`index
      ensures View() == DropAll(old(View()), user)
      ensures old(Valid()) ==> Valid() && forall x: Token :: Live(View(), x) <==> old(Live(View(), x)) && x.user != user
    {
      if Inv(View()) {
        DropAllKeeps(View(), user);
        OthersSurviveDropAll(View(), user);
      }
      var members := Smembers(user);
      if members != {} {
        tokens := tokens - members;
      }
      index := index - {user};
      assert tokens == old(tokens) - members;
    }

    // Signed from the user's profile and this second, and good for seven days.
    ghost predicate IsNew(t: Token, user: string)
      reads this
    {
      && t.user == user && user in accounts && t.profile == accounts[user].profile
      && 1000 * t.second <= now < 1000 * (t.second + 1)
      && t in tokens && tokens[t] == Stored(user, now + 604_800_000)
    }

    method HandleLoginSuccess(user: string) returns (r: Result<Token, Refusal>)
      requires Valid()
      modifies this
      ensures Valid() && View() == Step(old(View()), Login(user))
      ensures r == if user in accounts then Success(Mint(View(), user)) else Failure(UserNotFound)
      ensures r.Success? ==> Accepts(View(), r.value) && IsNew(r.value, user)
      ensures r.Failure? ==> View() == old(View())
      ensures accounts == old(accounts) && now == old(now)
      ensures forall x :: !(r.Success? && x == r.value) ==> (Live(View(), x) <==> old(Live(View(), x)))
    {
      StepKeeps(View(), Login(user));
      if user !in accounts {
        return Failure(UserNotFound);
      }
      var token := Token(user, accounts[user].profile, now / 1000);
      SetRefreshToken(token, user, TTL);
      return Success(token);
    }

    // A valid token of a removed account is used up all the same.
    method RefreshTokens(t: Token) returns (r: Result<Token, Refusal>)
      requires Valid()
      modifies this
      ensures Valid() && View() == Step(old(View()), Refresh(t))
      ensures r.Success? <==> Accepts(old(View()), t)
      ensures r.Success? ==> Accepts(View(), r.value) && IsNew(r.value, t.user)
      ensures forall x :: x != t && !(r.Success? && x == r.value) ==> (Live(View(), x) <==> old(Live(View(), x)))
      ensures accounts == old(accounts) && now == old(now)
      ensures r.Failure? ==> (r.error == InvalidRefreshToken <==> !Live(old(View()), t))
      ensures r.Failure? ==> !Live(View(), t)
    {
      StepKeeps(View(), Refresh(t));
      assert IndexedToken(View(), t);
      var user := Get(t);
      if user.None? {
        return Failure(InvalidRefreshToken);
      }
      DeleteRefreshToken(t, user.value);
      if user.value !in accounts {
        return Failure(UserNotFound);
      }
      var token := Token(user.value, accounts[user.value].profile, now / 1000);
      SetRefreshToken(token, user.value, TTL);
      return Success(token);
    }

    method Logout(t: Token)
      requires Valid()
      modifies this
      ensures Valid() && View() == Step(old(View()), Command.Logout(t)) && !Live(View(), t)
      ensures forall x :: x != t ==> (Live(View(), x) <==> old(Live(View(), x)))
      ensures accounts == old(accounts) && now == old(now)
    {
      StepKeeps(View(), Command.Logout(t));
      var user := Get(t);
      if user.Some? {
        DeleteRefreshToken(t, user.value);
      } else {
        tokens := tokens - {t};
      }
    }

    method ForceDeleteAccount(user: string) returns (r: Result<bool, Refusal>)
      requires Valid()
      modifies this
      ensures Valid() && View() == Step(old(View()), ForceDelete(user))
      ensures r.Success? <==> user in old(accounts) && old(accounts)[user].deletedAt.Some?
      ensures r.Success? ==> accounts == old(accounts) - {user}
      ensures r.Success? ==> forall t: Token :: Live(View(), t) <==> old(Live(View(), t)) && t.user != user
      ensures r.Failure? ==> View() == old(View()) && (r.error == UserNotFound <==> user !in accounts)
    {
      StepKeeps(View(), ForceDelete(user));
      DropAllKeeps(View(), user);
      if user !in accounts {
        return Failure(UserNotFound);
      }
      if accounts[user].deletedAt.None? {
        return Failure(NotScheduled);
      }
      DeleteAllRefreshTokensByUserId(user);
      accounts := accounts - {user};
      return Success(true);
    }

    // Account by account; where Redis fails, the account keeps its tokens.
    method RevokeEach(users: set<string>, failing: set<string>) returns (succeeded: set<string>)
      modifies this`tokens, this`index
      ensures succeeded == set u | u in users && u !in failing
      ensures View() == Revoked(old(View()), succeeded)
    {
      var rest := users;
      succeeded := {};
      assert TokensIn(View(), {}) == {};
      while rest != {}
        invariant rest <= users && View() == Revoked(old(View()), succeeded)
        invariant succeeded == set u | u in users && u !in rest && u !in failing
        decreases rest
      {
        var u :| u in rest;
        rest := rest - {u};
        if u !in failing {
          RevokeOneMore(old(View()), succeeded, u);
          DeleteAllRefreshTokensByUserId(u);
          succeeded := succeeded + {u};
        }
      }
    }

    // Tokens first, then all accounts that went through in one go.
    method PurgeExpiredAccounts(failing: set<string>) returns (purged: nat, failed: nat)
      requires Valid()
      modifies this
      ensures Valid() && View() == Step(old(View()), Purge(failing))
      ensures purged == |Purged(old(View()), failing)|
      ensures purged + failed == |Purged(old(View()), {})|
      ensures forall u :: u in accounts <==>
        u in old(accounts) && (u in failing || old(accounts)[u].deletedAt.None? || now < old(accounts)[u].deletedAt.value)
      ensures forall u :: u in accounts ==> accounts[u] == old(accounts)[u]
      ensures forall t: Token :: Live(View(), t) <==> old(Live(View(), t)) && (t.user in old(accounts) ==> t.user in accounts)
    {
      StepKeeps(View(), Purge(failing));
      PurgeKeeps(View(), failing);
      var users := set u | u in accounts && accounts[u].deletedAt.Some? && accounts[u].deletedAt.value <= now;
      assert users == Purged(View(), {});
      var succeeded := RevokeEach(users, failing);
      assert succeeded == Purged(old(View()), failing);
      accounts := accounts - succeeded;
      SubsetIsNoLarger(users, succeeded);
      return |succeeded|, |users| - |succeeded|;
    }
  }

  lemma {:induction false} SubsetIsNoLarger<T>(all: set<T>, part: set<T>)
    requires part <= all
    ensures |part| <= |all|
  {
    assert all == part + (all - part);
  }
}

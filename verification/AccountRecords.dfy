// Asset account records: dated snapshots of balance, principal and profit, and the withdrawals
// that derive a new snapshot from the latest one.
module AccountRecords {
  import opened Wrappers

  // Dates are day numbers; records are listed in the order they were created.
  datatype Record = Record(
    id: nat, date: int, balance: int, principal: int, profit: int, withdrawalId: Option<nat>)

  datatype WithdrawalType = PRINCIPAL | PROFIT

  datatype Withdrawal = Withdrawal(id: nat, date: int, amount: nat, kind: WithdrawalType)

  datatype Input =
    | Manual(balance: int, principal: int, profit: int)
    | Auto(currentBalance: int, additionalPrincipal: int)
    | Gold(worth: Option<int>, purchaseCost: Option<int>)

  datatype Error =
    | RecordDateConflict | LaterRecordExists | NotAGoldAccount | GoldPriceUnavailable | NoEarlierRecord
    | RecordNotFound | WithdrawalNotFound

  datatype Book = Book(isGold: bool, records: seq<Record>, withdrawals: seq<Withdrawal>, nextId: nat)

  datatype Event =
    | Create(date: int, input: Input)
    | Withdraw(date: int, amount: nat, kind: WithdrawalType)
    | RemoveRecord(id: nat)
    | RemoveWithdrawal(id: nat)

  function Max(a: int, b: int): int { if a < b then b else a }

  function Min(a: int, b: int): int { if a < b then a else b }

  // ---- Arithmetic of one entry -----------------------------------------------------------

  function ApplyWithdrawal(principal: int, profit: int, amount: int, kind: WithdrawalType): (int, int) {
    if kind == PRINCIPAL then
      var deduct := Min(principal, amount);
      (principal - deduct, Max(0, profit - (amount - deduct)))
    else
      var deduct := Min(profit, amount);
      (Max(0, principal - (amount - deduct)), profit - deduct)
  }

  function Entered(principalBefore: int, input: Input): Record {
    match input
    case Manual(balance, principal, profit) => Record(0, 0, balance, principal, profit, None)
    case Auto(balance, additional) =>
      var principal := principalBefore + additional;
      Record(0, 0, balance, principal, balance - principal, None)
    case Gold(worth, cost) =>
      var balance := if worth.Some? then worth.value else 0;
      var principal := if cost.Some? then cost.value else balance;
      Record(0, 0, balance, principal, balance - principal, None)
  }

  ghost predicate Balanced(r: Record) {
    r.balance == r.principal + r.profit
  }

  // The part the amount is first taken from is not negative, or the amount covers the other part.
  predicate KeepsIdentity(before: Record, amount: nat, kind: WithdrawalType) {
    if kind == PRINCIPAL then before.profit >= 0 || before.principal <= amount
    else before.principal >= 0 || before.profit <= amount
  }

  // Withdrawing keeps "balance = principal + profit" exactly when it does not take one part out of a
  // position whose other part is negative without exhausting it.
  lemma WithdrawalKeepsIdentityIff(before: Record, amount: nat, kind: WithdrawalType)
    requires Balanced(before)
    ensures var (principal, profit) := ApplyWithdrawal(before.principal, before.profit, amount, kind);
      Max(0, before.balance - amount) == principal + profit <==> KeepsIdentity(before, amount, kind)
  {
  }

  // ---- The records in order ----------------------------------------------------------------

  ghost predicate InDateOrder(records: seq<Record>) {
    forall i, j :: 0 <= i < j < |records| ==> records[i].date <= records[j].date
  }

  ghost predicate OneSnapshotPerDate(records: seq<Record>) {
    forall i, j :: 0 <= i < j < |records| && records[i].withdrawalId.None? && records[j].withdrawalId.None?
      ==> records[i].date != records[j].date
  }

  // The last created record dated at most limit.
  function LastUpTo(records: seq<Record>, limit: int): Option<Record> {
    if records == [] then None
    else if records[|records| - 1].date <= limit then Some(records[|records| - 1])
    else LastUpTo(records[..|records| - 1], limit)
  }

  lemma {:induction false} LastUpToIsRecord(records: seq<Record>, limit: int)
    ensures LastUpTo(records, limit).Some? ==>
      LastUpTo(records, limit).value in records && LastUpTo(records, limit).value.date <= limit
    ensures LastUpTo(records, limit).None? ==> forall r :: r in records ==> limit < r.date
  {
    if records != [] {
      LastUpToIsRecord(records[..|records| - 1], limit);
    }
  }

  lemma {:induction false} LastUpToAt(records: seq<Record>, limit: int, i: nat)
    requires i < |records| && records[i].date <= limit
    requires forall j :: i < j < |records| ==> limit < records[j].date
    ensures LastUpTo(records, limit) == Some(records[i])
  {
    if i < |records| - 1 {
      LastUpToAt(records[..|records| - 1], limit, i);
    }
  }

  function HasId(id: nat): Record -> bool {
    (r: Record) => r.id == id
  }

  function LeftBy(withdrawal: nat): Record -> bool {
    (r: Record) => r.withdrawalId == Some(withdrawal)
  }

  function Without(records: seq<Record>, drop: Record -> bool): (kept: seq<Record>)
    ensures forall r :: r in kept ==> r in records && !drop(r)
    ensures |kept| <= |records|
  {
    if records == [] then []
    else
      var n := |records| - 1;
      Without(records[..n], drop) + if drop(records[n]) then [] else [records[n]]
  }

  // r may be appended: nothing is dated later, and if r is a snapshot, no snapshot has its date.
  ghost predicate Fits(records: seq<Record>, r: Record) {
    forall q :: q in records ==> q.date <= r.date && (q.withdrawalId.None? && r.withdrawalId.None? ==> q.date != r.date)
  }

  lemma AppendKeepsOrder(records: seq<Record>, r: Record)
    requires InDateOrder(records) && OneSnapshotPerDate(records) && Fits(records, r)
    ensures InDateOrder(records + [r]) && OneSnapshotPerDate(records + [r])
  {
    assert forall i :: 0 <= i < |records| ==> records[i] in records;
  }

  lemma LastFits(records: seq<Record>)
    requires records != [] && InDateOrder(records) && OneSnapshotPerDate(records)
    ensures var init := records[..|records| - 1];
      InDateOrder(init) && OneSnapshotPerDate(init) && Fits(init, records[|records| - 1])
  {
  }

  lemma {:induction false} WithoutKeepsOrder(records: seq<Record>, drop: Record -> bool)
    requires InDateOrder(records) && OneSnapshotPerDate(records)
    ensures InDateOrder(Without(records, drop)) && OneSnapshotPerDate(Without(records, drop))
  {
    if records != [] {
      var n := |records| - 1;
      var init := records[..n];
      LastFits(records);
      WithoutKeepsOrder(init, drop);
      if !drop(records[n]) {
        AppendKeepsOrder(Without(init, drop), records[n]);
      }
    }
  }

  // ---- The steps -----------------------------------------------------------------------------

  predicate HasLater(records: seq<Record>, date: int) {
    exists r :: r in records && r.date > date
  }

  predicate HasSnapshotOn(records: seq<Record>, date: int) {
    exists r :: r in records && r.date == date && r.withdrawalId.None?
  }

  predicate HasRecord(records: seq<Record>, id: nat) {
    exists r :: r in records && r.id == id
  }

  predicate HasWithdrawal(withdrawals: seq<Withdrawal>, id: nat) {
    exists w :: w in withdrawals && w.id == id
  }

  function Refusal(b: Book, e: Event): Option<Error> {
    match e
    case Create(date, input) =>
      if HasSnapshotOn(b.records, date) then Some(RecordDateConflict)
      else if HasLater(b.records, date) then Some(LaterRecordExists)
      else if input.Gold? && !b.isGold then Some(NotAGoldAccount)
      else if input.Gold? && input.worth.None? then Some(GoldPriceUnavailable)
      else None
    case Withdraw(date, _, _) =>
      if LastUpTo(b.records, date).None? then Some(NoEarlierRecord)
      else if HasLater(b.records, date) then Some(LaterRecordExists)
      else None
    case RemoveRecord(id) => if HasRecord(b.records, id) then None else Some(RecordNotFound)
    case RemoveWithdrawal(id) =>
      if HasWithdrawal(b.withdrawals, id) then None else Some(WithdrawalNotFound)
  }

  function PrincipalBefore(records: seq<Record>, date: int): int {
    match LastUpTo(records, date - 1)
    case Some(r) => r.principal
    case None => 0
  }

  function NewRecord(b: Book, e: Event): Record
    requires Refusal(b, e).None? && (e.Create? || e.Withdraw?)
  {
    match e
    case Create(date, input) =>
      Entered(PrincipalBefore(b.records, date), input).(id := b.nextId, date := date)
    case Withdraw(date, amount, kind) =>
      var prev := LastUpTo(b.records, date).value;
      var (principal, profit) := ApplyWithdrawal(prev.principal, prev.profit, amount, kind);
      Record(b.nextId, date, Max(0, prev.balance - amount), principal, profit, Some(b.nextId))
  }

  function WithoutWithdrawal(ws: seq<Withdrawal>, id: nat): seq<Withdrawal> {
    if ws == [] then []
    else
      var n := |ws| - 1;
      WithoutWithdrawal(ws[..n], id) + if ws[n].id == id then [] else [ws[n]]
  }

  function Apply(b: Book, e: Event): Book {
    if Refusal(b, e).Some? then b
    else match e
    case Create(_, _) => b.(records := b.records + [NewRecord(b, e)], nextId := b.nextId + 1)
    case Withdraw(date, amount, kind) =>
      b.(records := b.records + [NewRecord(b, e)],
         withdrawals := b.withdrawals + [Withdrawal(b.nextId, date, amount, kind)],
         nextId := b.nextId + 1)
    case RemoveRecord(id) => b.(records := Without(b.records, HasId(id)))
    case RemoveWithdrawal(id) =>
      b.(records := Without(b.records, LeftBy(id)),
         withdrawals := WithoutWithdrawal(b.withdrawals, id))
  }

  function ApplyAll(b: Book, events: seq<Event>): Book {
    if events == [] then b
    else Apply(ApplyAll(b, events[..|events| - 1]), events[|events| - 1])
  }

  // ---- Whole runs ------------------------------------------------------------------------------

  // Creation order agrees with date order after any run, removals included.
  lemma {:induction false} RecordsStayInDateOrder(b: Book, events: seq<Event>)
    requires InDateOrder(b.records) && OneSnapshotPerDate(b.records)
    ensures InDateOrder(ApplyAll(b, events).records) && OneSnapshotPerDate(ApplyAll(b, events).records)
  {
    if events != [] {
      var n := |events| - 1;
      RecordsStayInDateOrder(b, events[..n]);
      StepKeepsDateOrder(ApplyAll(b, events[..n]), events[n]);
    }
  }

  lemma {:induction false} StepKeepsDateOrder(b: Book, e: Event)
    requires InDateOrder(b.records) && OneSnapshotPerDate(b.records)
    ensures InDateOrder(Apply(b, e).records) && OneSnapshotPerDate(Apply(b, e).records)
  {
    match e
    case RemoveRecord(id) => WithoutKeepsOrder(b.records, HasId(id));
    case RemoveWithdrawal(id) => WithoutKeepsOrder(b.records, LeftBy(id));
    case _ =>
      if Refusal(b, e).None? {
        AppendKeepsOrder(b.records, NewRecord(b, e));
      }
  }

  // What keeps the identity, as a caller can see it before the call.
  predicate Sound(b: Book, e: Event) {
    Refusal(b, e).Some? ||
    match e
    case Create(_, Manual(balance, principal, profit)) => balance == principal + profit
    case Withdraw(date, amount, kind) => KeepsIdentity(LastUpTo(b.records, date).value, amount, kind)
    case _ => true
  }

  ghost predicate AllBalanced(records: seq<Record>) {
    forall r :: r in records ==> Balanced(r)
  }

  lemma AddedBalancedIff(b: Book, e: Event)
    requires AllBalanced(b.records) && Refusal(b, e).None? && (e.Create? || e.Withdraw?)
    ensures AllBalanced(Apply(b, e).records) <==> Balanced(NewRecord(b, e))
  {
    var added := NewRecord(b, e);
    assert Apply(b, e).records == b.records + [added];
    assert added in b.records + [added];
  }

  // A step keeps the identity in every record if and only if it is sound.
  lemma {:induction false} StepKeepsIdentityIff(b: Book, e: Event)
    requires AllBalanced(b.records)
    ensures AllBalanced(Apply(b, e).records) <==> Sound(b, e)
  {
    if Refusal(b, e).None? && (e.Create? || e.Withdraw?) {
      AddedBalancedIff(b, e);
      if e.Withdraw? {
        LastUpToIsRecord(b.records, e.date);
        WithdrawalKeepsIdentityIff(LastUpTo(b.records, e.date).value, e.amount, e.kind);
      }
    }
  }

  ghost predicate IdentityThroughout(b: Book, events: seq<Event>) {
    AllBalanced(ApplyAll(b, events).records) && (events != [] ==> IdentityThroughout(b, events[..|events| - 1]))
  }

  ghost predicate AllSound(b: Book, events: seq<Event>) {
    events == [] ||
    (var n := |events| - 1; AllSound(b, events[..n]) && Sound(ApplyAll(b, events[..n]), events[n]))
  }

  // Throughout a run, removals included, every record satisfies the identity, exactly when every step
  // is sound.
  lemma {:induction false} RunKeepsIdentityIff(b: Book, events: seq<Event>)
    requires AllBalanced(b.records)
    ensures IdentityThroughout(b, events) <==> AllSound(b, events)
  {
    if events != [] {
      var n := |events| - 1;
      RunKeepsIdentityIff(b, events[..n]);
      if IdentityThroughout(b, events[..n]) {
        StepKeepsIdentityIff(ApplyAll(b, events[..n]), events[n]);
      }
    }
  }

  // ---- Automatic and gold entries ---------------------------------------------------------------

  // Amounts added and gold bought are not negative.
  predicate AutoOrGold(e: Event) {
    e.Create? ==>
      match e.input
      case Manual(_, _, _) => false
      case Auto(_, additional) => additional >= 0
      case Gold(worth, cost) => (worth.Some? ==> worth.value >= 0) && (cost.Some? ==> cost.value >= 0)
  }

  ghost predicate NoNegativePrincipal(records: seq<Record>) {
    forall r :: r in records ==> r.principal >= 0
  }

  lemma PrincipalStaysNonNegative(b: Book, e: Event)
    requires NoNegativePrincipal(b.records) && AutoOrGold(e)
    ensures NoNegativePrincipal(Apply(b, e).records)
  {
    if Refusal(b, e).None? {
      if e.Create? {
        LastUpToIsRecord(b.records, e.date - 1);
      } else if e.Withdraw? {
        LastUpToIsRecord(b.records, e.date);
      }
    }
  }

  // An accepted withdrawal of principal finds no loss, or takes all the principal there is.
  predicate NoLossHidden(b: Book, e: Event) {
    e.Withdraw? && e.kind == PRINCIPAL && Refusal(b, e).None? ==>
      (var prev := LastUpTo(b.records, e.date).value; prev.profit >= 0 || prev.principal <= e.amount)
  }

  ghost predicate NeverHidesLoss(b: Book, events: seq<Event>) {
    events == [] ||
    (var n := |events| - 1; NeverHidesLoss(b, events[..n]) && NoLossHidden(ApplyAll(b, events[..n]), events[n]))
  }

  lemma SoundIffNoLossHidden(b: Book, e: Event)
    requires NoNegativePrincipal(b.records) && AutoOrGold(e)
    ensures Sound(b, e) <==> NoLossHidden(b, e)
  {
    if e.Withdraw? {
      LastUpToIsRecord(b.records, e.date);
    }
  }

  // With AUTO and GOLD entries and any withdrawals, the identity holds throughout, exactly when no
  // withdrawal of principal hides a loss.
  lemma {:induction false} AutoAndGoldKeepIdentityIff(b: Book, events: seq<Event>)
    requires AllBalanced(b.records) && NoNegativePrincipal(b.records)
    requires forall e :: e in events ==> AutoOrGold(e)
    ensures NoNegativePrincipal(ApplyAll(b, events).records)
    ensures AllSound(b, events) <==> NeverHidesLoss(b, events)
    ensures IdentityThroughout(b, events) <==> NeverHidesLoss(b, events)
  {
    RunKeepsIdentityIff(b, events);
    if events != [] {
      var n := |events| - 1;
      assert events[n] in events && forall e :: e in events[..n] ==> e in events;
      AutoAndGoldKeepIdentityIff(b, events[..n]);
      PrincipalStaysNonNegative(ApplyAll(b, events[..n]), events[n]);
      SoundIffNoLossHidden(ApplyAll(b, events[..n]), events[n]);
    }
  }

  // A new account entered at a loss: taking a part of the principal out breaks the identity.
  lemma LossMakesIdentityFail(date: int, principal: int, loss: int, amount: nat)
    requires 0 < loss && amount < principal
    ensures var b := Apply(Book(false, [], [], 0), Create(date, Manual(principal - loss, principal, -loss)));
      AllBalanced(b.records) && !AllBalanced(Apply(b, Withdraw(date, amount, PRINCIPAL)).records)
  {
    var empty := Book(false, [], [], 0);
    var b := Apply(empty, Create(date, Manual(principal - loss, principal, -loss)));
    assert b.records == [Record(0, date, principal - loss, principal, -loss, None)];
    assert LastUpTo(b.records, date) == Some(b.records[0]);
    StepKeepsIdentityIff(b, Withdraw(date, amount, PRINCIPAL));
  }

  ghost predicate LastBefore(records: seq<Record>, date: int, i: nat) {
    i < |records| && records[i].date < date && forall j :: i < j < |records| ==> date <= records[j].date
  }

  ghost predicate MayEnter(records: seq<Record>, isGold: bool, date: int, input: Input) {
    && (forall x :: x in records ==> x.date < date || (x.date == date && x.withdrawalId.Some?))
    && (input.Gold? ==> isGold && input.worth.Some?)
  }

  // The first reason that applies.
  ghost predicate EntryRefused(records: seq<Record>, isGold: bool, date: int, input: Input, reason: Error) {
    if exists x :: x in records && x.date == date && x.withdrawalId.None? then reason == RecordDateConflict
    else if exists x :: x in records && date < x.date then reason == LaterRecordExists
    else input.Gold? && if isGold then input.worth.None? && reason == GoldPriceUnavailable else reason == NotAGoldAccount
  }

  ghost predicate WithdrawalRefused(records: seq<Record>, date: int, reason: Error) {
    if forall x :: x in records ==> date < x.date then reason == NoEarlierRecord
    else reason == LaterRecordExists && exists x :: x in records && date < x.date
  }

  // AUTO adds to the principal of the last record dated earlier, and GOLD cost what it cost, or its worth
  // when that is not known; in both the rest of the balance is profit.
  ghost predicate AsEntered(records: seq<Record>, date: int, input: Input, r: Record) {
    && r.date == date && r.withdrawalId.None?
    && match input
       case Manual(balance, principal, profit) =>
         r.balance == balance && r.principal == principal && r.profit == profit
       case Auto(balance, additional) =>
         && r.balance == balance && r.profit == balance - r.principal
         && (forall i: nat :: LastBefore(records, date, i) ==> r.principal == records[i].principal + additional)
         && ((forall i: nat :: !LastBefore(records, date, i)) ==> r.principal == additional)
       case Gold(worth, cost) =>
         && (worth.Some? ==> r.balance == worth.value && r.profit == worth.value - r.principal)
         && (cost.Some? ==> r.principal == cost.value)
         && (cost.None? && worth.Some? ==> r.principal == worth.value)
  }

  lemma {:induction false} SomeLastBefore(records: seq<Record>, date: int)
    ensures LastUpTo(records, date - 1).Some? ==> exists i: nat :: LastBefore(records, date, i)
  {
    if records != [] {
      var n := |records| - 1;
      if records[n].date < date {
        assert LastBefore(records, date, n);
      } else {
        SomeLastBefore(records[..n], date);
        if LastUpTo(records, date - 1).Some? {
          var i: nat :| LastBefore(records[..n], date, i);
          assert LastBefore(records, date, i);
        }
      }
    }
  }

  lemma EntryMeans(b: Book, date: int, input: Input)
    ensures Refusal(b, Create(date, input)).None? <==> MayEnter(b.records, b.isGold, date, input)
    ensures Refusal(b, Create(date, input)).None? ==> AsEntered(b.records, date, input, NewRecord(b, Create(date, input)))
    ensures var refusal := Refusal(b, Create(date, input));
      refusal.Some? ==> EntryRefused(b.records, b.isGold, date, input, refusal.value)
  {
    forall i: nat | LastBefore(b.records, date, i) ensures LastUpTo(b.records, date - 1) == Some(b.records[i]) {
      LastUpToAt(b.records, date - 1, i);
    }
    SomeLastBefore(b.records, date);
  }

  // What a withdrawal leaves of the part it is taken from, and of the other part.
  ghost predicate TakenFrom(first: int, other: int, amount: nat, firstLeft: int, otherLeft: int) {
    if amount < first then firstLeft == first - amount && otherLeft == (if 0 < other then other else 0)
    else firstLeft == 0 && otherLeft == if amount - first < other then other - (amount - first) else 0
  }

  // The withdrawal comes off the latest record, first off the part it names.
  ghost predicate Withdrawn(records: seq<Record>, amount: nat, kind: WithdrawalType, after: Record)
    requires records != []
  {
    var latest := records[|records| - 1];
    && after.withdrawalId == Some(after.id)
    && after.balance == (if amount < latest.balance then latest.balance - amount else 0)
    && (kind == PRINCIPAL ==> TakenFrom(latest.principal, latest.profit, amount, after.principal, after.profit))
    && (kind == PROFIT ==> TakenFrom(latest.profit, latest.principal, amount, after.profit, after.principal))
  }

  lemma WithdrawalMeans(b: Book, date: int, amount: nat, kind: WithdrawalType)
    ensures Refusal(b, Withdraw(date, amount, kind)).None? <==>
      b.records != [] && forall x :: x in b.records ==> x.date <= date
    ensures Refusal(b, Withdraw(date, amount, kind)).None? ==>
      Withdrawn(b.records, amount, kind, NewRecord(b, Withdraw(date, amount, kind)))
    ensures var refusal := Refusal(b, Withdraw(date, amount, kind));
      refusal.Some? ==> WithdrawalRefused(b.records, date, refusal.value)
  {
    LastUpToIsRecord(b.records, date);
    if b.records != [] && b.records[|b.records| - 1].date <= date {
      LastUpToAt(b.records, date, |b.records| - 1);
    }
  }

  lemma {:induction false} WithoutMember(records: seq<Record>, drop: Record -> bool, r: Record)
    ensures r in Without(records, drop) <==> r in records && !drop(r)
  {
    if records != [] {
      var n := |records| - 1;
      WithoutMember(records[..n], drop, r);
      assert records == records[..n] + [records[n]];
    }
  }

  lemma {:induction false} WithoutWithdrawalMember(ws: seq<Withdrawal>, id: nat, w: Withdrawal)
    ensures w in WithoutWithdrawal(ws, id) <==> w in ws && w.id != id
  {
    if ws != [] {
      var n := |ws| - 1;
      WithoutWithdrawalMember(ws[..n], id, w);
      assert ws == ws[..n] + [ws[n]];
    }
  }

  ghost predicate RecordRemoved(before: seq<Record>, after: seq<Record>, id: nat) {
    forall r :: r in after <==> r in before && r.id != id
  }

  // The withdrawal goes with the record it left.
  ghost predicate WithdrawalRemoved(
    before: seq<Withdrawal>, after: seq<Withdrawal>, recordsBefore: seq<Record>, recordsAfter: seq<Record>, id: nat)
  {
    && (forall w :: w in after <==> w in before && w.id != id)
    && (forall r :: r in recordsAfter <==> r in recordsBefore && r.withdrawalId != Some(id))
  }

  lemma RemovalMeans(b: Book, id: nat)
    ensures RecordRemoved(b.records, Apply(b, RemoveRecord(id)).records, id)
  {
    forall r ensures r in Without(b.records, HasId(id)) <==> r in b.records && r.id != id {
      WithoutMember(b.records, HasId(id), r);
    }
  }

  lemma WithdrawalRemovalMeans(b: Book, id: nat)
    requires Refusal(b, RemoveWithdrawal(id)).None?
    ensures var after := Apply(b, RemoveWithdrawal(id));
      WithdrawalRemoved(b.withdrawals, after.withdrawals, b.records, after.records, id)
  {
    forall r ensures r in Without(b.records, LeftBy(id)) <==> r in b.records && r.withdrawalId != Some(id) {
      WithoutMember(b.records, LeftBy(id), r);
    }
    forall w ensures w in WithoutWithdrawal(b.withdrawals, id) <==> w in b.withdrawals && w.id != id {
      WithoutWithdrawalMember(b.withdrawals, id, w);
    }
  }

  // ---- The account as the service updates it ------------------------------------------------------

  class Account {
    const isGold: bool
    var records: seq<Record>
    var withdrawals: seq<Withdrawal>
    var nextId: nat

    ghost function View(): Book
      reads this
    {
      Book(isGold, records, withdrawals, nextId)
    }

    ghost predicate Valid()
      reads this
    {
      InDateOrder(records) && OneSnapshotPerDate(records)
    }

    constructor (isGold: bool)
      ensures Valid() && View() == Book(isGold, [], [], 0)
    {
      this.isGold := isGold;
      records, withdrawals, nextId := [], [], 0;
    }

    // The first record in descending (date, creation) order dated at most limit.
    method FindLatest(limit: int) returns (latest: Option<Record>)
      requires Valid()
      ensures latest == LastUpTo(records, limit)
    {
      latest := None;
      for i := 0 to |records|
        invariant latest == LastUpTo(records[..i], limit)
        invariant latest.Some? ==> latest.value in records[..i]
      {
        assert records[..i + 1][..i] == records[..i];
        if records[i].date <= limit && (latest.None? || latest.value.date <= records[i].date) {
          latest := Some(records[i]);
        }
      }
      assert records[..|records|] == records;
    }

    // The amounts of a new record in each of the three input modes.
    method Amounts(date: int, input: Input) returns (r: Result<Record, Error>)
      requires Valid()
      ensures match input
        case Gold(worth, _) =>
          r == if !isGold then Failure(NotAGoldAccount)
               else if worth.None? then Failure(GoldPriceUnavailable)
               else Success(Entered(PrincipalBefore(records, date), input).(id := nextId, date := date))
        case _ => r == Success(Entered(PrincipalBefore(records, date), input).(id := nextId, date := date))
      ensures r.Success? && !input.Manual? ==> Balanced(r.value)
    {
      match input {
        case Auto(currentBalance, additionalPrincipal) =>
          var prev := FindLatest(date - 1);
          var principal := (if prev.Some? then prev.value.principal else 0) + additionalPrincipal;
          return Success(Record(nextId, date, currentBalance, principal, currentBalance - principal, None));
        case Gold(worth, cost) =>
          if !isGold { return Failure(NotAGoldAccount); }
          if worth.None? { return Failure(GoldPriceUnavailable); }
          var principal := if cost.Some? then cost.value else worth.value;
          return Success(Record(nextId, date, worth.value, principal, worth.value - principal, None));
        case Manual(balance, principal, profit) =>
          return Success(Record(nextId, date, balance, principal, profit, None));
      }
    }

    method CreateRecord(date: int, input: Input) returns (r: Result<Record, Error>)
      requires Valid()
      modifies this`records, this`nextId
      ensures Valid() && View() == Apply(old(View()), Create(date, input))
      ensures r.Failure? <==> Refusal(old(View()), Create(date, input)).Some?
      ensures r.Failure? ==> Refusal(old(View()), Create(date, input)) == Some(r.error)
      ensures r.Success? ==> records == old(records) + [r.value] && nextId == old(nextId) + 1
      ensures r.Failure? ==> records == old(records) && nextId == old(nextId)
      ensures r.Success? <==> MayEnter(old(records), isGold, date, input)
      ensures r.Failure? ==> EntryRefused(old(records), isGold, date, input, r.error)
      ensures r.Success? ==> r.value.id == old(nextId) && AsEntered(old(records), date, input, r.value)
    {
      StepKeepsDateOrder(View(), Create(date, input));
      EntryMeans(View(), date, input);
      if HasSnapshotOn(records, date) { return Failure(RecordDateConflict); }
      if HasLater(records, date) { return Failure(LaterRecordExists); }
      r := Amounts(date, input);
      if r.Success? {
        records := records + [r.value];
        nextId := nextId + 1;
      }
    }

    // The withdrawal and the record it leaves, in one transaction.
    method Append(record: Record, withdrawal: Withdrawal)
      modifies this`records, this`withdrawals, this`nextId
      ensures View() == Book(isGold, old(records) + [record], old(withdrawals) + [withdrawal], old(nextId) + 1)
    {
      records := records + [record];
      withdrawals := withdrawals + [withdrawal];
      nextId := nextId + 1;
    }

    method CreateWithdrawal(date: int, amount: nat, kind: WithdrawalType) returns (r: Result<Withdrawal, Error>)
      requires Valid()
      modifies this`records, this`withdrawals, this`nextId
      ensures Valid() && View() == Apply(old(View()), Withdraw(date, amount, kind))
      ensures Refusal(old(View()), Withdraw(date, amount, kind)) == if r.Failure? then Some(r.error) else None
      ensures r.Success? ==> withdrawals == old(withdrawals) + [r.value]
      ensures r.Failure? ==> WithdrawalRefused(old(records), date, r.error)
      ensures r.Success? <==> old(records) != [] && forall x :: x in old(records) ==> x.date <= date
      ensures r.Success? ==> r.value == Withdrawal(old(nextId), date, amount, kind) && nextId == old(nextId) + 1
      ensures r.Failure? ==> View() == old(View())
      ensures r.Success? ==> |records| == |old(records)| + 1 && records[..|old(records)|] == old(records)
      ensures r.Success? ==> Withdrawn(old(records), amount, kind, records[|old(records)|])
      ensures r.Success? ==> records[|old(records)|].id == old(nextId) == r.value.id && records[|old(records)|].date == date
    {
      StepKeepsDateOrder(View(), Withdraw(date, amount, kind));
      WithdrawalMeans(View(), date, amount, kind);
      var prev := FindLatest(date);
      if prev.None? { return Failure(NoEarlierRecord); }
      if HasLater(records, date) { return Failure(LaterRecordExists); }
      var newBalance := Max(0, prev.value.balance - amount);
      var (principal, profit) := ApplyWithdrawal(prev.value.principal, prev.value.profit, amount, kind);
      var created := Withdrawal(nextId, date, amount, kind);
      var record := Record(nextId, date, newBalance, principal, profit, Some(created.id));
      assert record == NewRecord(View(), Withdraw(date, amount, kind));
      r := Success(created);
      Append(record, created);
    }

    method RemoveAccountRecord(id: nat) returns (removed: bool)
      requires Valid()
      modifies this`records
      ensures Valid() && View() == Apply(old(View()), RemoveRecord(id))
      ensures removed <==> exists r :: r in old(records) && r.id == id
      ensures !removed ==> records == old(records)
      ensures RecordRemoved(old(records), records, id)
    {
      StepKeepsDateOrder(View(), RemoveRecord(id));
      RemovalMeans(View(), id);
      removed := HasRecord(records, id);
      if removed {
        records := Without(records, HasId(id));
      }
    }

    method RemoveAccountWithdrawal(id: nat) returns (removed: bool)
      requires Valid()
      modifies this`records, this`withdrawals
      ensures Valid() && View() == Apply(old(View()), RemoveWithdrawal(id))
      ensures removed <==> exists w :: w in old(withdrawals) && w.id == id
      ensures removed ==> WithdrawalRemoved(old(withdrawals), withdrawals, old(records), records, id)
      ensures !removed ==> View() == old(View())
    {
      StepKeepsDateOrder(View(), RemoveWithdrawal(id));
      if Refusal(View(), RemoveWithdrawal(id)).None? {
        WithdrawalRemovalMeans(View(), id);
      }
      removed := HasWithdrawal(withdrawals, id);
      if removed {
        records := Without(records, LeftBy(id));
        withdrawals := WithoutWithdrawal(withdrawals, id);
      }
    }
  }
}

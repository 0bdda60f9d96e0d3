// A child's point account: balance, savings, savings plan and the ledger of transactions.
module ChildcareLedger {
  import opened Wrappers
  import opened Calendar
  import opened MonthlyPayouts
  import opened SavingsInterest

  datatype TxType =
    ALLOWANCE | REWARD | BONUS | PENALTY | PURCHASE | CASHOUT | SAVINGS_DEPOSIT | SAVINGS_WITHDRAW | INTEREST

  datatype Tx = Tx(kind: TxType, amount: int, createdAt: Instant)

  datatype PlanStatus = ACTIVE | MATURED | CANCELLED

  datatype Plan = Plan(terms: Terms, status: PlanStatus)

  datatype Account = Account(balance: int, savings: int, plan: Option<Plan>, txs: seq<Tx>)

  const NEW_ACCOUNT := Account(0, 0, None, [])

  datatype Request =
    | Direct(kind: Option<TxType>, amount: Option<int>, described: bool)
    | ShopItem(points: int)
    | Rule(earns: bool, informational: bool, rulePoints: int)

  datatype Error =
    | RuleNoPoints | IncompleteRequest | InsufficientPoints | InsufficientSavings
    | SavingsPlanExists | NoActiveSavingsPlan | NothingDue

  datatype Event =
    | Transaction(request: Request, at: Instant)
    | SavingsDeposit(deposited: nat, at: Instant)
    | SavingsWithdraw(withdrawn: nat, at: Instant)
    | CreatePlan(terms: Terms, at: Instant)
    | Cancel(at: Instant)
    | Mature(interest: nat, at: Instant)
    | Allowance(points: nat, payDay: int, at: Instant)

  // ---- The steps --------------------------------------------------------------------------

  predicate Earning(kind: TxType) {
    kind == ALLOWANCE || kind == REWARD || kind == BONUS || kind == INTEREST
  }

  function BalanceDelta(kind: TxType, amount: int): int {
    if Earning(kind) then amount else -amount
  }

  function Resolve(q: Request): Result<(TxType, int), Error> {
    match q
    case ShopItem(points) => if points == 0 then Failure(IncompleteRequest) else Success((PURCHASE, points))
    case Rule(earns, informational, points) =>
      if informational || points == 0 then Failure(RuleNoPoints)
      else Success((if earns then REWARD else PENALTY, points))
    case Direct(kind, amount, described) =>
      if kind.None? || amount.None? || amount.value == 0 || !described then Failure(IncompleteRequest)
      else Success((kind.value, amount.value))
  }

  function AllowanceLog(txs: seq<Tx>): seq<Instant> {
    if txs == [] then []
    else
      var n := |txs| - 1;
      AllowanceLog(txs[..n]) + if txs[n].kind == ALLOWANCE then [txs[n].createdAt] else []
  }

  lemma {:induction false} LoggedIff(txs: seq<Tx>, t: Instant)
    ensures t in AllowanceLog(txs) <==> exists tx :: tx in txs && tx.kind == ALLOWANCE && tx.createdAt == t
  {
    if txs != [] {
      var n := |txs| - 1;
      LoggedIff(txs[..n], t);
      assert txs[n] in txs && forall tx :: tx in txs <==> tx in txs[..n] || tx == txs[n];
    }
  }

  function AutoSavings(a: Account): nat {
    if a.plan.Some? && a.plan.value.status == ACTIVE then a.plan.value.terms.monthlyAmount else 0
  }

  function Refusal(a: Account, e: Event): Option<Error> {
    match e
    case Transaction(q, _) =>
      (match Resolve(q)
       case Failure(error) => Some(error)
       case Success((kind, amount)) =>
         if a.balance + BalanceDelta(kind, amount) < 0 then Some(InsufficientPoints) else None)
    case SavingsDeposit(amount, _) => if a.balance < amount then Some(InsufficientPoints) else None
    case SavingsWithdraw(amount, _) => if a.savings < amount then Some(InsufficientSavings) else None
    case CreatePlan(_, _) => if a.plan.Some? then Some(SavingsPlanExists) else None
    case Cancel(_) =>
      if a.plan.None? || a.plan.value.status != ACTIVE then Some(NoActiveSavingsPlan) else None
    case Mature(_, _) =>
      if a.plan.None? || a.plan.value.status != ACTIVE then Some(NothingDue) else None
    case Allowance(_, payDay, at) =>
      if Pays(AllowanceLog(a.txs), Visit(at, true, payDay)) then None else Some(NothingDue)
  }

  // The rows an accepted event stores.
  function Posted(a: Account, e: Event): seq<Tx> {
    if Refusal(a, e).Some? then []
    else match e
    case Transaction(q, at) => [Tx(Resolve(q).value.0, Resolve(q).value.1, at)]
    case SavingsDeposit(amount, at) => [Tx(SAVINGS_DEPOSIT, amount, at)]
    case SavingsWithdraw(amount, at) => [Tx(SAVINGS_WITHDRAW, amount, at)]
    case CreatePlan(_, _) => []
    case Cancel(at) => [Tx(SAVINGS_WITHDRAW, a.savings, at)]
    case Mature(interest, at) =>
      if interest > 0 then [Tx(INTEREST, interest, at), Tx(SAVINGS_WITHDRAW, a.savings + interest, at)]
      else [Tx(SAVINGS_WITHDRAW, a.savings, at)]
    case Allowance(points, _, at) =>
      if AutoSavings(a) > 0 then [Tx(ALLOWANCE, points, at), Tx(SAVINGS_DEPOSIT, AutoSavings(a), at)]
      else [Tx(ALLOWANCE, points, at)]
  }

  function Settled(a: Account, e: Event): Account {
    if Refusal(a, e).Some? then a
    else match e
    case Transaction(q, _) =>
      a.(balance := a.balance + BalanceDelta(Resolve(q).value.0, Resolve(q).value.1))
    case SavingsDeposit(amount, _) => a.(balance := a.balance - amount, savings := a.savings + amount)
    case SavingsWithdraw(amount, _) => a.(balance := a.balance + amount, savings := a.savings - amount)
    case CreatePlan(terms, _) => a.(plan := Some(Plan(terms, ACTIVE)))
    case Cancel(_) =>
      a.(balance := a.balance + a.savings, savings := 0, plan := Some(a.plan.value.(status := CANCELLED)))
    case Mature(interest, _) =>
      a.(balance := a.balance + a.savings + interest, savings := 0, plan := Some(a.plan.value.(status := MATURED)))
    case Allowance(points, _, _) =>
      a.(balance := a.balance + points - AutoSavings(a), savings := a.savings + AutoSavings(a))
  }

  function Apply(a: Account, e: Event): Account {
    Settled(a, e).(txs := a.txs + Posted(a, e))
  }

  function ApplyAll(a: Account, events: seq<Event>): Account {
    if events == [] then a
    else Apply(ApplyAll(a, events[..|events| - 1]), events[|events| - 1])
  }

  // Maturity pays the interest the plan's own terms yield.
  function Matured(a: Account, at: Instant): Account {
    if a.plan.None? then a else Apply(a, Mature(ExpectedInterest(a.plan.value.terms), at))
  }

  // ---- Conservation -----------------------------------------------------------------------

  // Points that enter or leave the account as a whole; moves between balance and savings count 0.
  function External(a: Account, e: Event): int {
    if Refusal(a, e).Some? then 0
    else match e
    case Transaction(q, _) => BalanceDelta(Resolve(q).value.0, Resolve(q).value.1)
    case Mature(interest, _) => interest
    case Allowance(points, _, _) => points
    case _ => 0
  }

  function ExternalAll(a: Account, events: seq<Event>): int {
    if events == [] then 0
    else
      var n := |events| - 1;
      ExternalAll(a, events[..n]) + External(ApplyAll(a, events[..n]), events[n])
  }

  lemma {:induction false} PointsAreConserved(a: Account, events: seq<Event>)
    requires a.savings >= 0
    ensures var b := ApplyAll(a, events);
      && b.balance + b.savings == a.balance + a.savings + ExternalAll(a, events)
      && b.savings >= 0
  {
    if events != [] {
      PointsAreConserved(a, events[..|events| - 1]);
    }
  }

  // A pay day takes an instalment that balance and allowance together do not cover.
  predicate Overdraws(a: Account, e: Event) {
    e.Allowance? && Refusal(a, e).None? && AutoSavings(a) > a.balance + e.points
  }

  predicate NeverOverdraws(a: Account, events: seq<Event>) {
    events == [] ||
    (var n := |events| - 1; NeverOverdraws(a, events[..n]) && !Overdraws(ApplyAll(a, events[..n]), events[n]))
  }

  predicate NonNegativeThroughout(a: Account, events: seq<Event>) {
    ApplyAll(a, events).balance >= 0 && (events != [] ==> NonNegativeThroughout(a, events[..|events| - 1]))
  }

  lemma StepStaysNonNegativeIff(a: Account, e: Event)
    requires a.balance >= 0 && a.savings >= 0
    ensures Apply(a, e).balance >= 0 <==> !Overdraws(a, e)
  {
  }

  // Throughout a run the balance is not negative, exactly when every pay day covers its instalment.
  lemma {:induction false} BalanceStaysNonNegativeIff(a: Account, events: seq<Event>)
    requires a.balance >= 0 && a.savings >= 0
    ensures NonNegativeThroughout(a, events) <==> NeverOverdraws(a, events)
  {
    if events != [] {
      var n := |events| - 1;
      BalanceStaysNonNegativeIff(a, events[..n]);
      PointsAreConserved(a, events[..n]);
      if NonNegativeThroughout(a, events[..n]) {
        StepStaysNonNegativeIff(ApplyAll(a, events[..n]), events[n]);
      }
    }
  }

  // A new account whose plan saves more a month than the allowance is overdrawn by its first pay day.
  lemma FirstInstalmentOverdraws(terms: Terms, points: nat, payDay: int, at: Instant)
    requires points < terms.monthlyAmount && DueToday(payDay, KstDate(at))
    ensures ApplyAll(NEW_ACCOUNT, [CreatePlan(terms, at)] + [Allowance(points, payDay, at)]).balance
         == points - terms.monthlyAmount
  {
    var open, pay := CreatePlan(terms, at), Allowance(points, payDay, at);
    assert [open][..0] == [] && ([open] + [pay])[..1] == [open];
    assert ApplyAll(NEW_ACCOUNT, [open]) == Apply(NEW_ACCOUNT, open);
    assert Apply(NEW_ACCOUNT, open) == Account(0, 0, Some(Plan(terms, ACTIVE)), []);
  }

  // ---- The closing balance of a period ------------------------------------------------------

  predicate Earlier(a: Instant, b: Instant) {
    Before(a.utc, b.utc) || (a.utc == b.utc && a.hour < b.hour)
  }

  // Rewinds, from today's balance, every transaction stored since the end of the period.
  function Rewind(balance: int, txs: seq<Tx>, periodEnd: Instant): int {
    if txs == [] then balance
    else
      var last := txs[|txs| - 1];
      Rewind(balance, txs[..|txs| - 1], periodEnd)
      - if Earlier(last.createdAt, periodEnd) then 0 else BalanceDelta(last.kind, last.amount)
  }

  function ClosingBalance(a: Account, periodEnd: Instant): int {
    Rewind(a.balance, a.txs, periodEnd)
  }

  // What an event takes out of savings into the balance.
  function TakenFromSavings(a: Account, e: Event): int {
    if Refusal(a, e).Some? then 0
    else match e
    case SavingsWithdraw(amount, _) => amount
    case Cancel(_) => a.savings
    case Mature(interest, _) => a.savings + interest
    case _ => 0
  }

  function InterestPaid(a: Account, e: Event): int {
    if e.Mature? && Refusal(a, e).None? then e.interest else 0
  }

  // Points by which rewinding an event misses: a withdrawal raised the balance but is rewound as a
  // deduction, and interest never touched the balance but is rewound as an earning.
  function Overstated(a: Account, e: Event): int {
    2 * TakenFromSavings(a, e) - InterestPaid(a, e)
  }

  function OverstatedAll(a: Account, events: seq<Event>): int {
    if events == [] then 0
    else
      var n := |events| - 1;
      OverstatedAll(a, events[..n]) + Overstated(ApplyAll(a, events[..n]), events[n])
  }

  function DeltaSum(txs: seq<Tx>): int {
    if txs == [] then 0 else DeltaSum(txs[..|txs| - 1]) + BalanceDelta(txs[|txs| - 1].kind, txs[|txs| - 1].amount)
  }

  lemma {:induction false} RewindLaterRows(balance: int, txs: seq<Tx>, rows: seq<Tx>, periodEnd: Instant)
    requires forall i :: 0 <= i < |rows| ==> !Earlier(rows[i].createdAt, periodEnd)
    ensures Rewind(balance, txs + rows, periodEnd) == Rewind(balance, txs, periodEnd) - DeltaSum(rows)
  {
    if rows == [] {
      assert txs + rows == txs;
    } else {
      var n := |rows| - 1;
      RewindLaterRows(balance, txs, rows[..n], periodEnd);
      assert (txs + rows)[..|txs + rows| - 1] == txs + rows[..n];
    }
  }

  lemma DeltaSumOfTwo(x: Tx, y: Tx)
    ensures DeltaSum([x]) == BalanceDelta(x.kind, x.amount)
    ensures DeltaSum([x, y]) == BalanceDelta(x.kind, x.amount) + BalanceDelta(y.kind, y.amount)
  {
    assert [x][..0] == [] && [x, y][..1] == [x];
  }

  lemma PostedMisses(a: Account, e: Event)
    ensures DeltaSum(Posted(a, e)) == Settled(a, e).balance - a.balance - Overstated(a, e)
  {
    var rows := Posted(a, e);
    if |rows| == 1 { DeltaSumOfTwo(rows[0], rows[0]); }
    if |rows| == 2 { DeltaSumOfTwo(rows[0], rows[1]); }
  }

  lemma {:induction false} RewindShift(balance: int, shift: int, txs: seq<Tx>, periodEnd: Instant)
    ensures Rewind(balance + shift, txs, periodEnd) == Rewind(balance, txs, periodEnd) + shift
  {
    if txs != [] {
      RewindShift(balance, shift, txs[..|txs| - 1], periodEnd);
    }
  }

  lemma {:induction false} NothingToRewind(balance: int, txs: seq<Tx>, periodEnd: Instant)
    requires forall i :: 0 <= i < |txs| ==> Earlier(txs[i].createdAt, periodEnd)
    ensures Rewind(balance, txs, periodEnd) == balance
  {
    if txs != [] {
      NothingToRewind(balance, txs[..|txs| - 1], periodEnd);
    }
  }

  lemma LaterEventShiftsClosing(a: Account, e: Event, periodEnd: Instant)
    requires !Earlier(e.at, periodEnd)
    ensures ClosingBalance(Apply(a, e), periodEnd) == ClosingBalance(a, periodEnd) + Overstated(a, e)
  {
    var b := Apply(a, e);
    RewindShift(a.balance, b.balance - a.balance, b.txs, periodEnd);
    RewindLaterRows(a.balance, a.txs, Posted(a, e), periodEnd);
    PostedMisses(a, e);
  }

  lemma {:induction false} ClosingBalanceOffByOverstated(a: Account, later: seq<Event>, periodEnd: Instant)
    requires forall i :: 0 <= i < |a.txs| ==> Earlier(a.txs[i].createdAt, periodEnd)
    requires forall i :: 0 <= i < |later| ==> !Earlier(later[i].at, periodEnd)
    ensures ClosingBalance(ApplyAll(a, later), periodEnd) == a.balance + OverstatedAll(a, later)
  {
    if later == [] {
      NothingToRewind(a.balance, a.txs, periodEnd);
    } else {
      var n := |later| - 1;
      ClosingBalanceOffByOverstated(a, later[..n], periodEnd);
      LaterEventShiftsClosing(ApplyAll(a, later[..n]), later[n], periodEnd);
    }
  }

  // No event of the run takes anything out of savings.
  ghost predicate LeavesSavingsAlone(a: Account, events: seq<Event>) {
    events == [] ||
    (var n := |events| - 1;
     LeavesSavingsAlone(a, events[..n]) && TakenFromSavings(ApplyAll(a, events[..n]), events[n]) == 0)
  }

  lemma OverstatedStep(a: Account, e: Event)
    requires a.savings >= 0
    ensures Overstated(a, e) >= 0
    ensures Overstated(a, e) == 0 <==> TakenFromSavings(a, e) == 0
  {
  }

  lemma {:induction false} OverstatedIsZeroIff(a: Account, events: seq<Event>)
    requires a.savings >= 0
    ensures OverstatedAll(a, events) >= 0
    ensures OverstatedAll(a, events) == 0 <==> LeavesSavingsAlone(a, events)
  {
    if events != [] {
      var n := |events| - 1;
      var before := events[..n];
      OverstatedIsZeroIff(a, before);
      PointsAreConserved(a, before);
      OverstatedStep(ApplyAll(a, before), events[n]);
    }
  }

  // The closing balance never understates, and it is the balance the account had at the end of
  // the period exactly when nothing was taken out of savings afterwards.
  lemma ClosingBalanceIsRightIff(a: Account, later: seq<Event>, periodEnd: Instant)
    requires a.savings >= 0
    requires forall i :: 0 <= i < |a.txs| ==> Earlier(a.txs[i].createdAt, periodEnd)
    requires forall i :: 0 <= i < |later| ==> !Earlier(later[i].at, periodEnd)
    ensures ClosingBalance(ApplyAll(a, later), periodEnd) >= a.balance
    ensures ClosingBalance(ApplyAll(a, later), periodEnd) == a.balance <==> LeavesSavingsAlone(a, later)
  {
    ClosingBalanceOffByOverstated(a, later, periodEnd);
    OverstatedIsZeroIff(a, later);
  }

  // 100 points earned and saved before the period ends and withdrawn after it: 200 points too many.
  lemma ClosingBalanceCanBeWrong(early: Instant, at: Instant)
    requires Earlier(early, at)
    ensures var before := ApplyAll(NEW_ACCOUNT, [Transaction(Direct(Some(BONUS), Some(100), true), early)] + [SavingsDeposit(100, early)]);
      && before.balance == 0
      && ClosingBalance(Apply(before, SavingsWithdraw(100, at)), at) == 200
  {
    var earn, save := Transaction(Direct(Some(BONUS), Some(100), true), early), SavingsDeposit(100, early);
    var rows := [Tx(BONUS, 100, early)];
    assert [earn][..0] == [] && ([earn] + [save])[..1] == [earn];
    assert ApplyAll(NEW_ACCOUNT, [earn]) == Apply(NEW_ACCOUNT, earn);
    assert Posted(NEW_ACCOUNT, earn) == rows && [] + rows == rows;
    var one := Account(100, 0, None, rows);
    assert Apply(NEW_ACCOUNT, earn) == one;
    var before := Apply(one, save);
    assert before.balance == 0 && before.savings == 100 && before.txs == rows + [Tx(SAVINGS_DEPOSIT, 100, early)];
    NothingToRewind(0, before.txs, at);
    LaterEventShiftsClosing(before, SavingsWithdraw(100, at), at);
  }

  // ---- Allowances -----------------------------------------------------------------------------

  // The instants at which the scheduler paid an allowance.
  function Payouts(a: Account, events: seq<Event>): seq<Instant> {
    if events == [] then []
    else
      var n := |events| - 1;
      Payouts(a, events[..n]) + if Accepts(ApplyAll(a, events[..n]), events[n]) then [events[n].at] else []
  }

  predicate Accepts(a: Account, e: Event) {
    e.Allowance? && Refusal(a, e).None?
  }

  lemma {:induction false} AllowanceLogConcat(txs: seq<Tx>, rows: seq<Tx>)
    ensures AllowanceLog(txs + rows) == AllowanceLog(txs) + AllowanceLog(rows)
  {
    if rows == [] {
      assert txs + rows == txs;
    } else {
      var init, all := rows[..|rows| - 1], txs + rows;
      AllowanceLogConcat(txs, init);
      assert all[..|all| - 1] == txs + init && all[|all| - 1] == rows[|rows| - 1];
    }
  }

  lemma AllowanceLogOfPayout(a: Account, e: Event)
    requires Accepts(a, e)
    ensures AllowanceLog(Posted(a, e)) == [e.at]
  {
    var first := Tx(ALLOWANCE, e.points, e.at);
    assert [first][..0] == [];
    assert AllowanceLog([first]) == [e.at];
    if AutoSavings(a) > 0 {
      var second := Tx(SAVINGS_DEPOSIT, AutoSavings(a), e.at);
      assert [first, second][..1] == [first];
      assert AllowanceLog([first, second]) == AllowanceLog([first]);
    }
  }

  // The ledger only grows, and a payout leaves its row in it.
  lemma LogStep(a: Account, e: Event)
    ensures AllowanceLog(a.txs) <= AllowanceLog(Apply(a, e).txs)
    ensures Accepts(a, e) ==> AllowanceLog(Apply(a, e).txs) == AllowanceLog(a.txs) + [e.at]
  {
    AllowanceLogConcat(a.txs, Posted(a, e));
    if Accepts(a, e) {
      AllowanceLogOfPayout(a, e);
    }
  }

  lemma {:induction false} PayoutsAreLogged(a: Account, events: seq<Event>, t: Instant)
    requires t in Payouts(a, events)
    ensures t in AllowanceLog(ApplyAll(a, events).txs)
  {
    var n := |events| - 1;
    LogStep(ApplyAll(a, events[..n]), events[n]);
    if t in Payouts(a, events[..n]) {
      PayoutsAreLogged(a, events[..n], t);
    }
  }

  // Whatever else is posted, allowances by hand included, and however pay days are edited: the
  // scheduler pays no month twice.
  lemma {:induction false} PayoutsOncePerMonth(a: Account, events: seq<Event>)
    requires forall i :: 0 <= i < |events| && events[i].Allowance? ==> events[i].at.hour < 15
    ensures OncePerKstMonth(Payouts(a, events)) && BeforeKstMidnight(Payouts(a, events))
  {
    if events != [] {
      var n := |events| - 1;
      PayoutsOncePerMonth(a, events[..n]);
      var before, paid := ApplyAll(a, events[..n]), Payouts(a, events[..n]);
      if Accepts(before, events[n]) {
        forall i | 0 <= i < |paid| ensures KstMonth(paid[i]) != KstMonth(events[n].at) {
          PayoutsAreLogged(a, events[..n], paid[i]);
          var k :| 0 <= k < |AllowanceLog(before.txs)| && AllowanceLog(before.txs)[k] == paid[i];
          assert paid[i].utc.month == AllowanceLog(before.txs)[k].utc.month;
        }
      }
    }
  }

  // An allowance posted by hand, of one point even, takes the place of the month's payout.
  lemma HandPostedAllowanceBlocksMonth(a: Account, q: Request, posted: Instant, points: nat, payDay: int, at: Instant)
    requires Refusal(a, Transaction(q, posted)).None? && Resolve(q).value.0 == ALLOWANCE
    requires posted.utc.month == KstMonth(at)
    ensures var b := Apply(a, Transaction(q, posted)); Apply(b, Allowance(points, payDay, at)) == b
  {
    var b := Apply(a, Transaction(q, posted));
    HandPostedIsLogged(a, q, posted);
    LoggedMonthIsNotPaid(b, |AllowanceLog(a.txs)|, points, payDay, at);
  }

  lemma LoggedMonthIsNotPaid(a: Account, i: nat, points: nat, payDay: int, at: Instant)
    requires i < |AllowanceLog(a.txs)| && AllowanceLog(a.txs)[i].utc.month == KstMonth(at)
    ensures Apply(a, Allowance(points, payDay, at)) == a
  {
    assert a.txs + [] == a.txs;
  }

  lemma HandPostedIsLogged(a: Account, q: Request, posted: Instant)
    requires Refusal(a, Transaction(q, posted)).None? && Resolve(q).value.0 == ALLOWANCE
    ensures AllowanceLog(Apply(a, Transaction(q, posted)).txs) == AllowanceLog(a.txs) + [posted]
  {
    var row := Tx(ALLOWANCE, Resolve(q).value.1, posted);
    AllowanceLogConcat(a.txs, [row]);
    assert [row][..0] == [];
  }

  function CountIn(log: seq<Instant>, month: nat): nat {
    if log == [] then 0
    else CountIn(log[..|log| - 1], month) + if KstMonth(log[|log| - 1]) == month then 1 else 0
  }

  // The scheduler's visits are before 15:00 UTC; visit d is the month's first on the clamped pay day,
  // and the month's visits before it go by the same pay day.
  ghost predicate DueVisit(events: seq<Event>, d: nat, month: nat, payDay: int) {
    && d < |events|
    && (forall i :: 0 <= i < |events| && events[i].Allowance? ==> events[i].at.hour < 15)
    && events[d].Allowance? && events[d].payDay == payDay
    && events[d].at.utc == Day(month, ClampDayOfMonth(month, payDay))
    && (forall i :: 0 <= i < d && events[i].Allowance? && events[i].at.utc.month == month ==>
          events[i].payDay == payDay && events[i].at.utc.day != ClampDayOfMonth(month, payDay))
  }

  // The payouts for a month among the first k events.
  function PaidFor(a: Account, events: seq<Event>, k: nat, month: nat): nat
    requires k <= |events|
  {
    CountIn(Payouts(a, events[..k]), month)
  }

  predicate TakenBy(a: Account, events: seq<Event>, k: nat, month: nat)
    requires k <= |events|
  {
    PaidInMonth(AllowanceLog(ApplyAll(a, events[..k]).txs), month)
  }

  lemma PayoutsStep(a: Account, events: seq<Event>, k: nat, month: nat)
    requires k < |events|
    ensures ApplyAll(a, events[..k + 1]) == Apply(ApplyAll(a, events[..k]), events[k])
    ensures PaidFor(a, events, k + 1, month) == PaidFor(a, events, k, month)
      + if Accepts(ApplyAll(a, events[..k]), events[k]) && KstMonth(events[k].at) == month then 1 else 0
  {
    assert events[..k + 1][..k] == events[..k];
    var paid := Payouts(a, events[..k]);
    if Accepts(ApplyAll(a, events[..k]), events[k]) {
      assert (paid + [events[k].at])[..|paid|] == paid;
    } else {
      assert paid + [] == paid;
    }
  }

  lemma {:induction false} NoneBeforeDueVisit(a: Account, events: seq<Event>, d: nat, month: nat, payDay: int, k: nat)
    requires DueVisit(events, d, month, payDay) && 1 <= payDay && k <= d
    ensures PaidFor(a, events, k, month) == 0
  {
    if k == 0 {
      assert events[..0] == [];
    } else {
      NoneBeforeDueVisit(a, events, d, month, payDay, k - 1);
      NotDue(a, events, k - 1, month, payDay);
    }
  }

  lemma NotDue(a: Account, events: seq<Event>, k: nat, month: nat, payDay: int)
    requires k < |events| && 1 <= payDay
    requires events[k].Allowance? ==> events[k].at.hour < 15
    requires events[k].Allowance? && events[k].at.utc.month == month ==>
      events[k].payDay == payDay && events[k].at.utc.day != ClampDayOfMonth(month, payDay)
    ensures PaidFor(a, events, k + 1, month) == PaidFor(a, events, k, month)
  {
    PayoutsStep(a, events, k, month);
  }

  lemma StaysPaid(a: Account, e: Event, month: nat)
    requires PaidInMonth(AllowanceLog(a.txs), month)
    ensures PaidInMonth(AllowanceLog(Apply(a, e).txs), month)
  {
    LogStep(a, e);
    var i :| 0 <= i < |AllowanceLog(a.txs)| && AllowanceLog(a.txs)[i].utc.month == month;
    assert AllowanceLog(Apply(a, e).txs)[i] == AllowanceLog(a.txs)[i];
  }

  // The visit on the pay day settles the month: paid now unless an allowance is already there.
  lemma DueVisitSettles(a: Account, e: Event, month: nat)
    requires e.Allowance? && e.at.hour < 15 && 1 <= e.payDay
    requires e.at.utc == Day(month, ClampDayOfMonth(month, e.payDay))
    ensures Accepts(a, e) <==> !PaidInMonth(AllowanceLog(a.txs), month)
    ensures PaidInMonth(AllowanceLog(Apply(a, e).txs), month)
  {
    LogStep(a, e);
    if PaidInMonth(AllowanceLog(a.txs), month) {
      StaysPaid(a, e, month);
    } else {
      assert AllowanceLog(Apply(a, e).txs)[|AllowanceLog(a.txs)|] == e.at;
    }
  }

  // Once there is an allowance of the month, no visit pays that month again.
  lemma SettledStaysSettled(a: Account, e: Event, month: nat)
    requires e.Allowance? ==> e.at.hour < 15
    requires PaidInMonth(AllowanceLog(a.txs), month)
    ensures PaidInMonth(AllowanceLog(Apply(a, e).txs), month)
    ensures !(Accepts(a, e) && KstMonth(e.at) == month)
  {
    StaysPaid(a, e, month);
  }

  lemma SettlesAt(a: Account, events: seq<Event>, d: nat, month: nat)
    requires d < |events| && events[d].Allowance? && events[d].at.hour < 15 && 1 <= events[d].payDay
    requires events[d].at.utc == Day(month, ClampDayOfMonth(month, events[d].payDay))
    ensures TakenBy(a, events, d + 1, month)
    ensures PaidFor(a, events, d + 1, month) == PaidFor(a, events, d, month) + if TakenBy(a, events, d, month) then 0 else 1
  {
    PayoutsStep(a, events, d, month);
    DueVisitSettles(ApplyAll(a, events[..d]), events[d], month);
  }

  lemma StaysSettledAt(a: Account, events: seq<Event>, k: nat, month: nat)
    requires k < |events| && (events[k].Allowance? ==> events[k].at.hour < 15)
    requires TakenBy(a, events, k, month)
    ensures TakenBy(a, events, k + 1, month) && PaidFor(a, events, k + 1, month) == PaidFor(a, events, k, month)
  {
    PayoutsStep(a, events, k, month);
    SettledStaysSettled(ApplyAll(a, events[..k]), events[k], month);
  }

  ghost predicate SettledBy(a: Account, events: seq<Event>, d: nat, k: nat, month: nat)
    requires d <= |events| && k <= |events|
  {
    TakenBy(a, events, k, month) && PaidFor(a, events, k, month) == if TakenBy(a, events, d, month) then 0 else 1
  }

  lemma StaysSettledBy(a: Account, events: seq<Event>, d: nat, k: nat, month: nat)
    requires d <= |events| && k < |events| && (events[k].Allowance? ==> events[k].at.hour < 15)
    requires SettledBy(a, events, d, k, month)
    ensures SettledBy(a, events, d, k + 1, month)
  {
    StaysSettledAt(a, events, k, month);
  }

  lemma SettledByDueVisit(a: Account, events: seq<Event>, d: nat, month: nat, payDay: int)
    requires DueVisit(events, d, month, payDay) && 1 <= payDay
    ensures SettledBy(a, events, d, d + 1, month)
  {
    NoneBeforeDueVisit(a, events, d, month, payDay, d);
    SettlesAt(a, events, d, month);
  }

  lemma {:induction false} SettledAfterDueVisit(a: Account, events: seq<Event>, d: nat, month: nat, payDay: int, k: nat)
    requires DueVisit(events, d, month, payDay) && 1 <= payDay && d < k <= |events|
    ensures SettledBy(a, events, d, k, month)
  {
    if k == d + 1 {
      SettledByDueVisit(a, events, d, month, payDay);
    } else {
      SettledAfterDueVisit(a, events, d, month, payDay, k - 1);
      StaysSettledBy(a, events, d, k - 1, month);
    }
  }

  // A month whose due day is visited is paid exactly once, if and only if no allowance of the month is
  // in the ledger when that visit comes; otherwise it is not paid at all.
  lemma MonthIsPaidOnceIff(a: Account, events: seq<Event>, d: nat, month: nat, payDay: int)
    requires DueVisit(events, d, month, payDay) && 1 <= payDay
    ensures CountIn(Payouts(a, events), month)
      == if PaidInMonth(AllowanceLog(ApplyAll(a, events[..d]).txs), month) then 0 else 1
  {
    assert events[..|events|] == events;
    SettledAfterDueVisit(a, events, d, month, payDay, |events|);
  }

  // The sign of each kind.
  function Signed(kind: TxType, amount: int): int {
    match kind
    case ALLOWANCE => amount
    case REWARD => amount
    case BONUS => amount
    case INTEREST => amount
    case PENALTY => -amount
    case PURCHASE => -amount
    case CASHOUT => -amount
    case SAVINGS_DEPOSIT => -amount
    case SAVINGS_WITHDRAW => -amount
  }

  // ---- The account as the service and the scheduler update it -----------------------------------

  class PointAccount {
    var balance: int
    var savings: int
    var plan: Option<Plan>
    var txs: seq<Tx>

    ghost function View(): Account
      reads this
    {
      Account(balance, savings, plan, txs)
    }

    constructor ()
      ensures View() == NEW_ACCOUNT
    {
      balance, savings, plan, txs := 0, 0, None, [];
    }

    method CreateTransaction(q: Request, at: Instant) returns (r: Result<Tx, Error>)
      modifies this
      ensures View() == Apply(old(View()), Transaction(q, at))
      ensures r.Failure? <==> Refusal(old(View()), Transaction(q, at)).Some?
      ensures r.Failure? ==> Refusal(old(View()), Transaction(q, at)) == Some(r.error)
      ensures r.Success? ==> txs == old(txs) + [r.value] && r.value.createdAt == at
      ensures r.Failure? ==> txs == old(txs) && balance == old(balance)
      ensures savings == old(savings) && plan == old(plan)
      // A shop item costs its points, and needs some and no more than there are.
      ensures q.ShopItem? ==> (r.Success? <==> q.points != 0 && q.points <= old(balance))
      ensures q.ShopItem? && r.Success? ==>
        r.value.kind == PURCHASE && r.value.amount == q.points && balance == old(balance) - q.points
      // A rule adds its points if it earns and takes them otherwise.
      ensures q.Rule? ==>
        (r.Success? <==> !q.informational && q.rulePoints != 0
                         && (if q.earns then -q.rulePoints else q.rulePoints) <= old(balance))
      ensures q.Rule? && r.Success? ==>
        && r.value.kind == (if q.earns then REWARD else PENALTY) && r.value.amount == q.rulePoints
        && balance == (if q.earns then old(balance) + q.rulePoints else old(balance) - q.rulePoints)
      // A direct request names its kind, and the kind decides the sign.
      ensures q.Direct? ==>
        (r.Success? <==> q.kind.Some? && q.amount.Some? && q.amount.value != 0 && q.described
                         && 0 <= old(balance) + Signed(q.kind.value, q.amount.value))
      ensures q.Direct? && r.Success? ==>
        && q.kind == Some(r.value.kind) && q.amount == Some(r.value.amount)
        && balance == old(balance) + Signed(r.value.kind, r.value.amount)
      ensures r.Failure? ==> r.error == match q
        case ShopItem(points) => if points == 0 then IncompleteRequest else InsufficientPoints
        case Rule(_, informational, points) =>
          if informational || points == 0 then RuleNoPoints else InsufficientPoints
        case Direct(kind, amount, described) =>
          if kind.None? || amount.None? || amount == Some(0) || !described then IncompleteRequest
          else InsufficientPoints
    {
      var resolved := Resolve(q);
      if resolved.Failure? { return Failure(resolved.error); }
      var (kind, amount) := resolved.value;
      var delta := BalanceDelta(kind, amount);
      if balance + delta < 0 { return Failure(InsufficientPoints); }
      var tx := Tx(kind, amount, at);
      txs := txs + [tx];
      balance := balance + delta;
      return Success(tx);
    }

    method DepositSavings(amount: nat, at: Instant) returns (r: Result<Tx, Error>)
      modifies this
      ensures View() == Apply(old(View()), SavingsDeposit(amount, at))
      ensures r.Failure? <==> Refusal(old(View()), SavingsDeposit(amount, at)).Some?
      ensures r == if amount <= old(balance) then Success(Tx(SAVINGS_DEPOSIT, amount, at)) else Failure(InsufficientPoints)
      ensures r.Success? ==> txs == old(txs) + [r.value]
      ensures r.Success? ==> balance == old(balance) - amount && savings == old(savings) + amount
      ensures plan == old(plan) && (r.Failure? ==> View() == old(View()))
    {
      if balance < amount { return Failure(InsufficientPoints); }
      var tx := Tx(SAVINGS_DEPOSIT, amount, at);
      txs := txs + [tx];
      balance := balance - amount;
      savings := savings + amount;
      return Success(tx);
    }

    method WithdrawSavings(amount: nat, at: Instant) returns (r: Result<Tx, Error>)
      modifies this
      ensures View() == Apply(old(View()), SavingsWithdraw(amount, at))
      ensures r.Failure? <==> Refusal(old(View()), SavingsWithdraw(amount, at)).Some?
      ensures r == if amount <= old(savings) then Success(Tx(SAVINGS_WITHDRAW, amount, at)) else Failure(InsufficientSavings)
      ensures r.Success? ==> txs == old(txs) + [r.value]
      ensures r.Success? ==> balance == old(balance) + amount && savings == old(savings) - amount
      ensures plan == old(plan) && (r.Failure? ==> View() == old(View()))
    {
      if savings < amount { return Failure(InsufficientSavings); }
      var tx := Tx(SAVINGS_WITHDRAW, amount, at);
      txs := txs + [tx];
      balance := balance + amount;
      savings := savings - amount;
      return Success(tx);
    }

    method CreateSavingsPlan(terms: Terms, at: Instant) returns (r: Result<Plan, Error>)
      modifies this
      ensures View() == Apply(old(View()), CreatePlan(terms, at))
      ensures r.Failure? <==> Refusal(old(View()), CreatePlan(terms, at)).Some?
      ensures r == if old(plan).None? then Success(Plan(terms, ACTIVE)) else Failure(SavingsPlanExists)
      ensures r.Success? ==> plan == Some(Plan(terms, ACTIVE))
      ensures balance == old(balance) && savings == old(savings) && txs == old(txs)
      ensures r.Failure? ==> plan == old(plan)
    {
      if plan.Some? { return Failure(SavingsPlanExists); }
      plan := Some(Plan(terms, ACTIVE));
      return Success(plan.value);
    }

    method CancelSavingsPlan(at: Instant) returns (r: Result<int, Error>)
      modifies this
      ensures View() == Apply(old(View()), Cancel(at))
      ensures r.Failure? <==> Refusal(old(View()), Cancel(at)).Some?
      ensures r.Success? <==> old(plan).Some? && old(plan).value.status == ACTIVE
      ensures r.Failure? ==> r.error == NoActiveSavingsPlan
      ensures r.Success? ==> r.value == old(savings) && balance == old(balance) + old(savings) && savings == 0
      ensures r.Success? ==> txs == old(txs) + [Tx(SAVINGS_WITHDRAW, old(savings), at)]
      ensures r.Success? ==> plan == Some(Plan(old(plan).value.terms, CANCELLED))
      ensures r.Failure? ==> View() == old(View())
    {
      if plan.None? || plan.value.status != ACTIVE { return Failure(NoActiveSavingsPlan); }
      var principal := savings;
      txs := txs + [Tx(SAVINGS_WITHDRAW, principal, at)];
      balance := balance + principal;
      savings := 0;
      plan := Some(plan.value.(status := CANCELLED));
      return Success(principal);
    }

    method MatureSavingsPlan(at: Instant)
      modifies this
      ensures View() == Matured(old(View()), at)
      ensures old(plan).None? || old(plan).value.status != ACTIVE ==> View() == old(View())
      ensures old(plan).Some? && old(plan).value.status == ACTIVE ==>
        var interest := ExpectedInterest(old(plan).value.terms);
        && plan == Some(Plan(old(plan).value.terms, MATURED))
        && balance == old(balance) + old(savings) + interest && savings == 0
        && txs == old(txs) + (if interest > 0 then [Tx(INTEREST, interest, at)] else [])
                  + [Tx(SAVINGS_WITHDRAW, old(savings) + interest, at)]
    {
      if plan.Some? && plan.value.status == ACTIVE {
        var principal := savings;
        var interest := ExpectedInterest(plan.value.terms);
        if interest > 0 {
          txs := txs + [Tx(INTEREST, interest, at)];
          savings := savings + interest;
        }
        txs := txs + [Tx(SAVINGS_WITHDRAW, principal + interest, at)];
        balance := balance + principal + interest;
        savings := 0;
        plan := Some(plan.value.(status := MATURED));
      }
    }

    method PayAllowance(points: nat, payDay: int, at: Instant)
      modifies this
      ensures View() == Apply(old(View()), Allowance(points, payDay, at))
      ensures !DueToday(payDay, KstDate(at)) || PaidInMonth(AllowanceLog(old(txs)), KstDate(at).month) ==>
        View() == old(View())
      ensures DueToday(payDay, KstDate(at)) && !PaidInMonth(AllowanceLog(old(txs)), KstDate(at).month) ==>
        var saved := if plan.Some? && plan.value.status == ACTIVE then plan.value.terms.monthlyAmount else 0;
        && balance == old(balance) + points - saved && savings == old(savings) + saved
        && txs == old(txs) + [Tx(ALLOWANCE, points, at)] + (if saved > 0 then [Tx(SAVINGS_DEPOSIT, saved, at)] else [])
      ensures plan == old(plan)
    {
      if !DueToday(payDay, KstDate(at)) || PaidInMonth(AllowanceLog(txs), KstMonth(at)) { return; }
      var saved := if plan.Some? && plan.value.status == ACTIVE then plan.value.terms.monthlyAmount else 0;
      txs := txs + [Tx(ALLOWANCE, points, at)];
      balance := balance + points;
      if saved > 0 {
        txs := txs + [Tx(SAVINGS_DEPOSIT, saved, at)];
        balance := balance - saved;
        savings := savings + saved;
      }
    }

    // The closing balance shown with a period's transactions, by a loop over the later rows.
    method FindClosingBalance(periodEnd: Instant) returns (closing: int)
      ensures closing == ClosingBalance(View(), periodEnd)
    {
      closing := balance;
      for i := 0 to |txs|
        invariant closing == Rewind(balance, txs[..i], periodEnd)
      {
        assert txs[..i + 1][..i] == txs[..i];
        if !Earlier(txs[i].createdAt, periodEnd) {
          closing := closing - BalanceDelta(txs[i].kind, txs[i].amount);
        }
      }
      assert txs[..|txs|] == txs;
    }
  }

  // 00:00 UTC: every account whose plan ends today takes one Mature step.
  method MatureSavingsPlans(acquired: bool, accounts: seq<PointAccount>, endsToday: seq<bool>, at: Instant)
    requires |endsToday| == |accounts|
    requires forall i, j :: 0 <= i < j < |accounts| ==> accounts[i] != accounts[j]
    modifies accounts
    ensures forall k :: 0 <= k < |accounts| ==>
      accounts[k].View() == if acquired && endsToday[k] then Matured(old(accounts[k].View()), at) else old(accounts[k].View())
  {
    if !acquired { return; }
    for i := 0 to |accounts|
      invariant forall k :: 0 <= k < i ==>
        accounts[k].View() == if endsToday[k] then Matured(old(accounts[k].View()), at) else old(accounts[k].View())
      invariant forall k :: i <= k < |accounts| ==> accounts[k].View() == old(accounts[k].View())
    {
      if endsToday[i] {
        accounts[i].MatureSavingsPlan(at);
      }
    }
  }

  // 00:00 UTC: every account with an allowance plan takes one Allowance step.
  method DispatchAllowance(acquired: bool, accounts: seq<PointAccount>, points: seq<nat>, payDays: seq<int>, at: Instant)
    requires |points| == |payDays| == |accounts|
    requires forall i, j :: 0 <= i < j < |accounts| ==> accounts[i] != accounts[j]
    modifies accounts
    ensures forall k :: 0 <= k < |accounts| ==>
      accounts[k].View() == if acquired then Apply(old(accounts[k].View()), Allowance(points[k], payDays[k], at))
                            else old(accounts[k].View())
  {
    if !acquired { return; }
    for i := 0 to |accounts|
      invariant forall k :: 0 <= k < i ==>
        accounts[k].View() == Apply(old(accounts[k].View()), Allowance(points[k], payDays[k], at))
      invariant forall k :: i <= k < |accounts| ==> accounts[k].View() == old(accounts[k].View())
    {
      accounts[i].PayAllowance(points[i], payDays[i], at);
    }
  }
}

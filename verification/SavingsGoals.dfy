// Savings goals: manual deposits and withdrawals, pausing, and the monthly auto-deposit.
module SavingsGoals {
  import opened Wrappers
  import opened Calendar
  import opened MonthlyPayouts

  datatype Status = ACTIVE | PAUSED

  datatype Goal = Goal(
    id: string, autoDeposit: bool, monthlyAmount: Option<nat>, depositDay: int,
    status: Status, currentAmount: int)

  datatype TxType = DEPOSIT | WITHDRAW | AUTO_DEPOSIT

  datatype Tx = Tx(goalId: string, kind: TxType, amount: nat, createdAt: Instant)

  datatype Error = GoalNotFound | MonthlyAmountRequired | NoAutoDeposit | AlreadyPaused | AlreadyActive | InsufficientBalance

  // ---- One goal with its own transactions ----------------------------------------------

  datatype Account = Account(goal: Goal, txs: seq<Tx>)

  datatype Event =
    | Deposit(amount: nat, at: Instant)
    | Withdraw(amount: nat, at: Instant)
    | Update(autoDeposit: Option<bool>, monthlyAmount: Option<nat>, depositDay: Option<int>)
    | Pause
    | Resume
    | AutoDeposit(at: Instant)

  // 0 counts as "not set".
  predicate Positive(amount: Option<nat>) {
    amount.Some? && amount.value > 0
  }

  function GetOr<T>(o: Option<T>, default: T): T {
    if o.Some? then o.value else default
  }

  function Refusal(g: Goal, e: Event): Option<Error> {
    match e
    case Withdraw(amount, _) => if g.currentAmount < amount then Some(InsufficientBalance) else None
    case Update(auto, monthly, _) =>
      // A stored amount, even 0, is a decimal object and so counts as set.
      if GetOr(auto, g.autoDeposit) && !Positive(monthly) && g.monthlyAmount.None?
      then Some(MonthlyAmountRequired) else None
    case Pause =>
      if !g.autoDeposit then Some(NoAutoDeposit)
      else if g.status == PAUSED then Some(AlreadyPaused) else None
    case Resume =>
      if !g.autoDeposit then Some(NoAutoDeposit)
      else if g.status == ACTIVE then Some(AlreadyActive) else None
    case _ => None
  }

  function AutoLog(txs: seq<Tx>): seq<Instant> {
    if txs == [] then []
    else
      var n := |txs| - 1;
      AutoLog(txs[..n]) + if txs[n].kind == AUTO_DEPOSIT then [txs[n].createdAt] else []
  }

  function VisitOf(g: Goal, at: Instant): Visit {
    Visit(at, g.autoDeposit && g.status == ACTIVE && Positive(g.monthlyAmount), g.depositDay)
  }

  function Apply(a: Account, e: Event): Account {
    var g := a.goal;
    if Refusal(g, e).Some? then a
    else match e
    case Deposit(amount, at) =>
      Account(g.(currentAmount := g.currentAmount + amount), a.txs + [Tx(g.id, DEPOSIT, amount, at)])
    case Withdraw(amount, at) =>
      Account(g.(currentAmount := g.currentAmount - amount), a.txs + [Tx(g.id, WITHDRAW, amount, at)])
    case Update(auto, monthly, day) =>
      Account(g.(autoDeposit := GetOr(auto, g.autoDeposit),
                 monthlyAmount := if auto == Some(false) then None else if monthly.Some? then monthly else g.monthlyAmount,
                 depositDay := GetOr(day, g.depositDay)),
              a.txs)
    case Pause => Account(g.(status := PAUSED), a.txs)
    case Resume => Account(g.(status := ACTIVE), a.txs)
    case AutoDeposit(at) => AutoDeposited(a, at)
  }

  function AutoDeposited(a: Account, at: Instant): Account {
    var g := a.goal;
    if Pays(AutoLog(a.txs), VisitOf(g, at)) then
      Account(g.(currentAmount := g.currentAmount + g.monthlyAmount.value),
              a.txs + [Tx(g.id, AUTO_DEPOSIT, g.monthlyAmount.value, at)])
    else a
  }

  function ApplyAll(a: Account, events: seq<Event>): Account {
    if events == [] then a
    else Apply(ApplyAll(a, events[..|events| - 1]), events[|events| - 1])
  }

  function Signed(tx: Tx): int {
    var amount: int := tx.amount;
    if tx.kind == WITHDRAW then -amount else amount
  }

  function Net(txs: seq<Tx>): int {
    if txs == [] then 0
    else
      var last := txs[|txs| - 1];
      Net(txs[..|txs| - 1]) + Signed(last)
  }

  // The stored amount is what the transactions add up to, and it is never overdrawn.
  ghost predicate Reconciled(a: Account) {
    a.goal.currentAmount == Net(a.txs) && 0 <= a.goal.currentAmount
  }

  lemma AppendTx(txs: seq<Tx>, tx: Tx)
    ensures Net(txs + [tx]) == Net(txs) + Signed(tx)
    ensures AutoLog(txs + [tx]) == AutoLog(txs) + if tx.kind == AUTO_DEPOSIT then [tx.createdAt] else []
  {
    assert (txs + [tx])[..|txs|] == txs;
  }

  lemma PostKeepsReconciled(a: Account, goal: Goal, tx: Tx)
    requires Reconciled(a) && 0 <= goal.currentAmount == a.goal.currentAmount + Signed(tx)
    ensures Reconciled(Account(goal, a.txs + [tx]))
    ensures AutoLog(a.txs + [tx]) == AutoLog(a.txs) + if tx.kind == AUTO_DEPOSIT then [tx.createdAt] else []
  {
    AppendTx(a.txs, tx);
  }

  lemma AutoDepositKeepsReconciled(a: Account, at: Instant)
    requires Reconciled(a)
    ensures Reconciled(AutoDeposited(a, at))
    ensures AutoLog(AutoDeposited(a, at).txs) == Pay(AutoLog(a.txs), VisitOf(a.goal, at))
  {
    if Pays(AutoLog(a.txs), VisitOf(a.goal, at)) {
      PostKeepsReconciled(a, AutoDeposited(a, at).goal, Tx(a.goal.id, AUTO_DEPOSIT, a.goal.monthlyAmount.value, at));
    }
  }

  lemma ManualKeepsReconciled(a: Account, e: Event)
    requires Reconciled(a) && (e.Deposit? || e.Withdraw?)
    ensures Reconciled(Apply(a, e)) && AutoLog(Apply(a, e).txs) == AutoLog(a.txs)
  {
    if Refusal(a.goal, e).None? {
      PostKeepsReconciled(a, Apply(a, e).goal, Tx(a.goal.id, if e.Deposit? then DEPOSIT else WITHDRAW, e.amount, e.at));
    }
  }

  lemma SettingsKeepReconciled(a: Account, e: Event)
    requires Reconciled(a) && (e.Update? || e.Pause? || e.Resume?)
    ensures Reconciled(Apply(a, e)) && AutoLog(Apply(a, e).txs) == AutoLog(a.txs)
  {
    assert Apply(a, e).txs == a.txs && Apply(a, e).goal.currentAmount == a.goal.currentAmount;
  }

  function LogAfter(a: Account, e: Event): seq<Instant> {
    if e.AutoDeposit? then Pay(AutoLog(a.txs), VisitOf(a.goal, e.at)) else AutoLog(a.txs)
  }

  lemma ApplyKeepsReconciled(a: Account, e: Event)
    requires Reconciled(a)
    ensures Reconciled(Apply(a, e)) && AutoLog(Apply(a, e).txs) == LogAfter(a, e)
  {
    if e.AutoDeposit? {
      AutoDepositKeepsReconciled(a, e.at);
      assert Apply(a, e) == AutoDeposited(a, e.at);
    } else if e.Deposit? || e.Withdraw? {
      ManualKeepsReconciled(a, e);
    } else {
      SettingsKeepReconciled(a, e);
    }
  }

  // Over any run of deposits, withdrawals, edits, pauses and scheduler ticks before midnight in
  // Seoul: the balance is the ledger, never negative, and no month holds two auto-deposits.
  lemma {:induction false} RunsReconcileAndDepositOncePerMonth(a: Account, events: seq<Event>)
    requires Reconciled(a) && OncePerKstMonth(AutoLog(a.txs)) && BeforeKstMidnight(AutoLog(a.txs))
    requires forall i :: 0 <= i < |events| && events[i].AutoDeposit? ==> events[i].at.hour < 15
    ensures var b := ApplyAll(a, events);
      Reconciled(b) && OncePerKstMonth(AutoLog(b.txs)) && BeforeKstMidnight(AutoLog(b.txs))
  {
    if events != [] {
      var n := |events| - 1;
      RunsReconcileAndDepositOncePerMonth(a, events[..n]);
      var before := ApplyAll(a, events[..n]);
      ApplyKeepsReconciled(before, events[n]);
      if events[n].AutoDeposit? {
        var v := VisitOf(before.goal, events[n].at);
        AtMostOncePerMonth(AutoLog(before.txs), [v]);
        assert [v][..0] == [];
        assert PayAll(AutoLog(before.txs), [v]) == Pay(AutoLog(before.txs), v);
      }
    }
  }

  // ---- A whole month of scheduler runs --------------------------------------------------

  // The scheduler's part of a run.
  function Ticks(events: seq<Event>): seq<Instant> {
    if events == [] then []
    else
      var n := |events| - 1;
      Ticks(events[..n]) + if events[n].AutoDeposit? then [events[n].at] else []
  }

  ghost predicate DailyTicks(ticks: seq<Instant>, month: nat) {
    && |ticks| == DaysInMonth(month)
    && forall i :: 0 <= i < |ticks| ==> ticks[i].hour < 15 && ticks[i].utc == Day(month, i + 1)
  }

  // Nothing but the scheduler, deposits and withdrawals.
  ghost predicate SettingsUntouched(events: seq<Event>) {
    forall e :: e in events ==> e.AutoDeposit? || e.Deposit? || e.Withdraw?
  }

  function Visits(g: Goal, ticks: seq<Instant>): seq<Visit> {
    seq(|ticks|, i requires 0 <= i < |ticks| => VisitOf(g, ticks[i]))
  }

  ghost predicate Depositing(g: Goal) {
    g.autoDeposit && g.status == ACTIVE && Positive(g.monthlyAmount)
  }

  function Times(n: nat, amount: nat): nat {
    if n == 0 then 0 else Times(n - 1, amount) + amount
  }

  // What deposits and withdrawals by hand add up to.
  function MovedBy(a: Account, e: Event): int {
    if Refusal(a.goal, e).Some? then 0
    else if e.Deposit? then e.amount
    else if e.Withdraw? then -(e.amount as int)
    else 0
  }

  function Moved(a: Account, events: seq<Event>): int {
    if events == [] then 0
    else
      var n := |events| - 1;
      Moved(a, events[..n]) + MovedBy(ApplyAll(a, events[..n]), events[n])
  }

  // b is the account a after auto-deposits that have grown the log to this, and the manual amount.
  ghost predicate Follows(a: Account, b: Account, log: seq<Instant>, moved: int)
    requires Depositing(a.goal)
  {
    && b.goal == a.goal.(currentAmount := b.goal.currentAmount)
    && AutoLog(b.txs) == log && |log| >= |AutoLog(a.txs)|
    && b.goal.currentAmount == a.goal.currentAmount + moved + Times(|log| - |AutoLog(a.txs)|, a.goal.monthlyAmount.value)
  }

  lemma AutoDepositedWhenDue(b: Account, at: Instant)
    requires Pays(AutoLog(b.txs), VisitOf(b.goal, at))
    ensures var c := AutoDeposited(b, at);
      && c.goal == b.goal.(currentAmount := b.goal.currentAmount + b.goal.monthlyAmount.value)
      && AutoLog(c.txs) == AutoLog(b.txs) + [at]
  {
    AppendTx(b.txs, Tx(b.goal.id, AUTO_DEPOSIT, b.goal.monthlyAmount.value, at));
  }

  lemma TickFollows(a: Account, b: Account, log: seq<Instant>, moved: int, at: Instant)
    requires Depositing(a.goal) && Follows(a, b, log, moved)
    ensures Follows(a, AutoDeposited(b, at), Pay(log, VisitOf(a.goal, at)), moved)
  {
    assert VisitOf(b.goal, at) == VisitOf(a.goal, at);
    if Pays(log, VisitOf(b.goal, at)) {
      AutoDepositedWhenDue(b, at);
      var more, amount := |log| - |AutoLog(a.txs)|, a.goal.monthlyAmount.value;
      assert Times(more + 1, amount) == Times(more, amount) + amount;
    }
  }

  lemma ManualFollows(a: Account, b: Account, log: seq<Instant>, moved: int, e: Event)
    requires Depositing(a.goal) && Follows(a, b, log, moved) && (e.Deposit? || e.Withdraw?)
    ensures Follows(a, Apply(b, e), log, moved + MovedBy(b, e))
  {
    if Refusal(b.goal, e).None? {
      AppendTx(b.txs, Tx(b.goal.id, if e.Deposit? then DEPOSIT else WITHDRAW, e.amount, e.at));
    }
  }

  // The log after the run's ticks have visited the goal.
  function VisitLog(a: Account, events: seq<Event>): seq<Instant> {
    PayAll(AutoLog(a.txs), Visits(a.goal, Ticks(events)))
  }

  lemma MovedSnoc(a: Account, init: seq<Event>, e: Event)
    ensures Moved(a, init + [e]) == Moved(a, init) + MovedBy(ApplyAll(a, init), e)
  {
    assert (init + [e])[..|init|] == init;
  }

  lemma VisitLogSnoc(a: Account, init: seq<Event>, e: Event)
    ensures VisitLog(a, init + [e])
         == if e.AutoDeposit? then Pay(VisitLog(a, init), VisitOf(a.goal, e.at)) else VisitLog(a, init)
  {
    assert (init + [e])[..|init|] == init;
    if e.AutoDeposit? {
      VisitsSnoc(a, Ticks(init), e.at);
    } else {
      assert Ticks(init) + [] == Ticks(init);
    }
  }

  lemma EventFollows(
    a: Account, b: Account, log: seq<Instant>, moved: int, e: Event, c: Account, longer: seq<Instant>, more: int)
    requires Depositing(a.goal) && Follows(a, b, log, moved) && (e.AutoDeposit? || e.Deposit? || e.Withdraw?)
    requires c == Apply(b, e) && more == moved + MovedBy(b, e)
    requires longer == if e.AutoDeposit? then Pay(log, VisitOf(a.goal, e.at)) else log
    ensures Follows(a, c, longer, more)
  {
    if e.AutoDeposit? {
      TickFollows(a, b, log, moved, e.at);
    } else {
      ManualFollows(a, b, log, moved, e);
    }
  }

  lemma ApplyAllSnoc(a: Account, init: seq<Event>, e: Event)
    ensures ApplyAll(a, init + [e]) == Apply(ApplyAll(a, init), e)
  {
    assert (init + [e])[..|init|] == init;
  }

  // The account after a run, the scheduler's log and the manual amount belong together.
  ghost predicate RunFollows(a: Account, events: seq<Event>)
    requires Depositing(a.goal)
  {
    Follows(a, ApplyAll(a, events), VisitLog(a, events), Moved(a, events))
  }

  lemma RunFollowsOn(a: Account, init: seq<Event>, e: Event)
    requires Depositing(a.goal) && RunFollows(a, init) && (e.AutoDeposit? || e.Deposit? || e.Withdraw?)
    ensures RunFollows(a, init + [e])
  {
    ApplyAllSnoc(a, init, e);
    VisitLogSnoc(a, init, e);
    MovedSnoc(a, init, e);
    EventFollows(a, ApplyAll(a, init), VisitLog(a, init), Moved(a, init), e,
                 ApplyAll(a, init + [e]), VisitLog(a, init + [e]), Moved(a, init + [e]));
  }

  lemma {:induction false} RunFollowsVisits(a: Account, events: seq<Event>)
    requires Depositing(a.goal) && SettingsUntouched(events)
    ensures RunFollows(a, events)
  {
    if events == [] {
      assert Visits(a.goal, []) == [];
    } else {
      var n := |events| - 1;
      assert events[n] in events && forall x :: x in events[..n] ==> x in events;
      RunFollowsVisits(a, events[..n]);
      RunFollowsOn(a, events[..n], events[n]);
      assert events == events[..n] + [events[n]];
    }
  }

  lemma VisitsSnoc(a: Account, ticks: seq<Instant>, at: Instant)
    ensures PayAll(AutoLog(a.txs), Visits(a.goal, ticks + [at]))
      == Pay(PayAll(AutoLog(a.txs), Visits(a.goal, ticks)), VisitOf(a.goal, at))
  {
    var visits := Visits(a.goal, ticks + [at]);
    assert visits[..|visits| - 1] == Visits(a.goal, ticks);
  }

  // An active goal with an amount and a fixed deposit day is credited exactly once by a month of
  // daily runs, on the clamped deposit day, whatever is deposited and withdrawn meanwhile.
  lemma {:induction false} DailyRunsCreditOnce(a: Account, events: seq<Event>, month: nat)
    requires Depositing(a.goal) && SettingsUntouched(events)
    requires 1 <= a.goal.depositDay && !PaidInMonth(AutoLog(a.txs), month)
    requires DailyTicks(Ticks(events), month)
    ensures var b := ApplyAll(a, events);
      && b.goal.currentAmount == a.goal.currentAmount + a.goal.monthlyAmount.value + Moved(a, events)
      && |AutoLog(b.txs)| == |AutoLog(a.txs)| + 1
      && KstDate(AutoLog(b.txs)[|AutoLog(a.txs)|]) == Day(month, ClampDayOfMonth(month, a.goal.depositDay))
  {
    RunFollowsVisits(a, events);
    assert Times(1, a.goal.monthlyAmount.value) == a.goal.monthlyAmount.value;
    DailyVisitsPayExactlyOnce(AutoLog(a.txs), Visits(a.goal, Ticks(events)), month, a.goal.depositDay);
  }

  // ---- The store ------------------------------------------------------------------------

  function TxsOf(txs: seq<Tx>, id: string): seq<Tx> {
    if txs == [] then []
    else
      var n := |txs| - 1;
      TxsOf(txs[..n], id) + if txs[n].goalId == id then [txs[n]] else []
  }

  lemma TxsOfAppend(txs: seq<Tx>, tx: Tx, id: string)
    ensures TxsOf(txs + [tx], id) == TxsOf(txs, id) + if tx.goalId == id then [tx] else []
  {
    assert (txs + [tx])[..|txs|] == txs;
  }

  predicate IsGoal(goals: seq<Goal>, k: nat, id: string) {
    k < |goals| && goals[k].id == id
  }

  // The update would leave auto-deposit on without an amount.
  predicate LacksAmount(g: Goal, autoDeposit: Option<bool>, monthlyAmount: Option<nat>) {
    && (autoDeposit == Some(true) || (autoDeposit.None? && g.autoDeposit))
    && (monthlyAmount == None || monthlyAmount == Some(0)) && g.monthlyAmount.None?
  }

  // What is given is stored and the rest kept, except that switching off clears the amount.
  ghost predicate Updated(
    before: Goal, after: Goal, autoDeposit: Option<bool>, monthlyAmount: Option<nat>, depositDay: Option<int>)
  {
    && after.id == before.id && after.status == before.status && after.currentAmount == before.currentAmount
    && (autoDeposit.Some? ==> after.autoDeposit == autoDeposit.value)
    && (autoDeposit.None? ==> after.autoDeposit == before.autoDeposit)
    && (depositDay.Some? ==> after.depositDay == depositDay.value)
    && (depositDay.None? ==> after.depositDay == before.depositDay)
    && (autoDeposit == Some(false) ==> after.monthlyAmount.None?)
    && (autoDeposit != Some(false) && monthlyAmount.Some? ==> after.monthlyAmount == monthlyAmount)
    && (autoDeposit != Some(false) && monthlyAmount.None? ==> after.monthlyAmount == before.monthlyAmount)
  }

  // An active goal with auto-deposit and an amount is credited on its day, once a month.
  ghost predicate TookAutoDeposit(before: Account, after: Account, at: Instant) {
    var g := before.goal;
    if g.autoDeposit && g.status == ACTIVE && g.monthlyAmount.Some? && g.monthlyAmount.value > 0
       && DueToday(g.depositDay, KstDate(at)) && !PaidInMonth(AutoLog(before.txs), KstDate(at).month)
    then
      && after.goal == g.(currentAmount := g.currentAmount + g.monthlyAmount.value)
      && after.txs == before.txs + [Tx(g.id, AUTO_DEPOSIT, g.monthlyAmount.value, at)]
    else after == before
  }

  class SavingsStore {
    var goals: seq<Goal>
    var txs: seq<Tx>

    ghost predicate Valid()
      reads this
    {
      forall i, j :: 0 <= i < j < |goals| ==> goals[i].id != goals[j].id
    }

    ghost function Accounts(): (accounts: seq<Account>)
      reads this
      ensures |accounts| == |goals|
    {
      seq(|goals|, i requires 0 <= i < |goals| reads this => Account(goals[i], TxsOf(txs, goals[i].id)))
    }

    constructor ()
      ensures Valid() && goals == [] && txs == []
    {
      goals, txs := [], [];
    }

    method FindGoal(id: string) returns (k: Option<nat>)
      ensures k.Some? ==> k.value < |goals| && goals[k.value].id == id && Accounts()[k.value].goal == goals[k.value]
      ensures k.None? ==> forall i :: 0 <= i < |goals| ==> goals[i].id != id
    {
      for i := 0 to |goals|
        invariant forall j :: 0 <= j < i ==> goals[j].id != id
      {
        if goals[i].id == id { return Some(i); }
      }
      return None;
    }

    // Writes back goal k and, if there is one, appends its transaction.
    method Save(k: nat, goal: Goal, row: Option<Tx>)
      requires Valid() && k < |goals| && goal.id == goals[k].id
      requires row.Some? ==> row.value.goalId == goal.id
      modifies this
      ensures Valid() && |goals| == |old(goals)|
      ensures Accounts() == old(Accounts())[k := Account(goal,
        if row.Some? then old(Accounts())[k].txs + [row.value] else old(Accounts())[k].txs)]
      ensures goals == old(goals)[k := goal]
      ensures txs == if row.Some? then old(txs) + [row.value] else old(txs)
    {
      goals := goals[k := goal];
      ghost var before := txs;
      if row.Some? {
        txs := txs + [row.value];
      }
      forall i | 0 <= i < |goals|
        ensures TxsOf(txs, goals[i].id)
             == if i == k && row.Some? then TxsOf(before, goals[i].id) + [row.value] else TxsOf(before, goals[i].id)
      {
        if row.Some? { TxsOfAppend(before, row.value, goals[i].id); }
      }
    }

    method DepositTo(id: string, amount: nat, at: Instant) returns (r: Result<nat, Error>)
      requires Valid()
      modifies this
      ensures Valid() && Performed(old(Accounts()), Accounts(), id, Deposit(amount, at), r)
      ensures r.Failure? ==> goals == old(goals) && txs == old(txs)
      ensures r.Success? ==>
        && IsGoal(old(goals), r.value, id)
        && goals == old(goals)[r.value := old(goals)[r.value].(currentAmount := old(goals)[r.value].currentAmount + amount)]
        && txs == old(txs) + [Tx(id, DEPOSIT, amount, at)]
    {
      var k := FindGoal(id);
      if k.None? { return Failure(GoalNotFound); }
      var g := goals[k.value];
      Save(k.value, g.(currentAmount := g.currentAmount + amount), Some(Tx(id, DEPOSIT, amount, at)));
      assert AppliedTo(old(Accounts()), Accounts(), k.value, id, Deposit(amount, at));
      return Success(k.value);
    }

    method WithdrawFrom(id: string, amount: nat, at: Instant) returns (r: Result<nat, Error>)
      requires Valid()
      modifies this
      ensures Valid() && Performed(old(Accounts()), Accounts(), id, Withdraw(amount, at), r)
      ensures r.Failure? ==> goals == old(goals) && txs == old(txs)
      ensures r == Failure(InsufficientBalance) ==>
        exists k: nat :: IsGoal(goals, k, id) && goals[k].currentAmount < amount
      ensures r.Success? ==>
        && IsGoal(old(goals), r.value, id) && amount <= old(goals)[r.value].currentAmount
        && goals == old(goals)[r.value := old(goals)[r.value].(currentAmount := old(goals)[r.value].currentAmount - amount)]
        && txs == old(txs) + [Tx(id, WITHDRAW, amount, at)]
    {
      var k := FindGoal(id);
      if k.None? { return Failure(GoalNotFound); }
      var g := goals[k.value];
      if g.currentAmount < amount {
        assert RefusedFor(Accounts()[k.value], id, Withdraw(amount, at), InsufficientBalance);
        return Failure(InsufficientBalance);
      }
      Save(k.value, g.(currentAmount := g.currentAmount - amount), Some(Tx(id, WITHDRAW, amount, at)));
      assert AppliedTo(old(Accounts()), Accounts(), k.value, id, Withdraw(amount, at));
      return Success(k.value);
    }

    method UpdateGoal(id: string, autoDeposit: Option<bool>, monthlyAmount: Option<nat>, depositDay: Option<int>)
      returns (r: Result<nat, Error>)
      requires Valid()
      modifies this
      ensures Valid() && Performed(old(Accounts()), Accounts(), id, Update(autoDeposit, monthlyAmount, depositDay), r)
      ensures txs == old(txs) && (r.Failure? ==> goals == old(goals))
      ensures r == Failure(MonthlyAmountRequired) ==>
        exists k: nat :: IsGoal(goals, k, id) && LacksAmount(goals[k], autoDeposit, monthlyAmount)
      ensures r.Success? ==>
        && IsGoal(old(goals), r.value, id) && |goals| == |old(goals)|
        && !LacksAmount(old(goals)[r.value], autoDeposit, monthlyAmount)
        && Updated(old(goals)[r.value], goals[r.value], autoDeposit, monthlyAmount, depositDay)
        && goals == old(goals)[r.value := goals[r.value]]
    {
      var k := FindGoal(id);
      if k.None? { return Failure(GoalNotFound); }
      var g := goals[k.value];
      var nextAutoDeposit := if autoDeposit.Some? then autoDeposit.value else g.autoDeposit;
      if nextAutoDeposit && !Positive(monthlyAmount) && g.monthlyAmount.None? {
        assert RefusedFor(Accounts()[k.value], id, Update(autoDeposit, monthlyAmount, depositDay), MonthlyAmountRequired);
        return Failure(MonthlyAmountRequired);
      }
      if monthlyAmount.Some? { g := g.(monthlyAmount := monthlyAmount); }
      if autoDeposit == Some(false) { g := g.(monthlyAmount := None); }
      if depositDay.Some? { g := g.(depositDay := depositDay.value); }
      Save(k.value, g.(autoDeposit := nextAutoDeposit), None);
      return Success(k.value);
    }

    method PauseGoal(id: string) returns (r: Result<nat, Error>)
      requires Valid()
      modifies this
      ensures Valid() && Performed(old(Accounts()), Accounts(), id, Pause, r)
      ensures txs == old(txs) && (r.Failure? ==> goals == old(goals))
      ensures r == Failure(NoAutoDeposit) ==> exists k: nat :: IsGoal(goals, k, id) && !goals[k].autoDeposit
      ensures r == Failure(AlreadyPaused) ==>
        exists k: nat :: IsGoal(goals, k, id) && goals[k].autoDeposit && goals[k].status == PAUSED
      ensures r.Success? ==>
        && IsGoal(old(goals), r.value, id)
        && old(goals)[r.value].autoDeposit && old(goals)[r.value].status == ACTIVE
        && goals == old(goals)[r.value := old(goals)[r.value].(status := PAUSED)]
    {
      var k := FindGoal(id);
      if k.None? { return Failure(GoalNotFound); }
      var g := goals[k.value];
      assert Refusal(g, Pause).Some? ==> RefusedFor(Accounts()[k.value], id, Pause, Refusal(g, Pause).value);
      if !g.autoDeposit { return Failure(NoAutoDeposit); }
      if g.status == PAUSED { return Failure(AlreadyPaused); }
      Save(k.value, g.(status := PAUSED), None);
      return Success(k.value);
    }

    method ResumeGoal(id: string) returns (r: Result<nat, Error>)
      requires Valid()
      modifies this
      ensures Valid() && Performed(old(Accounts()), Accounts(), id, Resume, r)
      ensures txs == old(txs) && (r.Failure? ==> goals == old(goals))
      ensures r == Failure(NoAutoDeposit) ==> exists k: nat :: IsGoal(goals, k, id) && !goals[k].autoDeposit
      ensures r == Failure(AlreadyActive) ==>
        exists k: nat :: IsGoal(goals, k, id) && goals[k].autoDeposit && goals[k].status == ACTIVE
      ensures r.Success? ==>
        && IsGoal(old(goals), r.value, id)
        && old(goals)[r.value].autoDeposit && old(goals)[r.value].status == PAUSED
        && goals == old(goals)[r.value := old(goals)[r.value].(status := ACTIVE)]
    {
      var k := FindGoal(id);
      if k.None? { return Failure(GoalNotFound); }
      var g := goals[k.value];
      assert Refusal(g, Resume).Some? ==> RefusedFor(Accounts()[k.value], id, Resume, Refusal(g, Resume).value);
      if !g.autoDeposit { return Failure(NoAutoDeposit); }
      if g.status == ACTIVE { return Failure(AlreadyActive); }
      Save(k.value, g.(status := ACTIVE), None);
      return Success(k.value);
    }

    // One scheduler run: every goal takes one AutoDeposit step, or none when the lock is held.
    method RunAutoDeposit(acquired: bool, at: Instant)
      requires Valid()
      modifies this
      ensures Valid() && |goals| == |old(goals)|
      ensures !acquired ==> goals == old(goals) && txs == old(txs)
      ensures acquired ==> forall k :: 0 <= k < |goals| ==>
        Accounts()[k] == Apply(old(Accounts())[k], AutoDeposit(at))
        && TookAutoDeposit(old(Accounts())[k], Accounts()[k], at)
    {
      if !acquired { return; }
      ghost var before := Accounts();
      for i := 0 to |goals|
        invariant Valid() && |goals| == |before| == |old(goals)|
        invariant forall k :: 0 <= k < i ==> Accounts()[k] == Apply(before[k], AutoDeposit(at))
        invariant forall k :: i <= k < |goals| ==> Accounts()[k] == before[k]
      {
        var g := goals[i];
        assert before[i] == Account(g, TxsOf(txs, g.id));
        if Pays(AutoLog(TxsOf(txs, g.id)), VisitOf(g, at)) {
          var amount := g.monthlyAmount.value;
          Save(i, g.(currentAmount := g.currentAmount + amount), Some(Tx(g.id, AUTO_DEPOSIT, amount, at)));
        }
      }
    }
  }

  // A call either fails and changes nothing, or applies the event to the goal with that id only.
  ghost predicate Performed(before: seq<Account>, after: seq<Account>, id: string, e: Event, r: Result<nat, Error>) {
    match r
    case Failure(GoalNotFound) =>
      after == before && forall i :: 0 <= i < |before| ==> before[i].goal.id != id
    case Failure(error) =>
      after == before && exists k :: 0 <= k < |before| && RefusedFor(before[k], id, e, error)
    case Success(k) => AppliedTo(before, after, k, id, e)
  }

  ghost predicate RefusedFor(a: Account, id: string, e: Event, error: Error) {
    a.goal.id == id && Refusal(a.goal, e) == Some(error)
  }

  ghost predicate AppliedTo(before: seq<Account>, after: seq<Account>, k: nat, id: string, e: Event) {
    && k < |before| && before[k].goal.id == id
    && Refusal(before[k].goal, e) == None
    && after == before[k := Apply(before[k], e)]
  }
}

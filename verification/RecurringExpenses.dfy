// Recurring expenses: the back-fill at registration and the daily tick of the household scheduler.
module RecurringExpenses {
  import opened Wrappers
  import opened Calendar

  datatype RecurringRow = RecurringRow(
    id: string, dayOfMonth: int, startMonth: Option<nat>, totalMonths: Option<nat>,
    amount: int, isVariable: bool, isActive: bool)

  // The registration form only admits a day between 1 and 31.
  type Recurring = r: RecurringRow | 1 <= r.dayOfMonth <= 31
    witness RecurringRow("", 1, None, None, 0, false, true)

  datatype Expense = Expense(recurringId: string, date: Date, amount: int, isConfirmed: bool)

  datatype Error = TotalMonthsRequiresStartDate

  // A missing start, a missing total and a total of 0 all mean "no end".
  predicate Bounded(rec: Recurring) {
    rec.startMonth.Some? && rec.totalMonths.Some? && rec.totalMonths.value > 0
  }

  predicate Ended(rec: Recurring, month: nat) {
    Bounded(rec) && month > rec.startMonth.value + rec.totalMonths.value - 1
  }

  function EndDate(rec: Recurring): Option<Date> {
    if Bounded(rec) then Some(Day(rec.startMonth.value + rec.totalMonths.value - 1, 1)) else None
  }

  // The series ends with the first of the last of its months.
  lemma EndDateIsInLastMonth(rec: Recurring, month: nat)
    ensures EndDate(rec).Some? <==> rec.startMonth.Some? && rec.totalMonths.Some? && rec.totalMonths.value > 0
    ensures EndDate(rec).Some? ==>
      EndDate(rec).value.day == 1 && EndDate(rec).value.month + 1 == rec.startMonth.value + rec.totalMonths.value
    ensures Ended(rec, month) <==> EndDate(rec).Some? && month > EndDate(rec).value.month
  {
  }

  function DueDate(rec: Recurring, month: nat): (d: Date)
    ensures d.month == month
  {
    Day(month, ClampDayOfMonth(month, rec.dayOfMonth))
  }

  function Row(rec: Recurring, date: Date): Expense {
    Expense(rec.id, date, rec.amount, !rec.isVariable)
  }

  // The dates of the stored rows of one recurring expense, oldest row first.
  function DatesOf(expenses: seq<Expense>, id: string): (dates: seq<Date>)
  {
    if expenses == [] then []
    else
      var n := |expenses| - 1;
      DatesOf(expenses[..n], id) + if expenses[n].recurringId == id then [expenses[n].date] else []
  }

  // ---- Registration -------------------------------------------------------------------

  // What back-filling the months from .. end (exclusive) adds beside the dates already stored.
  function Backfill(rec: Recurring, stored: seq<Date>, from: nat, end: nat): seq<Date>
    decreases end
  {
    if end <= from then []
    else
      var due := DueDate(rec, end - 1);
      Backfill(rec, stored, from, end - 1)
      + if !Ended(rec, end - 1) && due !in stored then [due] else []
  }

  function Rows(rec: Recurring, dates: seq<Date>): seq<Expense> {
    seq(|dates|, i requires 0 <= i < |dates| => Row(rec, dates[i]))
  }

  method ListMonthsFromStartToNow(start: nat, now: nat) returns (months: seq<nat>)
    ensures |months| == if start <= now then now - start + 1 else 0
    ensures forall i :: 0 <= i < |months| ==> months[i] == start + i
  {
    months := [];
    var idx := start;
    while idx <= now
      invariant start <= idx && idx <= if start <= now then now + 1 else start
      invariant |months| == idx - start
      invariant forall i :: 0 <= i < |months| ==> months[i] == start + i
    {
      months := months + [idx];
      idx := idx + 1;
    }
  }

  // ---- The daily tick, for one recurring expense --------------------------------------

  datatype Series = Series(rec: Recurring, dates: seq<Date>)

  function AfterTick(rec: Recurring, today: Date): Recurring {
    if rec.isActive && Ended(rec, today.month) then rec.(isActive := false) else rec
  }

  predicate Creates(rec: Recurring, dates: seq<Date>, today: Date) {
    rec.isActive && !Ended(rec, today.month) && DueDate(rec, today.month) == today && today !in dates
  }

  function Tick(s: Series, today: Date): Series {
    Series(AfterTick(s.rec, today), s.dates + if Creates(s.rec, s.dates, today) then [today] else [])
  }

  function Run(s: Series, ticks: seq<Date>): Series {
    if ticks == [] then s
    else Tick(Run(s, ticks[..|ticks| - 1]), ticks[|ticks| - 1])
  }

  // A new row is active; with a start month it is back-filled up to the month of registration.
  function Registered(rec: Recurring, today: Date): Series {
    Series(rec, if rec.startMonth.Some? then Backfill(rec, [], rec.startMonth.value, today.month + 1) else [])
  }

  // ---- The stores as the services update them -----------------------------------------

  function Created(recs: seq<Recurring>, expenses: seq<Expense>, today: Date): seq<Expense> {
    if recs == [] then []
    else
      var rec := recs[|recs| - 1];
      Created(recs[..|recs| - 1], expenses, today)
      + if Creates(rec, DatesOf(expenses, rec.id), today) then [Row(rec, today)] else []
  }

  // The expense has the row's amount, and is confirmed unless that varies.
  predicate TellsRow(e: Expense, rec: Recurring) {
    e.recurringId == rec.id && e.amount == rec.amount && e.isConfirmed != rec.isVariable
  }

  ghost predicate TellsItsRow(e: Expense, recs: seq<Recurring>) {
    exists rec :: rec in recs && TellsRow(e, rec)
  }

  ghost predicate AllTellTheirRow(expenses: seq<Expense>, recs: seq<Recurring>) {
    forall e :: e in expenses ==> TellsItsRow(e, recs)
  }

  lemma RowsTell(rec: Recurring, dates: seq<Date>, recs: seq<Recurring>)
    requires rec in recs
    ensures AllTellTheirRow(Rows(rec, dates), recs)
  {
    forall e | e in Rows(rec, dates) ensures TellsItsRow(e, recs) {
      assert TellsRow(e, rec);
    }
  }

  lemma {:induction false} CreatedTell(recs: seq<Recurring>, expenses: seq<Expense>, today: Date)
    ensures AllTellTheirRow(Created(recs, expenses, today), recs)
  {
    if recs != [] {
      var n := |recs| - 1;
      CreatedTell(recs[..n], expenses, today);
      assert TellsRow(Row(recs[n], today), recs[n]);
      forall e | e in Created(recs[..n], expenses, today) ensures TellsItsRow(e, recs) {
        var rec :| rec in recs[..n] && TellsRow(e, rec);
        assert rec in recs;
      }
    }
  }

  // The rows with the same ids, amounts and kinds.
  ghost predicate SameTerms(recs: seq<Recurring>, others: seq<Recurring>) {
    |recs| == |others| && forall i :: 0 <= i < |recs| ==>
      recs[i].id == others[i].id && recs[i].amount == others[i].amount && recs[i].isVariable == others[i].isVariable
  }

  lemma StillTell(expenses: seq<Expense>, recs: seq<Recurring>, others: seq<Recurring>)
    requires AllTellTheirRow(expenses, recs)
    requires recs <= others || SameTerms(recs, others)
    ensures AllTellTheirRow(expenses, others)
  {
    forall e | e in expenses ensures TellsItsRow(e, others) {
      var rec :| rec in recs && TellsRow(e, rec);
      var i :| 0 <= i < |recs| && recs[i] == rec;
      assert TellsRow(e, others[i]) && others[i] in others;
    }
  }

  ghost predicate Posted(expenses: seq<Expense>, id: string, date: Date) {
    exists e :: e in expenses && e.recurringId == id && e.date == date
  }

  lemma {:induction false} PostedIff(expenses: seq<Expense>, id: string, date: Date)
    ensures date in DatesOf(expenses, id) <==> Posted(expenses, id, date)
  {
    if expenses != [] {
      var n := |expenses| - 1;
      PostedIff(expenses[..n], id, date);
      assert expenses[n] in expenses && expenses == expenses[..n] + [expenses[n]];
    }
  }

  // What the tick of a day makes of a row: it is closed once its months are over, and has an
  // expense on the day if it had one, or if it is running and the day is its clamped day.
  ghost predicate TickedOnce(
    before: seq<Expense>, expenses: seq<Expense>, was: Recurring, now: Recurring, today: Date)
  {
    var over := was.startMonth.Some? && was.totalMonths.Some? && was.totalMonths.value > 0
      && was.startMonth.value + was.totalMonths.value <= today.month;
    && now == was.(isActive := was.isActive && !over)
    && (Posted(expenses, was.id, today) <==>
        || Posted(before, was.id, today)
        || (now.isActive && today == Day(today.month, ClampDayOfMonth(today.month, was.dayOfMonth))))
  }

  lemma TickIsTickedOnce(before: seq<Expense>, expenses: seq<Expense>, was: Recurring, now: Recurring, today: Date)
    requires Series(now, DatesOf(expenses, was.id)) == Tick(Series(was, DatesOf(before, was.id)), today)
    ensures TickedOnce(before, expenses, was, now, today)
  {
    PostedIff(before, was.id, today);
    PostedIff(expenses, was.id, today);
  }

  class Household {
    var recurring: seq<Recurring>
    var expenses: seq<Expense>

    ghost predicate Valid()
      reads this
    {
      && (forall i, j :: 0 <= i < j < |recurring| ==> recurring[i].id != recurring[j].id)
      && AllTellTheirRow(expenses, recurring)
    }

    ghost function SeriesAt(k: nat): Series
      requires k < |recurring|
      reads this
    {
      Series(recurring[k], DatesOf(expenses, recurring[k].id))
    }

    constructor ()
      ensures Valid() && recurring == [] && expenses == []
    {
      recurring, expenses := [], [];
    }

    // Registration: validates, stores the row as active and back-fills it.
    method CreateRecurringExpense(form: Recurring, today: Date) returns (r: Result<Option<Date>, Error>)
      requires Valid()
      requires forall i :: 0 <= i < |recurring| ==> recurring[i].id != form.id
      requires DatesOf(expenses, form.id) == []
      modifies this
      ensures Valid()
      ensures r.Failure? <==> form.totalMonths.Some? && form.startMonth.None?
      ensures r.Failure? ==> recurring == old(recurring) && expenses == old(expenses)
      ensures r.Success? ==>
        && r.value == EndDate(form)
        && recurring == old(recurring) + [form.(isActive := true)]
        && SeriesAt(|recurring| - 1) == Registered(form.(isActive := true), today)
        && old(expenses) <= expenses
        && forall k :: 0 <= k < |old(recurring)| ==> SeriesAt(k) == old(SeriesAt(k))
    {
      if form.totalMonths.Some? && form.startMonth.None? {
        return Failure(TotalMonthsRequiresStartDate);
      }
      var rec := form.(isActive := true);
      StillTell(expenses, recurring, recurring + [rec]);
      recurring := recurring + [rec];
      if rec.startMonth.Some? {
        RowsTell(rec, Backfill(rec, DatesOf(expenses, rec.id), rec.startMonth.value, today.month + 1), recurring);
        BackfillRecurringExpense(rec, today);
      }
      return Success(EndDate(rec));
    }

    method BackfillRecurringExpense(rec: Recurring, today: Date)
      requires rec.startMonth.Some?
      modifies this`expenses
      ensures old(expenses) <= expenses
      ensures forall i :: |old(expenses)| <= i < |expenses| ==> TellsRow(expenses[i], rec)
      ensures expenses == old(expenses)
        + Rows(rec, Backfill(rec, DatesOf(old(expenses), rec.id), rec.startMonth.value, today.month + 1))
      ensures DatesOf(expenses, rec.id) == DatesOf(old(expenses), rec.id)
        + Backfill(rec, DatesOf(old(expenses), rec.id), rec.startMonth.value, today.month + 1)
      ensures forall id :: id != rec.id ==> DatesOf(expenses, id) == DatesOf(old(expenses), id)
    {
      var start := rec.startMonth.value;
      var months := ListMonthsFromStartToNow(start, today.month);
      var stored := DatesOf(expenses, rec.id);
      var toCreate := [];
      for i := 0 to |months|
        invariant toCreate == Backfill(rec, stored, start, start + i)
      {
        var month := months[i];
        if !Ended(rec, month) {
          var date := DueDate(rec, month);
          if date !in stored {
            toCreate := toCreate + [date];
          }
        }
      }
      assert toCreate == Backfill(rec, stored, start, today.month + 1);
      ghost var before := expenses;
      expenses := expenses + Rows(rec, toCreate);
      forall id
        ensures DatesOf(expenses, id) == DatesOf(before, id) + if id == rec.id then toCreate else []
      {
        DatesOfConcat(before, Rows(rec, toCreate), id);
        DatesOfRows(rec, toCreate, id);
      }
    }

    // 00:05 KST every day: close what has ended, then create today's rows.
    method AutoGenerateRecurringExpenses(today: Date)
      requires Valid()
      modifies this
      ensures Valid() && |recurring| == |old(recurring)| && old(expenses) <= expenses
      ensures expenses == old(expenses) + Created(old(recurring), old(expenses), today)
      ensures forall k :: 0 <= k < |recurring| ==> SeriesAt(k) == Tick(old(SeriesAt(k)), today)
      ensures forall k :: 0 <= k < |recurring| ==>
        TickedOnce(old(expenses), expenses, old(recurring)[k], recurring[k], today)
    {
      var list := recurring;
      var next: seq<Recurring> := [];
      for i := 0 to |list|
        invariant |next| == i
        invariant forall j :: 0 <= j < i ==> next[j] == AfterTick(list[j], today)
      {
        next := next + [AfterTick(list[i], today)];
      }
      StillTell(expenses, list, next);
      recurring := next;

      var toCreate: seq<Expense> := [];
      for i := 0 to |list|
        invariant toCreate == Created(list[..i], expenses, today)
      {
        var rec := list[i];
        assert list[..i + 1][..i] == list[..i];
        if rec.isActive && !Ended(rec, today.month) {
          var targetDay := ClampDayOfMonth(today.month, rec.dayOfMonth);
          if targetDay == today.day && Day(today.month, targetDay) !in DatesOf(expenses, rec.id) {
            toCreate := toCreate + [Row(rec, today)];
          }
        }
      }
      assert list[..|list|] == list;
      ghost var before := expenses;
      expenses := expenses + toCreate;
      CreatedTell(list, before, today);
      StillTell(toCreate, list, recurring);
      forall k | 0 <= k < |list|
        ensures SeriesAt(k) == Tick(Series(list[k], DatesOf(before, list[k].id)), today)
        ensures TickedOnce(before, expenses, list[k], recurring[k], today)
      {
        DatesOfConcat(before, toCreate, list[k].id);
        CreatedPerSeries(list, before, today, k);
        TickIsTickedOnce(before, expenses, list[k], recurring[k], today);
      }
    }
  }

  lemma {:induction false} DatesOfConcat(a: seq<Expense>, b: seq<Expense>, id: string)
    ensures DatesOf(a + b, id) == DatesOf(a, id) + DatesOf(b, id)
  {
    if b == [] {
      assert a + b == a;
    } else {
      DatesOfConcat(a, b[..|b| - 1], id);
      assert (a + b)[..|a + b| - 1] == a + b[..|b| - 1];
    }
  }

  lemma {:induction false} DatesOfRows(rec: Recurring, dates: seq<Date>, id: string)
    ensures DatesOf(Rows(rec, dates), id) == if id == rec.id then dates else []
  {
    if dates != [] {
      var n := |dates| - 1;
      DatesOfRows(rec, dates[..n], id);
      assert Rows(rec, dates)[..n] == Rows(rec, dates[..n]);
      assert dates == dates[..n] + [dates[n]];
    }
  }

  lemma DatesOfOne(rows: seq<Expense>, id: string)
    requires |rows| <= 1
    ensures DatesOf(rows, id) == if |rows| == 1 && rows[0].recurringId == id then [rows[0].date] else []
  {
    if |rows| == 1 {
      assert DatesOf(rows[..0], id) == [];
    }
  }

  lemma {:induction false} CreatedForAbsent(recs: seq<Recurring>, expenses: seq<Expense>, today: Date, id: string)
    requires forall i :: 0 <= i < |recs| ==> recs[i].id != id
    ensures DatesOf(Created(recs, expenses, today), id) == []
  {
    if recs != [] {
      var n := |recs| - 1;
      CreatedForAbsent(recs[..n], expenses, today, id);
      var last := if Creates(recs[n], DatesOf(expenses, recs[n].id), today) then [Row(recs[n], today)] else [];
      DatesOfConcat(Created(recs[..n], expenses, today), last, id);
    }
  }

  // One tick over all stored rows is one tick of each row's own series.
  lemma {:induction false} CreatedPerSeries(recs: seq<Recurring>, expenses: seq<Expense>, today: Date, k: nat)
    requires k < |recs|
    requires forall i, j :: 0 <= i < j < |recs| ==> recs[i].id != recs[j].id
    ensures DatesOf(Created(recs, expenses, today), recs[k].id)
         == if Creates(recs[k], DatesOf(expenses, recs[k].id), today) then [today] else []
  {
    var n, id := |recs| - 1, recs[k].id;
    var init := recs[..n];
    var last := if Creates(recs[n], DatesOf(expenses, recs[n].id), today) then [Row(recs[n], today)] else [];
    assert Created(recs, expenses, today) == Created(init, expenses, today) + last;
    DatesOfConcat(Created(init, expenses, today), last, id);
    if k == n {
      CreatedForAbsent(init, expenses, today, id);
      DatesOfOne(last, id);
    } else {
      assert init[k] == recs[k];
      CreatedPerSeries(init, expenses, today, k);
      DatesOfOne(last, id);
    }
  }

  // ---- At most one expense per month --------------------------------------------------

  ghost predicate OnDueDates(s: Series) {
    && (forall d :: d in s.dates ==> d == DueDate(s.rec, d.month))
    && (forall i, j :: 0 <= i < j < |s.dates| ==> s.dates[i].month != s.dates[j].month)
    && (forall d :: d in s.dates ==> !Ended(s.rec, d.month))
  }

  lemma {:induction false} BackfillMonths(rec: Recurring, from: nat, end: nat, d: Date)
    ensures d in Backfill(rec, [], from, end) <==> from <= d.month < end && !Ended(rec, d.month) && d == DueDate(rec, d.month)
    decreases end
  {
    if from < end {
      BackfillMonths(rec, from, end - 1, d);
    }
  }

  lemma {:induction false} BackfillMonthsDiffer(rec: Recurring, from: nat, end: nat)
    ensures var dates := Backfill(rec, [], from, end);
      forall i, j :: 0 <= i < j < |dates| ==> dates[i].month < dates[j].month
    decreases end
  {
    if from < end {
      BackfillMonthsDiffer(rec, from, end - 1);
      var before, dates := Backfill(rec, [], from, end - 1), Backfill(rec, [], from, end);
      forall i, j | 0 <= i < j < |dates| ensures dates[i].month < dates[j].month {
        assert dates[i] == before[i] && before[i] in before;
        BackfillMonths(rec, from, end - 1, before[i]);
        if j < |before| {
          assert dates[j] == before[j];
        }
      }
    }
  }

  lemma BackfillShape(rec: Recurring, from: nat, end: nat)
    ensures OnDueDates(Series(rec, Backfill(rec, [], from, end)))
    ensures forall m: nat :: DueDate(rec, m) in Backfill(rec, [], from, end) <==> from <= m < end && !Ended(rec, m)
  {
    var dates := Backfill(rec, [], from, end);
    forall d: Date ensures d in dates <==> from <= d.month < end && !Ended(rec, d.month) && d == DueDate(rec, d.month) {
      BackfillMonths(rec, from, end, d);
    }
    BackfillMonthsDiffer(rec, from, end);
  }

  lemma SameSchedule(s: Series, ticks: seq<Date>, m: nat)
    ensures Ended(Run(s, ticks).rec, m) == Ended(s.rec, m)
    ensures DueDate(Run(s, ticks).rec, m) == DueDate(s.rec, m)
  {
  }

  lemma {:induction false} OneExpensePerMonth(rec: Recurring, today: Date, ticks: seq<Date>)
    ensures OnDueDates(Run(Registered(rec, today), ticks))
  {
    if ticks == [] {
      if rec.startMonth.Some? {
        BackfillShape(rec, rec.startMonth.value, today.month + 1);
      }
    } else {
      OneExpensePerMonth(rec, today, ticks[..|ticks| - 1]);
    }
  }

  // ---- Which months get an expense ----------------------------------------------------

  lemma {:induction false} DatesGrow(s: Series, ticks: seq<Date>, i: nat)
    requires i <= |ticks|
    ensures Run(s, ticks[..i]).dates <= Run(s, ticks).dates
  {
    if i == |ticks| {
      assert ticks[..i] == ticks;
    } else {
      DatesGrow(s, ticks[..|ticks| - 1], i);
      assert ticks[..|ticks| - 1][..i] == ticks[..i];
    }
  }

  lemma {:induction false} DatesComeFromTicks(s: Series, ticks: seq<Date>, d: Date)
    requires d in Run(s, ticks).dates
    ensures d in s.dates || d in ticks
  {
    if ticks != [] {
      var n := |ticks| - 1;
      if d in Run(s, ticks[..n]).dates {
        DatesComeFromTicks(s, ticks[..n], d);
      }
    }
  }

  lemma {:induction false} StaysActive(s: Series, ticks: seq<Date>)
    requires forall d :: d in ticks ==> !Ended(s.rec, d.month)
    ensures Run(s, ticks).rec == s.rec
  {
    if ticks != [] {
      StaysActive(s, ticks[..|ticks| - 1]);
    }
  }

  // A tick on a due date inside the window leaves an expense on that date.
  lemma {:induction false} DueTickFills(s: Series, ticks: seq<Date>, i: nat)
    requires i < |ticks| && s.rec.isActive
    requires ticks[i] == DueDate(s.rec, ticks[i].month)
    requires forall j :: 0 <= j <= i ==> !Ended(s.rec, ticks[j].month)
    ensures ticks[i] in Run(s, ticks).dates
  {
    StaysActive(s, ticks[..i]);
    assert ticks[..i + 1][..i] == ticks[..i];
    assert ticks[i] in Run(s, ticks[..i + 1]).dates;
    DatesGrow(s, ticks, i + 1);
  }

  ghost predicate HasExpenseIn(s: Series, month: nat) {
    exists d :: d in s.dates && d.month == month
  }

  // The first month in which a tick on or after today can fall on the due date.
  function FirstDueMonth(rec: Recurring, today: Date): nat {
    if NotAfter(today, DueDate(rec, today.month)) then today.month else today.month + 1
  }

  ghost predicate InWindow(rec: Recurring, month: nat) {
    && (rec.startMonth.Some? ==> rec.startMonth.value <= month)
    && !Ended(rec, month)
  }

  lemma {:induction false} ExpensesOnlyInWindow(rec: Recurring, today: Date, ticks: seq<Date>, month: nat)
    requires rec.startMonth.Some? && rec.startMonth.value <= today.month
    requires Consecutive(ticks)
    requires |ticks| > 0 ==> NotAfter(today, ticks[0])
    requires HasExpenseIn(Run(Registered(rec, today), ticks), month)
    ensures InWindow(rec, month)
    ensures month <= today.month || (|ticks| > 0 && NotAfter(DueDate(rec, month), ticks[|ticks| - 1]))
  {
    var s := Registered(rec, today);
    BackfillShape(rec, rec.startMonth.value, today.month + 1);
    OneExpensePerMonth(rec, today, ticks);
    SameSchedule(s, ticks, month);
    var due := DueDate(rec, month);
    assert due in Run(s, ticks).dates;
    DatesComeFromTicks(s, ticks, due);
    if due !in s.dates {
      var i :| 0 <= i < |ticks| && ticks[i] == due;
      if i > 0 { ConsecutiveDaysIncrease(ticks, 0, i); }
      if i < |ticks| - 1 { ConsecutiveDaysIncrease(ticks, i, |ticks| - 1); }
    }
  }

  lemma {:induction false} WindowGetsExpenses(rec: Recurring, today: Date, ticks: seq<Date>, month: nat)
    requires rec.isActive && rec.startMonth.Some? && InWindow(rec, month)
    requires Consecutive(ticks)
    requires |ticks| > 0 ==> ticks[0] == today || ticks[0] == Next(today)
    requires month <= today.month || (|ticks| > 0 && NotAfter(DueDate(rec, month), ticks[|ticks| - 1]))
    ensures HasExpenseIn(Run(Registered(rec, today), ticks), month)
  {
    var s := Registered(rec, today);
    var due := DueDate(rec, month);
    if month <= today.month {
      BackfillShape(rec, rec.startMonth.value, today.month + 1);
      assert due in s.dates;
      DatesGrow(s, ticks, 0);
    } else {
      assert NotAfter(ticks[0], due);
      ConsecutiveDaysCover(ticks, due);
      var i :| 0 <= i < |ticks| && ticks[i] == due;
      forall j | 0 <= j <= i ensures ticks[j].month <= month {
        if j < i { ConsecutiveDaysIncrease(ticks, j, i); }
      }
      DueTickFills(s, ticks, i);
    }
  }

  lemma {:induction false} DailyTicksFillExactlyTheWindow(rec: Recurring, today: Date, ticks: seq<Date>, month: nat)
    requires rec.isActive && rec.startMonth.Some? && rec.startMonth.value <= today.month
    requires Consecutive(ticks)
    requires |ticks| > 0 ==> ticks[0] == today || ticks[0] == Next(today)
    ensures HasExpenseIn(Run(Registered(rec, today), ticks), month)
       <==> && InWindow(rec, month)
            && (month <= today.month
                || (|ticks| > 0 && NotAfter(DueDate(rec, month), ticks[|ticks| - 1])))
  {
    if HasExpenseIn(Run(Registered(rec, today), ticks), month) {
      ExpensesOnlyInWindow(rec, today, ticks, month);
    } else if InWindow(rec, month)
        && (month <= today.month || (|ticks| > 0 && NotAfter(DueDate(rec, month), ticks[|ticks| - 1]))) {
      WindowGetsExpenses(rec, today, ticks, month);
    }
  }

  lemma {:induction false} DistinctMonthsCount(months: seq<nat>, start: nat, n: nat)
    requires forall i, j :: 0 <= i < j < |months| ==> months[i] != months[j]
    requires forall m :: m in months <==> start <= m < start + n
    ensures |months| == n
  {
    if n == 0 {
      assert forall i :: 0 <= i < |months| ==> months[i] in months;
    } else {
      assert start + n - 1 in months;
      var i :| 0 <= i < |months| && months[i] == start + n - 1;
      var rest := months[..i] + months[i + 1..];
      forall m ensures m in rest <==> start <= m < start + n - 1 {
        if m in months && m != start + n - 1 {
          var j :| 0 <= j < |months| && months[j] == m;
          assert if j < i then rest[j] == m else rest[j - 1] == m;
        }
        if m in rest {
          assert m in months;
        }
      }
      DistinctMonthsCount(rest, start, n - 1);
    }
  }

  // With a tick every day up to the last due date, the series holds totalMonths expenses in all.
  lemma {:induction false} DailyTicksCreateTotalMonths(rec: Recurring, today: Date, ticks: seq<Date>)
    requires rec.isActive && Bounded(rec) && rec.startMonth.value <= today.month
    requires Consecutive(ticks)
    requires |ticks| > 0 ==> ticks[0] == today || ticks[0] == Next(today)
    requires var last := EndDate(rec).value.month;
      last <= today.month || (|ticks| > 0 && NotAfter(DueDate(rec, last), ticks[|ticks| - 1]))
    ensures |Run(Registered(rec, today), ticks).dates| == rec.totalMonths.value
  {
    var s := Run(Registered(rec, today), ticks);
    var start, n := rec.startMonth.value, rec.totalMonths.value;
    var months: seq<nat> := seq(|s.dates|, i requires 0 <= i < |s.dates| => s.dates[i].month);
    OneExpensePerMonth(rec, today, ticks);
    forall m: nat ensures m in months <==> start <= m < start + n {
      DailyTicksFillExactlyTheWindow(rec, today, ticks, m);
      if m in months {
        var i :| 0 <= i < |months| && months[i] == m;
        assert s.dates[i] in s.dates && s.dates[i].month == m;
      }
      if start <= m < start + n {
        assert InWindow(rec, m);
        assert HasExpenseIn(s, m);
        var d :| d in s.dates && d.month == m;
        var i :| 0 <= i < |s.dates| && s.dates[i] == d;
        assert months[i] == m;
      }
    }
    DistinctMonthsCount(months, start, n);
  }

  ghost predicate NoneBefore(ticks: seq<Date>, today: Date) {
    forall t :: t in ticks ==> NotAfter(today, t)
  }

  // A start month in the future is never checked by the tick. Every run keeps all its expenses
  // inside the window exactly when no due date falls between registration and the start month.
  lemma {:induction false} TicksRespectWindowIff(rec: Recurring, today: Date)
    requires rec.isActive
    ensures (forall ticks: seq<Date>, month: nat ::
               NoneBefore(ticks, today) && HasExpenseIn(Run(Registered(rec, today), ticks), month)
               ==> InWindow(rec, month))
       <==> rec.startMonth.None? || rec.startMonth.value <= FirstDueMonth(rec, today)
  {
    var s := Registered(rec, today);
    var first := FirstDueMonth(rec, today);
    if rec.startMonth.Some? {
      BackfillShape(rec, rec.startMonth.value, today.month + 1);
    }
    if rec.startMonth.None? || rec.startMonth.value <= first {
      forall ticks: seq<Date>, month: nat | NoneBefore(ticks, today) && HasExpenseIn(Run(s, ticks), month)
        ensures InWindow(rec, month)
      {
        OneExpensePerMonth(rec, today, ticks);
        SameSchedule(s, ticks, month);
        var d :| d in Run(s, ticks).dates && d.month == month;
        DatesComeFromTicks(s, ticks, d);
        assert d == DueDate(rec, month);
      }
    } else {
      var early := DueDate(rec, first);
      assert NotAfter(today, early);
      assert [early][..0] == [];
      DueTickFills(s, [early], 0);
      assert HasExpenseIn(Run(s, [early]), first);
      assert !InWindow(rec, first);
    }
  }
}

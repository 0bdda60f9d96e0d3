// Pure dates as the services store them: a month index (year * 12 + zero-based month) and a day.
module Calendar {

  datatype Day = Day(month: nat, day: int) {
    predicate Valid() {
      1 <= day <= DaysInMonth(month)
    }
  }

  type Date = d: Day | d.Valid() witness Day(0, 1)

  predicate IsLeapYear(year: int) {
    (year % 4 == 0 && year % 100 != 0) || year % 400 == 0
  }

  function Length(year: int, m: int): (n: int)
    ensures 28 <= n <= 31
  {
    if m == 1 then (if IsLeapYear(year) then 29 else 28)
    else if m == 3 || m == 5 || m == 8 || m == 10 then 30
    else 31
  }

  // Day 0 of the following month, as `new Date(Date.UTC(y, m + 1, 0))` computes it.
  function DaysInMonth(month: nat): (n: int)
    ensures 28 <= n <= 31
  {
    Length(month / 12, month % 12)
  }

  function ClampDayOfMonth(month: nat, dayOfMonth: int): int {
    if dayOfMonth <= DaysInMonth(month) then dayOfMonth else DaysInMonth(month)
  }

  function Next(d: Date): Date {
    if d.day < DaysInMonth(d.month) then Day(d.month, d.day + 1) else Day(d.month + 1, 1)
  }

  predicate Before(a: Day, b: Day) {
    a.month < b.month || (a.month == b.month && a.day < b.day)
  }

  predicate NotAfter(a: Day, b: Day) {
    a == b || Before(a, b)
  }

  // A run of days without a gap or a repeat.
  ghost predicate Consecutive(days: seq<Date>) {
    forall i :: 0 <= i < |days| - 1 ==> days[i + 1] == Next(days[i])
  }

  lemma NextIsLeastAfter(a: Date, b: Date)
    requires Before(a, b)
    ensures NotAfter(Next(a), b)
  {
  }

  // Walking day by day from a day no later than d to a day no earlier than d passes through d.
  lemma {:induction false} ConsecutiveDaysCover(days: seq<Date>, d: Date)
    requires Consecutive(days) && |days| > 0
    requires NotAfter(days[0], d) && NotAfter(d, days[|days| - 1])
    ensures d in days
  {
    if days[0] != d {
      NextIsLeastAfter(days[0], d);
      assert |days| > 1;
      assert days[1..][0] == Next(days[0]);
      ConsecutiveDaysCover(days[1..], d);
    }
  }

  lemma {:induction false} ConsecutiveDaysIncrease(days: seq<Date>, i: nat, j: nat)
    requires Consecutive(days) && i < j < |days|
    ensures Before(days[i], days[j])
    decreases j
  {
    if i < j - 1 {
      ConsecutiveDaysIncrease(days, i, j - 1);
    }
    assert days[j] == Next(days[j - 1]);
  }

  // ---- Against the day count of the proleptic Gregorian calendar ------------------------------

  // Leap days before March of a year.
  function LeapDays(year: int): int {
    year / 4 - year / 100 + year / 400
  }

  // Days before the first of a month, counted with years that begin in March, so that a leap day comes last.
  function DaysBefore(year: int, m: int): int {
    var fromMarch := if m < 2 then m + 10 else m - 2;
    var since := if m < 2 then year - 1 else year;
    365 * since + LeapDays(since) + (153 * fromMarch + 2) / 5
  }

  function DayCount(d: Day): int {
    DaysBefore(d.month / 12, d.month % 12) + d.day
  }

  lemma Quotient4(n: nat)
    ensures n / 4 - (n - 1) / 4 == if n % 4 == 0 then 1 else 0
  {
  }

  lemma Quotient100(n: nat)
    ensures n / 100 - (n - 1) / 100 == if n % 100 == 0 then 1 else 0
  {
  }

  lemma Quotient400(n: nat)
    ensures n / 400 - (n - 1) / 400 == if n % 400 == 0 then 1 else 0
  {
  }

  lemma FourTimes(k: nat)
    ensures (4 * k) % 4 == 0
  {
  }

  lemma HundredTimes(k: nat)
    ensures (100 * k) % 100 == 0
  {
  }

  lemma MultipleOf400(n: nat)
    ensures n % 400 == 0 ==> n % 100 == 0
  {
    if n % 400 == 0 {
      HundredTimes(4 * (n / 400));
      assert n == 100 * (4 * (n / 400));
    }
  }

  lemma MultipleOf100(n: nat)
    ensures n % 100 == 0 ==> n % 4 == 0
  {
    if n % 100 == 0 {
      FourTimes(25 * (n / 100));
      assert n == 4 * (25 * (n / 100));
    }
  }

  lemma LeapDayOfYear(year: nat)
    ensures LeapDays(year) - LeapDays(year - 1) == if IsLeapYear(year) then 1 else 0
  {
    Quotient4(year);
    Quotient100(year);
    Quotient400(year);
    MultipleOf400(year);
    MultipleOf100(year);
  }

  lemma LengthWithinYear(year: nat, m: int)
    requires 0 <= m < 12
    ensures (if m == 11 then DaysBefore(year + 1, 0) else DaysBefore(year, m + 1)) == DaysBefore(year, m) + Length(year, m)
  {
    if m == 1 {
      FebruaryLength(year);
    } else {
      OtherLength(year, m);
    }
  }

  lemma FebruaryLength(year: nat)
    ensures DaysBefore(year, 2) == DaysBefore(year, 1) + Length(year, 1)
  {
    LeapDayOfYear(year);
  }

  lemma OtherLength(year: nat, m: int)
    requires 0 <= m < 12 && m != 1
    ensures (if m == 11 then DaysBefore(year + 1, 0) else DaysBefore(year, m + 1)) == DaysBefore(year, m) + Length(year, m)
  {
  }

  lemma MonthAfter(month: nat)
    ensures (month + 1) / 12 == if month % 12 == 11 then month / 12 + 1 else month / 12
    ensures (month + 1) % 12 == if month % 12 == 11 then 0 else month % 12 + 1
  {
  }

  lemma LengthBetween(year: nat, m: int, nextYear: int, next: int)
    requires 0 <= m < 12
    requires nextYear == (if m == 11 then year + 1 else year) && next == (if m == 11 then 0 else m + 1)
    ensures DaysBefore(nextYear, next) == DaysBefore(year, m) + Length(year, m)
  {
    LengthWithinYear(year, m);
  }

  // The day after a date is one further in the count: every month has its length, leap years included.
  lemma NextCountsOne(d: Date)
    ensures DayCount(Next(d)) == DayCount(d) + 1
  {
    var year, m := d.month / 12, d.month % 12;
    if d.day == DaysInMonth(d.month) {
      var nextYear, next := (d.month + 1) / 12, (d.month + 1) % 12;
      MonthAfter(d.month);
      LengthBetween(year, m, nextYear, next);
      assert DayCount(Next(d)) == DaysBefore(nextYear, next) + 1;
    }
  }

  // The day of the month itself where the month has it, else the month's last day.
  lemma ClampIsLastUpTo(month: nat, dayOfMonth: int, day: int)
    requires 1 <= dayOfMonth && 1 <= day && Day(month, day).Valid()
    ensures ClampDayOfMonth(month, dayOfMonth) == day <==>
      day <= dayOfMonth && (day == dayOfMonth || Next(Day(month, day)).month != month)
  {
  }
}

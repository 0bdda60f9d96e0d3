// The once-a-month guard shared by the savings auto-deposit and the childcare allowance:
// which day pays, and how an earlier payout of the month is recognised.
module MonthlyPayouts {
  import opened Calendar

  // A point in time as the database stores it: UTC date and hour.
  datatype InstantRow = InstantRow(utc: Date, hour: int)

  type Instant = t: InstantRow | 0 <= t.hour < 24 witness InstantRow(Day(0, 1), 0)

  // Seoul is nine hours ahead of UTC, so its date has moved on from 15:00 UTC.
  function KstDate(t: Instant): Date {
    if t.hour < 15 then t.utc else Next(t.utc)
  }

  function KstMonth(t: Instant): nat {
    KstDate(t).month
  }

  // The same, by the hours and the day count.
  lemma KstIsNineHoursAhead(t: Instant)
    ensures DayCount(KstDate(t)) == DayCount(t.utc) + (t.hour + 9) / 24
  {
    NextCountsOne(t.utc);
  }

  // The pay day itself, or the last day of a month that does not have it.
  predicate DueToday(payDay: int, today: Date) {
    payDay == today.day || (today.day == DaysInMonth(today.month) && payDay > DaysInMonth(today.month))
  }

  // The guard compares stored UTC instants with the first and last millisecond, in UTC, of the
  // month that is current in Seoul.
  predicate PaidInMonth(log: seq<Instant>, month: nat) {
    exists i :: 0 <= i < |log| && log[i].utc.month == month
  }

  // What a run of the scheduler sees: settings can differ from one run to the next.
  datatype Visit = Visit(at: Instant, eligible: bool, payDay: int)

  predicate Pays(log: seq<Instant>, v: Visit) {
    v.eligible && DueToday(v.payDay, KstDate(v.at)) && !PaidInMonth(log, KstMonth(v.at))
  }

  function Pay(log: seq<Instant>, v: Visit): seq<Instant> {
    if Pays(log, v) then log + [v.at] else log
  }

  function PayAll(log: seq<Instant>, visits: seq<Visit>): seq<Instant> {
    if visits == [] then log
    else Pay(PayAll(log, visits[..|visits| - 1]), visits[|visits| - 1])
  }

  ghost predicate OncePerKstMonth(log: seq<Instant>) {
    forall i, j :: 0 <= i < j < |log| ==> KstMonth(log[i]) != KstMonth(log[j])
  }

  ghost predicate AllAtHour(visits: seq<Visit>, hour: int) {
    forall i :: 0 <= i < |visits| ==> visits[i].at.hour == hour
  }

  ghost predicate BeforeKstMidnight(log: seq<Instant>) {
    forall i :: 0 <= i < |log| ==> log[i].hour < 15
  }

  lemma {:induction false} AtMostOncePerMonth(log: seq<Instant>, visits: seq<Visit>)
    requires OncePerKstMonth(log) && BeforeKstMidnight(log)
    requires forall i :: 0 <= i < |visits| ==> visits[i].at.hour < 15
    ensures OncePerKstMonth(PayAll(log, visits)) && BeforeKstMidnight(PayAll(log, visits))
  {
    if visits != [] {
      AtMostOncePerMonth(log, visits[..|visits| - 1]);
    }
  }

  // The guard holds for a scheduler at one fixed UTC hour exactly when that hour is before
  // midnight in Seoul (the two schedulers run at 00:10 and 00:00 UTC).
  lemma {:induction false} OncePerMonthIffHourBefore15(hour: int)
    requires 0 <= hour < 24
    ensures (forall visits :: AllAtHour(visits, hour) ==> OncePerKstMonth(PayAll([], visits)))
       <==> hour < 15
  {
    if hour < 15 {
      forall visits | AllAtHour(visits, hour) ensures OncePerKstMonth(PayAll([], visits)) {
        AtMostOncePerMonth([], visits);
      }
    } else {
      PaysTwiceAfterKstMidnight(hour);
    }
  }

  // Pay day 1 at 31 January and pay day 2 at 1 February, both in the evening in UTC: both fall in
  // February in Seoul and both pay.
  lemma PaysTwiceAfterKstMidnight(hour: int)
    requires 15 <= hour < 24
    ensures var first, second := InstantRow(Day(0, 31), hour), InstantRow(Day(1, 1), hour);
      var visits := [Visit(first, true, 1), Visit(second, true, 2)];
      AllAtHour(visits, hour) && !OncePerKstMonth(PayAll([], visits))
  {
    var first: Instant, second: Instant := InstantRow(Day(0, 31), hour), InstantRow(Day(1, 1), hour);
    var visits := [Visit(first, true, 1), Visit(second, true, 2)];
    assert KstDate(first) == Day(1, 1) && KstDate(second) == Day(1, 2);
    assert visits[..1] == [visits[0]] && visits[..1][..0] == [];
    assert PayAll([], visits[..1]) == [first];
    var log := PayAll([], visits);
    assert log == [first, second];
    assert KstMonth(log[0]) == KstMonth(log[1]);
  }

  // ---- Exactly once with daily ticks ---------------------------------------------------

  ghost predicate DailyThroughMonth(visits: seq<Visit>, month: nat, payDay: int) {
    && |visits| == DaysInMonth(month)
    && forall i :: 0 <= i < |visits| ==>
         && visits[i].at.hour < 15
         && visits[i].at.utc == Day(month, i + 1)
         && visits[i].eligible
         && visits[i].payDay == payDay
  }

  lemma {:induction false} NothingBeforeTheDay(log: seq<Instant>, visits: seq<Visit>, month: nat, payDay: int, k: nat)
    requires DailyThroughMonth(visits, month, payDay)
    requires k < ClampDayOfMonth(month, payDay)
    ensures PayAll(log, visits[..k]) == log
  {
    if k > 0 {
      NothingBeforeTheDay(log, visits, month, payDay, k - 1);
      assert visits[..k][..k - 1] == visits[..k - 1];
    }
  }

  lemma {:induction false} NothingAfterTheDay(log: seq<Instant>, visits: seq<Visit>, month: nat, payDay: int, k: nat)
    requires DailyThroughMonth(visits, month, payDay) && 1 <= payDay
    requires !PaidInMonth(log, month)
    requires ClampDayOfMonth(month, payDay) <= k <= |visits|
    ensures PayAll(log, visits[..k]) == log + [visits[ClampDayOfMonth(month, payDay) - 1].at]
  {
    var day := ClampDayOfMonth(month, payDay);
    assert visits[..k][..k - 1] == visits[..k - 1];
    if k == day {
      NothingBeforeTheDay(log, visits, month, payDay, k - 1);
    } else {
      NothingAfterTheDay(log, visits, month, payDay, k - 1);
      assert PaidInMonth(PayAll(log, visits[..k - 1]), month) by {
        assert PayAll(log, visits[..k - 1])[|log|].utc.month == month;
      }
    }
  }

  // A month of daily runs, with a fixed pay day from 1 up (a day the month lacks included) and no
  // payout yet, adds exactly one payout, on the clamped pay day.
  lemma {:induction false} DailyVisitsPayExactlyOnce(log: seq<Instant>, visits: seq<Visit>, month: nat, payDay: int)
    requires DailyThroughMonth(visits, month, payDay) && 1 <= payDay
    requires !PaidInMonth(log, month)
    ensures |PayAll(log, visits)| == |log| + 1 && log <= PayAll(log, visits)
    ensures KstDate(PayAll(log, visits)[|log|]) == Day(month, ClampDayOfMonth(month, payDay))
  {
    NothingAfterTheDay(log, visits, month, payDay, |visits|);
    assert visits[..|visits|] == visits;
  }
}

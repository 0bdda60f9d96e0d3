// The asset trend: totals per period over all accounts, each account carried forward from its
// last record.
module AssetTrend {
  import opened Wrappers
  import opened Calendar

  datatype Amounts = Amounts(balance: int, principal: int, profit: int)

  datatype Record = Record(account: string, date: Date, amounts: Amounts)

  datatype Period = MONTHLY | YEARLY

  datatype Row = Row(period: nat, totals: Amounts)

  // A month index, or a year.
  function PeriodOf(date: Date, period: Period): nat {
    if period == MONTHLY then date.month else date.month / 12
  }

  ghost predicate SortedByDate(records: seq<Record>) {
    forall i, j :: 0 <= i <= j < |records| ==> NotAfter(records[i].date, records[j].date)
  }

  // ---- What a row means --------------------------------------------------------------------

  // The account's last record in or before period key.
  function LastUpTo(records: seq<Record>, account: string, period: Period, key: int): Option<Amounts> {
    if records == [] then None
    else
      var last := records[|records| - 1];
      if last.account == account && PeriodOf(last.date, period) <= key then Some(last.amounts)
      else LastUpTo(records[..|records| - 1], account, period, key)
  }

  function SeedOf(seeds: seq<Record>, account: string): Option<Amounts> {
    if seeds == [] then None
    else if seeds[|seeds| - 1].account == account then Some(seeds[|seeds| - 1].amounts)
    else SeedOf(seeds[..|seeds| - 1], account)
  }

  function ValueAt(seeds: seq<Record>, records: seq<Record>, account: string, period: Period, key: int): Option<Amounts> {
    var last := LastUpTo(records, account, period, key);
    if last.Some? then last else SeedOf(seeds, account)
  }

  function AccountsOf(records: seq<Record>): set<string> {
    set i | 0 <= i < |records| :: records[i].account
  }

  ghost function Snapshot(seeds: seq<Record>, records: seq<Record>, period: Period, key: int): map<string, Amounts> {
    map a | a in AccountsOf(seeds) + AccountsOf(records) && ValueAt(seeds, records, a, period, key).Some?
      :: ValueAt(seeds, records, a, period, key).value
  }

  function Add(x: Amounts, y: Amounts): Amounts {
    Amounts(x.balance + y.balance, x.principal + y.principal, x.profit + y.profit)
  }

  ghost function Total(m: map<string, Amounts>): Amounts {
    if m == map[] then Amounts(0, 0, 0)
    else
      var a :| a in m;
      Add(m[a], Total(m - {a}))
  }

  lemma AddSwap(x: Amounts, y: Amounts, z: Amounts)
    ensures Add(x, Add(y, z)) == Add(y, Add(x, z))
  {
  }

  // The total does not depend on the order in which the accounts are added up.
  lemma {:induction false} TotalPick(m: map<string, Amounts>, a: string)
    requires a in m
    ensures Total(m) == Add(m[a], Total(m - {a}))
    decreases |m|
  {
    var b :| b in m && Total(m) == Add(m[b], Total(m - {b}));
    if a == b {
      assert m - {a} == m - {b};
    } else {
      assert a in m - {b} && b in m - {a};
      TotalPick(m - {b}, a);
      TotalPick(m - {a}, b);
      var without := m - {a, b};
      assert m - {b} - {a} == without && m - {a} - {b} == without;
      assert Total(m - {b}) == Add(m[a], Total(without));
      assert Total(m - {a}) == Add(m[b], Total(without));
      AddSwap(m[a], m[b], Total(without));
    }
  }

  // The total by its three sums.
  lemma TotalByComponents(m: map<string, Amounts>, a: string)
    requires a in m
    ensures Total(map[]) == Amounts(0, 0, 0)
    ensures Total(m).balance == m[a].balance + Total(m - {a}).balance
    ensures Total(m).principal == m[a].principal + Total(m - {a}).principal
    ensures Total(m).profit == m[a].profit + Total(m - {a}).profit
  {
    TotalPick(m, a);
  }

  // Where every amount has balance = principal + profit, so has the total.
  lemma {:induction false} TotalKeepsIdentity(m: map<string, Amounts>)
    requires forall a :: a in m ==> m[a].balance == m[a].principal + m[a].profit
    ensures Total(m).balance == Total(m).principal + Total(m).profit
    decreases |m|
  {
    if m != map[] {
      var a :| a in m;
      TotalByComponents(m, a);
      TotalKeepsIdentity(m - {a});
    }
  }

  // Dated in or before the month, or the year, with this number.
  predicate Within(date: Date, period: Period, key: int) {
    if period == MONTHLY then date.month <= key else date.month < 12 * (key + 1)
  }

  lemma WithinIff(date: Date, period: Period, key: int)
    ensures PeriodOf(date, period) <= key <==> Within(date, period, key)
  {
  }

  // An account's value in a row is that of its latest record in or before the period,
  lemma {:induction false} ValueOfLatest(
    seeds: seq<Record>, records: seq<Record>, period: Period, key: int, i: nat)
    requires i < |records| && Within(records[i].date, period, key)
    requires forall j :: i < j < |records| && records[j].account == records[i].account ==> !Within(records[j].date, period, key)
    ensures ValueAt(seeds, records, records[i].account, period, key) == Some(records[i].amounts)
  {
    var n := |records| - 1;
    WithinIff(records[n].date, period, key);
    if i < n {
      ValueOfLatest(seeds, records[..n], period, key, i);
    }
  }

  lemma {:induction false} NoneWithin(records: seq<Record>, account: string, period: Period, key: int)
    requires forall j :: 0 <= j < |records| && records[j].account == account ==> !Within(records[j].date, period, key)
    ensures LastUpTo(records, account, period, key) == None
  {
    if records != [] {
      WithinIff(records[|records| - 1].date, period, key);
      NoneWithin(records[..|records| - 1], account, period, key);
    }
  }

  // else that of its seed, and without either it has none.
  lemma {:induction false} ValueOfSeed(
    seeds: seq<Record>, records: seq<Record>, period: Period, key: int, i: nat)
    requires i < |seeds| && forall j :: i < j < |seeds| ==> seeds[j].account != seeds[i].account
    requires forall j :: 0 <= j < |records| && records[j].account == seeds[i].account ==>
               !Within(records[j].date, period, key)
    ensures ValueAt(seeds, records, seeds[i].account, period, key) == Some(seeds[i].amounts)
  {
    NoneWithin(records, seeds[i].account, period, key);
    if i < |seeds| - 1 {
      ValueOfSeed(seeds[..|seeds| - 1], records, period, key, i);
    }
  }

  lemma {:induction false} NoValue(
    seeds: seq<Record>, records: seq<Record>, account: string, period: Period, key: int)
    requires forall j :: 0 <= j < |seeds| ==> seeds[j].account != account
    requires forall j :: 0 <= j < |records| && records[j].account == account ==> !Within(records[j].date, period, key)
    ensures ValueAt(seeds, records, account, period, key) == None
  {
    NoneWithin(records, account, period, key);
    if seeds != [] {
      NoValue(seeds[..|seeds| - 1], records, account, period, key);
    }
  }

  // ---- Period keys ---------------------------------------------------------------------------

  ghost predicate ConsecutiveFrom(keys: seq<nat>, first: nat) {
    forall i :: 0 <= i < |keys| ==> keys[i] == first + i
  }

  // First and last key; None when there is nothing to show.
  ghost function KeyBounds(records: seq<Record>, period: Period, rangeStart: Option<nat>, thisMonth: nat): Option<(nat, nat)>
    requires SortedByDate(records)
  {
    if period == MONTHLY && rangeStart.Some? then Some((rangeStart.value, thisMonth))
    else if records == [] then None
    else Some((PeriodOf(records[0].date, period), PeriodOf(records[|records| - 1].date, period)))
  }

  ghost predicate Spans(records: seq<Record>, period: Period, i: nat, j: nat, lo: nat, hi: nat)
    requires i < |records| && j < |records|
  {
    lo == PeriodOf(records[i].date, period) && hi == PeriodOf(records[j].date, period)
  }

  method MinMaxPeriod(records: seq<Record>, period: Period) returns (lo: nat, hi: nat)
    requires records != []
    ensures forall i :: 0 <= i < |records| ==> lo <= PeriodOf(records[i].date, period) <= hi
    ensures exists i, j :: 0 <= i < |records| && 0 <= j < |records| && Spans(records, period, i, j, lo, hi)
  {
    lo, hi := PeriodOf(records[0].date, period), PeriodOf(records[0].date, period);
    assert Spans(records, period, 0, 0, lo, hi);
    for n := 1 to |records|
      invariant forall i :: 0 <= i < n ==> lo <= PeriodOf(records[i].date, period) <= hi
      invariant exists i, j :: 0 <= i < n && 0 <= j < n && Spans(records, period, i, j, lo, hi)
    {
      ghost var i, j :| 0 <= i < n && 0 <= j < n && Spans(records, period, i, j, lo, hi);
      var p := PeriodOf(records[n].date, period);
      assert Spans(records, period, if p < lo then n else i, if hi < p then n else j,
                   if p < lo then p else lo, if hi < p then p else hi);
      lo := if p < lo then p else lo;
      hi := if hi < p then p else hi;
    }
  }

  lemma PeriodMonotone(a: Date, b: Date, period: Period)
    requires NotAfter(a, b)
    ensures PeriodOf(a, period) <= PeriodOf(b, period)
  {
    DivMonotone(a.month, b.month);
  }

  lemma DivMonotone(a: nat, b: nat)
    ensures a <= b ==> a / 12 <= b / 12
  {
  }

  // A period that lies in or after that of the one date and in or before that of the other.
  ghost predicate Between(a: Date, b: Date, period: Period, key: int) {
    if period == MONTHLY then a.month <= key <= b.month else a.month < 12 * (key + 1) && 12 * key <= b.month
  }

  // From the first to the last period of the records.
  ghost predicate AmongRecords(records: seq<Record>, period: Period, key: int) {
    exists i, j :: 0 <= i <= j < |records| && Between(records[i].date, records[j].date, period, key)
  }

  lemma BetweenIff(a: Date, b: Date, period: Period, key: int)
    ensures PeriodOf(a, period) <= key <= PeriodOf(b, period) <==> Between(a, b, period, key)
  {
  }

  lemma InConsecutive(keys: seq<nat>, first: nat, k: nat)
    requires ConsecutiveFrom(keys, first)
    ensures k in keys <==> first <= k < first + |keys|
  {
    if first <= k < first + |keys| {
      assert keys[k - first] == k;
    }
  }

  lemma KeysBetween(keys: seq<nat>, records: seq<Record>, period: Period, k: nat)
    requires SortedByDate(records) && records != []
    requires ConsecutiveFrom(keys, PeriodOf(records[0].date, period))
    requires |keys| == PeriodOf(records[|records| - 1].date, period) - PeriodOf(records[0].date, period) + 1
    ensures k in keys <==> AmongRecords(records, period, k)
  {
    var n := |records| - 1;
    if k in keys {
      BetweenIff(records[0].date, records[n].date, period, k);
    }
    if i, j :| 0 <= i <= j < |records| && Between(records[i].date, records[j].date, period, k) {
      BetweenIff(records[i].date, records[j].date, period, k);
      PeriodMonotone(records[0].date, records[i].date, period);
      PeriodMonotone(records[j].date, records[n].date, period);
      assert keys[k - PeriodOf(records[0].date, period)] == k;
    }
  }

  ghost predicate FollowBounds(keys: seq<nat>, bounds: Option<(nat, nat)>) {
    match bounds
    case None => keys == []
    case Some((first, last)) => ConsecutiveFrom(keys, first) && |keys| == if first <= last then last - first + 1 else 0
  }

  // Which periods that are: the months of a range up to this one, else the periods among the records.
  lemma KeysCover(keys: seq<nat>, records: seq<Record>, period: Period, rangeStart: Option<nat>, thisMonth: nat, k: nat)
    requires SortedByDate(records) && FollowBounds(keys, KeyBounds(records, period, rangeStart, thisMonth))
    ensures k in keys <==>
      if period == MONTHLY && rangeStart.Some? then rangeStart.value <= k <= thisMonth
      else AmongRecords(records, period, k)
  {
    if period == MONTHLY && rangeStart.Some? {
      InConsecutive(keys, rangeStart.value, k);
    } else if records != [] {
      PeriodMonotone(records[0].date, records[|records| - 1].date, period);
      KeysBetween(keys, records, period, k);
    }
  }

  // The keys run from the first to the last period without a gap or a repeat.
  method GeneratePeriodKeys(records: seq<Record>, period: Period, rangeStart: Option<nat>, thisMonth: nat)
    returns (keys: seq<nat>)
    requires SortedByDate(records)
    ensures FollowBounds(keys, KeyBounds(records, period, rangeStart, thisMonth))
  {
    keys := [];
    if records == [] && rangeStart.None? { return; }
    var cur: nat, end: nat := 0, 0;
    if period == MONTHLY && rangeStart.Some? {
      cur, end := rangeStart.value, thisMonth;
    } else if records == [] {
      return;  // a yearly range without records has no first year
    } else {
      cur, end := MinMaxPeriod(records, period);
      forall i | 0 <= i < |records|
        ensures PeriodOf(records[0].date, period) <= PeriodOf(records[i].date, period)
        ensures PeriodOf(records[i].date, period) <= PeriodOf(records[|records| - 1].date, period)
      {
        PeriodMonotone(records[0].date, records[i].date, period);
        PeriodMonotone(records[i].date, records[|records| - 1].date, period);
      }
    }
    ghost var first := cur;
    while cur <= end
      invariant first <= cur <= if first <= end then end + 1 else first
      invariant |keys| == cur - first && ConsecutiveFrom(keys, first)
    {
      keys := keys + [cur];
      cur := cur + 1;
    }
  }

  // ---- Carry-forward ---------------------------------------------------------------------------

  function Lookup(m: map<string, Amounts>, account: string): Option<Amounts> {
    if account in m then Some(m[account]) else None
  }

  // The account's last record in exactly this period.
  function LastIn(records: seq<Record>, account: string, period: Period, key: int): Option<Amounts> {
    if records == [] then None
    else
      var last := records[|records| - 1];
      if last.account == account && PeriodOf(last.date, period) == key then Some(last.amounts)
      else LastIn(records[..|records| - 1], account, period, key)
  }

  lemma {:induction false} NoneWithoutPeriod(records: seq<Record>, account: string, period: Period, key: int)
    requires forall i :: 0 <= i < |records| ==> PeriodOf(records[i].date, period) < key
    ensures LastIn(records, account, period, key) == None
  {
    if records != [] {
      NoneWithoutPeriod(records[..|records| - 1], account, period, key);
    }
  }

  // With sorted records, a period's own last record wins, and otherwise the period before counts.
  lemma {:induction false} CarryForwardStep(records: seq<Record>, account: string, period: Period, key: int)
    requires SortedByDate(records)
    ensures LastUpTo(records, account, period, key)
         == if LastIn(records, account, period, key).Some? then LastIn(records, account, period, key)
            else LastUpTo(records, account, period, key - 1)
  {
    if records != [] {
      var n := |records| - 1;
      var last := records[n];
      CarryForwardStep(records[..n], account, period, key);
      if last.account == account && PeriodOf(last.date, period) < key {
        forall i | 0 <= i < n ensures PeriodOf(records[i].date, period) < key {
          PeriodMonotone(records[i].date, last.date, period);
        }
        NoneWithoutPeriod(records[..n], account, period, key);
      }
    }
  }

  lemma {:induction false} NothingBeforeFirst(records: seq<Record>, account: string, period: Period, key: int)
    requires forall i :: 0 <= i < |records| ==> key < PeriodOf(records[i].date, period)
    ensures LastUpTo(records, account, period, key) == None
  {
    if records != [] {
      NothingBeforeFirst(records[..|records| - 1], account, period, key);
    }
  }

  lemma {:induction false} NoValueOutside(records: seq<Record>, account: string, period: Period, key: int)
    requires account !in AccountsOf(records)
    ensures LastIn(records, account, period, key) == None && LastUpTo(records, account, period, key) == None
    ensures SeedOf(records, account) == None
  {
    if records != [] {
      assert records[|records| - 1].account in AccountsOf(records);
      assert forall i :: 0 <= i < |records| - 1 ==> records[i].account in AccountsOf(records);
      NoValueOutside(records[..|records| - 1], account, period, key);
    }
  }

  method GroupByPeriod(records: seq<Record>, period: Period, keys: seq<nat>)
    returns (raw: map<nat, map<string, Amounts>>)
    ensures forall k :: k in raw <==> k in keys
    ensures forall k, a :: k in raw ==> Lookup(raw[k], a) == LastIn(records, a, period, k)
  {
    raw := map k | k in keys :: map[];
    for i := 0 to |records|
      invariant forall k :: k in raw <==> k in keys
      invariant forall k, a :: k in raw ==> Lookup(raw[k], a) == LastIn(records[..i], a, period, k)
    {
      var r := records[i];
      assert records[..i + 1][..i] == records[..i];
      var key := PeriodOf(r.date, period);
      if key in raw {
        raw := raw[key := raw[key][r.account := r.amounts]];
      }
    }
    assert records[..|records|] == records;
  }

  method SeedValues(seeds: seq<Record>) returns (known: map<string, Amounts>)
    ensures forall a :: Lookup(known, a) == SeedOf(seeds, a)
  {
    known := map[];
    for i := 0 to |seeds|
      invariant forall a :: Lookup(known, a) == SeedOf(seeds[..i], a)
    {
      assert seeds[..i + 1][..i] == seeds[..i];
      known := known[seeds[i].account := seeds[i].amounts];
    }
    assert seeds[..|seeds|] == seeds;
  }

  method DistinctAccounts(rows: seq<Record>) returns (ids: seq<string>)
    ensures forall a :: a in ids <==> a in AccountsOf(rows)
    ensures forall i, j :: 0 <= i < j < |ids| ==> ids[i] != ids[j]
  {
    ids := [];
    for n := 0 to |rows|
      invariant forall a :: a in ids <==> a in AccountsOf(rows[..n])
      invariant forall i, j :: 0 <= i < j < |ids| ==> ids[i] != ids[j]
    {
      assert AccountsOf(rows[..n + 1]) == AccountsOf(rows[..n]) + {rows[n].account};
      if rows[n].account !in ids {
        ids := ids + [rows[n].account];
      }
    }
    assert rows[..|rows|] == rows;
  }

  // One period: every account either brings its own record or takes the last known value along.
  method FillPeriod(entry: map<string, Amounts>, known: map<string, Amounts>, accounts: seq<string>)
    returns (filled: map<string, Amounts>, latest: map<string, Amounts>)
    requires forall i, j :: 0 <= i < j < |accounts| ==> accounts[i] != accounts[j]
    ensures forall a :: a in accounts ==>
      Lookup(filled, a) == Lookup(latest, a) == if a in entry then Lookup(entry, a) else Lookup(known, a)
    ensures forall a :: a !in accounts ==> Lookup(filled, a) == Lookup(entry, a) && Lookup(latest, a) == Lookup(known, a)
  {
    filled, latest := entry, known;
    for i := 0 to |accounts|
      invariant forall j :: 0 <= j < i ==>
        Lookup(filled, accounts[j]) == Lookup(latest, accounts[j])
          == if accounts[j] in entry then Lookup(entry, accounts[j]) else Lookup(known, accounts[j])
      invariant forall a :: a !in accounts[..i] ==> Lookup(filled, a) == Lookup(entry, a) && Lookup(latest, a) == Lookup(known, a)
    {
      var a := accounts[i];
      assert a !in accounts[..i];
      if a in filled {
        latest := latest[a := filled[a]];
      } else if a in latest {
        filled := filled[a := latest[a]];
      }
    }
  }

  method SumValues(m: map<string, Amounts>) returns (sum: Amounts)
    ensures sum == Total(m)
  {
    sum := Amounts(0, 0, 0);
    var rest := m;
    while rest != map[]
      invariant Add(sum, Total(rest)) == Total(m)
      decreases |rest|
    {
      var a :| a in rest;
      TotalPick(rest, a);
      sum := Add(sum, rest[a]);
      rest := rest - {a};
    }
  }

  lemma FilledIsSnapshot(
    seeds: seq<Record>, records: seq<Record>, period: Period, key: int, accounts: seq<string>,
    entry: map<string, Amounts>, known: map<string, Amounts>,
    filled: map<string, Amounts>, latest: map<string, Amounts>)
    requires SortedByDate(records)
    requires forall a :: a in accounts <==> a in AccountsOf(seeds) + AccountsOf(records)
    requires forall a :: Lookup(entry, a) == LastIn(records, a, period, key)
    requires forall a :: Lookup(known, a) == ValueAt(seeds, records, a, period, key - 1)
    requires forall a :: a in accounts ==>
      Lookup(filled, a) == Lookup(latest, a) == if a in entry then Lookup(entry, a) else Lookup(known, a)
    requires forall a :: a !in accounts ==> Lookup(filled, a) == Lookup(entry, a) && Lookup(latest, a) == Lookup(known, a)
    ensures filled == Snapshot(seeds, records, period, key)
    ensures forall a :: Lookup(latest, a) == ValueAt(seeds, records, a, period, key)
  {
    forall a
      ensures Lookup(latest, a) == ValueAt(seeds, records, a, period, key)
      ensures Lookup(filled, a) == Lookup(Snapshot(seeds, records, period, key), a)
    {
      CarryForwardStep(records, a, period, key);
      assert a in entry <==> Lookup(entry, a).Some?;
      if a !in accounts {
        NoValueOutside(records, a, period, key);
        NoValueOutside(records, a, period, key - 1);
        NoValueOutside(seeds, a, period, key);
      }
    }
    SameLookups(filled, Snapshot(seeds, records, period, key));
  }

  ghost predicate RowsFrom(rows: seq<Row>, seeds: seq<Record>, records: seq<Record>, period: Period, first: nat) {
    forall i :: 0 <= i < |rows| ==>
      && rows[i].period == first + i
      && rows[i].totals == Total(Snapshot(seeds, records, period, first + i))
  }

  ghost predicate Knows(
    known: map<string, Amounts>, seeds: seq<Record>, records: seq<Record>, period: Period, key: int)
  {
    forall a :: Lookup(known, a) == ValueAt(seeds, records, a, period, key)
  }

  ghost predicate ListsAccounts(accounts: seq<string>, seeds: seq<Record>, records: seq<Record>) {
    && (forall i, j :: 0 <= i < j < |accounts| ==> accounts[i] != accounts[j])
    && (forall a :: a in accounts <==> a in AccountsOf(seeds) + AccountsOf(records))
  }

  ghost predicate Owns(entry: map<string, Amounts>, records: seq<Record>, period: Period, key: int) {
    forall a :: Lookup(entry, a) == LastIn(records, a, period, key)
  }

  ghost predicate Grouped(raw: map<nat, map<string, Amounts>>, records: seq<Record>, period: Period, keys: seq<nat>) {
    forall k :: k in keys ==> k in raw && Owns(raw[k], records, period, k)
  }

  method NextRow(
    ghost seeds: seq<Record>, ghost records: seq<Record>, ghost period: Period, key: nat, accounts: seq<string>,
    entry: map<string, Amounts>, known: map<string, Amounts>)
    returns (row: Row, latest: map<string, Amounts>)
    requires SortedByDate(records) && ListsAccounts(accounts, seeds, records)
    requires Owns(entry, records, period, key) && Knows(known, seeds, records, period, key - 1)
    ensures row == Row(key, Total(Snapshot(seeds, records, period, key)))
    ensures Knows(latest, seeds, records, period, key)
  {
    var filled;
    filled, latest := FillPeriod(entry, known, accounts);
    FilledIsSnapshot(seeds, records, period, key, accounts, entry, known, filled, latest);
    var sum := SumValues(filled);
    row := Row(key, sum);
  }

  lemma AppendRow(rows: seq<Row>, row: Row, seeds: seq<Record>, records: seq<Record>, period: Period, first: nat, key: nat)
    requires RowsFrom(rows, seeds, records, period, first) && key == first + |rows|
    requires row == Row(key, Total(Snapshot(seeds, records, period, key)))
    ensures RowsFrom(rows + [row], seeds, records, period, first)
  {
  }

  lemma KnownBeforeFirst(
    seeds: seq<Record>, records: seq<Record>, period: Period, first: int, known: map<string, Amounts>)
    requires forall i :: 0 <= i < |records| ==> first <= PeriodOf(records[i].date, period)
    requires forall a :: Lookup(known, a) == SeedOf(seeds, a)
    ensures Knows(known, seeds, records, period, first - 1)
  {
    forall a ensures Lookup(known, a) == ValueAt(seeds, records, a, period, first - 1) {
      NothingBeforeFirst(records, a, period, first - 1);
    }
  }

  // What the rows are built from: the accounts, each period's own records, and the seeds.
  method Prepare(seeds: seq<Record>, records: seq<Record>, period: Period, keys: seq<nat>)
    returns (accounts: seq<string>, raw: map<nat, map<string, Amounts>>, known: map<string, Amounts>)
    requires keys != [] && forall i :: 0 <= i < |records| ==> keys[0] <= PeriodOf(records[i].date, period)
    ensures ListsAccounts(accounts, seeds, records) && Grouped(raw, records, period, keys)
    ensures Knows(known, seeds, records, period, keys[0] as int - 1)
  {
    raw := GroupByPeriod(records, period, keys);
    accounts := DistinctAccounts(seeds + records);
    AccountsOfConcat(seeds, records);
    known := SeedValues(seeds);
    KnownBeforeFirst(seeds, records, period, keys[0], known);
  }

  method RowsFor(seeds: seq<Record>, records: seq<Record>, period: Period, keys: seq<nat>) returns (rows: seq<Row>)
    requires SortedByDate(records) && keys != [] && ConsecutiveFrom(keys, keys[0])
    requires forall i :: 0 <= i < |records| ==> keys[0] <= PeriodOf(records[i].date, period)
    ensures |rows| == |keys| && RowsFrom(rows, seeds, records, period, keys[0])
    ensures AllBalanced(seeds) && AllBalanced(records) ==> RowsBalanced(rows)
  {
    var accounts, raw, known := Prepare(seeds, records, period, keys);
    rows := [];
    for i := 0 to |keys|
      invariant |rows| == i && RowsFrom(rows, seeds, records, period, keys[0])
      invariant Knows(known, seeds, records, period, keys[0] + i - 1)
    {
      var key := keys[i];
      assert key in keys && key == keys[0] + i;
      var row, latest := NextRow(seeds, records, period, key, accounts, raw[key], known);
      AppendRow(rows, row, seeds, records, period, keys[0], key);
      known := latest;
      rows := rows + [row];
    }
    if AllBalanced(seeds) && AllBalanced(records) {
      RowsKeepIdentity(rows, seeds, records, period, keys[0]);
    }
  }

  // One row for each period of the bounds, in order.
  ghost predicate RowsFollow(
    rows: seq<Row>, seeds: seq<Record>, records: seq<Record>, period: Period, bounds: Option<(nat, nat)>)
  {
    match bounds
    case None => rows == []
    case Some((first, last)) =>
      |rows| == (if first <= last then last - first + 1 else 0) && RowsFrom(rows, seeds, records, period, first)
  }

  lemma NoRecordBeforeFirst(records: seq<Record>, period: Period, rangeStart: Option<nat>, thisMonth: nat)
    requires SortedByDate(records) && KeyBounds(records, period, rangeStart, thisMonth).Some?
    requires period == MONTHLY && rangeStart.Some? ==>
      forall i :: 0 <= i < |records| ==> rangeStart.value <= records[i].date.month
    ensures forall i :: 0 <= i < |records| ==>
      KeyBounds(records, period, rangeStart, thisMonth).value.0 <= PeriodOf(records[i].date, period)
  {
    forall i | 0 <= i < |records| ensures PeriodOf(records[0].date, period) <= PeriodOf(records[i].date, period) {
      PeriodMonotone(records[0].date, records[i].date, period);
    }
  }

  // Each row is the sum, over the accounts, of the account's last record in or before the period,
  // else its seed; the rows follow each other without a gap.
  method AggregateTrend(seeds: seq<Record>, records: seq<Record>, period: Period, rangeStart: Option<nat>, thisMonth: nat)
    returns (rows: seq<Row>)
    requires SortedByDate(records)
    // the query behind a range only returns records inside it
    requires period == MONTHLY && rangeStart.Some? ==>
      forall i :: 0 <= i < |records| ==> rangeStart.value <= records[i].date.month
    ensures records == [] && seeds == [] ==> rows == []
    ensures records != [] || seeds != [] ==>
      RowsFollow(rows, seeds, records, period, KeyBounds(records, period, rangeStart, thisMonth))
    ensures AllBalanced(seeds) && AllBalanced(records) ==> RowsBalanced(rows)
  {
    rows := [];
    if records != [] || seeds != [] {
      var keys := GeneratePeriodKeys(records, period, rangeStart, thisMonth);
      if keys != [] {
        NoRecordBeforeFirst(records, period, rangeStart, thisMonth);
        rows := RowsFor(seeds, records, period, keys);
      }
    }
  }

  // ---- The query behind a year ---------------------------------------------------------------------

  // The records dated in the months from lo up to hi (exclusive).
  function Cut(table: seq<Record>, lo: nat, hi: nat): seq<Record> {
    if table == [] then []
    else
      var n := |table| - 1;
      Cut(table[..n], lo, hi) + if lo <= table[n].date.month < hi then [table[n]] else []
  }

  function LastBefore(table: seq<Record>, account: string, month: nat): Option<Record> {
    if table == [] then None
    else
      var n := |table| - 1;
      if table[n].account == account && table[n].date.month < month then Some(table[n])
      else LastBefore(table[..n], account, month)
  }

  // Each account's last record before the range, if it has one.
  function SeedsBefore(table: seq<Record>, accounts: seq<string>, month: nat): seq<Record> {
    if accounts == [] then []
    else
      var n := |accounts| - 1;
      var last := LastBefore(table, accounts[n], month);
      SeedsBefore(table, accounts[..n], month) + if last.Some? then [last.value] else []
  }

  lemma {:induction false} LastBeforeAmounts(table: seq<Record>, account: string, month: nat)
    ensures var last := LastBefore(table, account, month);
      && (last.Some? ==> last.value.account == account)
      && LastUpTo(table, account, MONTHLY, month as int - 1) == if last.Some? then Some(last.value.amounts) else None
  {
    if table != [] {
      LastBeforeAmounts(table[..|table| - 1], account, month);
    }
  }

  lemma {:induction false} SeedIsLastBefore(table: seq<Record>, accounts: seq<string>, month: nat, account: string)
    ensures SeedOf(SeedsBefore(table, accounts, month), account)
         == if account in accounts then LastUpTo(table, account, MONTHLY, month as int - 1) else None
  {
    if accounts != [] {
      var n := |accounts| - 1;
      SeedIsLastBefore(table, accounts[..n], month, account);
      LastBeforeAmounts(table, accounts[n], month);
      var earlier := SeedsBefore(table, accounts[..n], month);
      assert earlier + [] == earlier;
      if LastBefore(table, accounts[n], month).Some? {
        assert (earlier + [LastBefore(table, accounts[n], month).value])[..|earlier|] == earlier;
      }
      assert accounts == accounts[..n] + [accounts[n]];
    }
  }

  lemma {:induction false} NothingCut(table: seq<Record>, lo: nat, hi: nat)
    requires forall i :: 0 <= i < |table| ==> table[i].date.month < lo
    ensures Cut(table, lo, hi) == []
  {
    if table != [] {
      NothingCut(table[..|table| - 1], lo, hi);
    }
  }

  // Two months with no record after the one and up to the other see the same last records.
  lemma {:induction false} NoRecordBetween(table: seq<Record>, account: string, j: int, k: int)
    requires j <= k && forall i :: 0 <= i < |table| ==> !(j < table[i].date.month <= k)
    ensures LastUpTo(table, account, MONTHLY, j) == LastUpTo(table, account, MONTHLY, k)
  {
    if table != [] {
      NoRecordBetween(table[..|table| - 1], account, j, k);
    }
  }

  // No later than the range's last month.
  function UpTo(month: nat, hi: nat): int {
    if month < hi then month else hi - 1
  }

  // The last record in the range, else the last before it, is the last of the table up to the range's end.
  lemma {:induction false} LastOfCut(table: seq<Record>, account: string, lo: nat, hi: nat, k: nat)
    requires SortedByDate(table) && lo < hi && lo <= k
    ensures var last := LastUpTo(Cut(table, lo, hi), account, MONTHLY, k);
      LastUpTo(table, account, MONTHLY, UpTo(k, hi))
      == if last.Some? then last else LastUpTo(table, account, MONTHLY, lo - 1)
  {
    if table != [] {
      var n := |table| - 1;
      var before := Cut(table[..n], lo, hi);
      LastOfCut(table[..n], account, lo, hi, k);
      if table[n].date.month < lo {
        assert forall i :: 0 <= i <= n ==> NotAfter(table[i].date, table[n].date);
        NothingCut(table, lo, hi);
        NoRecordBetween(table, account, lo - 1, UpTo(k, hi));
      } else if table[n].date.month < hi {
        assert (before + [table[n]])[..|before|] == before;
      } else {
        assert before + [] == before;
      }
    }
  }

  ghost predicate Covers(accounts: seq<string>, table: seq<Record>) {
    forall i :: 0 <= i < |table| ==> table[i].account in accounts
  }

  lemma {:induction false} NoLastOutside(table: seq<Record>, account: string, key: int)
    requires forall i :: 0 <= i < |table| ==> table[i].account != account
    ensures LastUpTo(table, account, MONTHLY, key) == None
  {
    if table != [] {
      NoLastOutside(table[..|table| - 1], account, key);
    }
  }

  lemma RangeSnapshot(table: seq<Record>, accounts: seq<string>, lo: nat, hi: nat, k: nat)
    requires SortedByDate(table) && Covers(accounts, table) && lo < hi && lo <= k
    ensures Snapshot(SeedsBefore(table, accounts, lo), Cut(table, lo, hi), MONTHLY, k)
         == Snapshot([], table, MONTHLY, UpTo(k, hi))
  {
    var seeds, records := SeedsBefore(table, accounts, lo), Cut(table, lo, hi);
    forall a
      ensures Lookup(Snapshot(seeds, records, MONTHLY, k), a) == Lookup(Snapshot([], table, MONTHLY, UpTo(k, hi)), a)
    {
      LastOfCut(table, a, lo, hi, k);
      SeedIsLastBefore(table, accounts, lo, a);
      if a !in accounts {
        NoLastOutside(table, a, lo - 1);
      }
      assert ValueAt(seeds, records, a, MONTHLY, k) == LastUpTo(table, a, MONTHLY, UpTo(k, hi));
      SnapshotLookup(seeds, records, a, k);
      SnapshotLookup([], table, a, UpTo(k, hi));
    }
    SameLookups(Snapshot(seeds, records, MONTHLY, k), Snapshot([], table, MONTHLY, UpTo(k, hi)));
  }

  lemma SnapshotLookup(seeds: seq<Record>, records: seq<Record>, account: string, k: int)
    ensures Lookup(Snapshot(seeds, records, MONTHLY, k), account) == ValueAt(seeds, records, account, MONTHLY, k)
  {
    if account !in AccountsOf(seeds) + AccountsOf(records) {
      NoValueOutside(records, account, MONTHLY, k);
      NoValueOutside(seeds, account, MONTHLY, k);
    }
  }

  lemma {:induction false} CutShape(table: seq<Record>, lo: nat, hi: nat)
    requires SortedByDate(table)
    ensures SortedByDate(Cut(table, lo, hi))
    ensures forall r :: r in Cut(table, lo, hi) ==> r in table && lo <= r.date.month < hi
  {
    if table != [] {
      var n := |table| - 1;
      CutShape(table[..n], lo, hi);
      forall r | r in Cut(table[..n], lo, hi) ensures NotAfter(r.date, table[n].date) {
        var i :| 0 <= i < n && table[i] == r;
        assert NotAfter(table[i].date, table[n].date);
      }
      assert NotAfter(table[n].date, table[n].date);
    }
  }

  // Measured against the whole table, the row of a month before hi is the sum of all last records up to it;
  // later rows repeat that of the month before hi.
  ghost function YearRow(table: seq<Record>, hi: nat, k: nat): Row {
    Row(k, Total(Snapshot([], table, MONTHLY, UpTo(k, hi))))
  }

  ghost predicate YearRows(rows: seq<Row>, table: seq<Record>, lo: nat, hi: nat) {
    forall i :: 0 <= i < |rows| ==> rows[i] == YearRow(table, hi, lo + i)
  }

  // What a year's query finds tells as much as the whole table up to hi.
  ghost predicate SameUpTo(seeds: seq<Record>, records: seq<Record>, table: seq<Record>, hi: nat, k: nat) {
    Snapshot(seeds, records, MONTHLY, k) == Snapshot([], table, MONTHLY, UpTo(k, hi))
  }

  lemma SameRow(row: Row, seeds: seq<Record>, records: seq<Record>, table: seq<Record>, hi: nat, k: nat)
    requires SameUpTo(seeds, records, table, hi, k)
    requires row.period == k && row.totals == Total(Snapshot(seeds, records, MONTHLY, k))
    ensures row == YearRow(table, hi, k)
  {
  }

  lemma SameRows(rows: seq<Row>, seeds: seq<Record>, records: seq<Record>, table: seq<Record>, lo: nat, hi: nat)
    requires forall k: nat :: lo <= k ==> SameUpTo(seeds, records, table, hi, k)
    requires RowsFrom(rows, seeds, records, MONTHLY, lo)
    ensures YearRows(rows, table, lo, hi)
  {
    forall i | 0 <= i < |rows| ensures rows[i] == YearRow(table, hi, lo + i) {
      SameRow(rows[i], seeds, records, table, hi, lo + i);
    }
  }

  ghost predicate NothingBefore(table: seq<Record>, hi: nat) {
    forall i :: 0 <= i < |table| ==> hi <= table[i].date.month
  }

  method YearRecords(table: seq<Record>, accounts: seq<string>, lo: nat, hi: nat)
    returns (seeds: seq<Record>, records: seq<Record>)
    requires SortedByDate(table) && Covers(accounts, table) && lo < hi
    ensures forall k: nat :: lo <= k ==> SameUpTo(seeds, records, table, hi, k)
    ensures SortedByDate(records) && forall i :: 0 <= i < |records| ==> lo <= records[i].date.month
    ensures records == [] && seeds == [] <==> NothingBefore(table, hi)
  {
    seeds, records := SeedsBefore(table, accounts, lo), Cut(table, lo, hi);
    CutShape(table, lo, hi);
    forall i | 0 <= i < |records| ensures lo <= records[i].date.month {
      assert records[i] in records;
    }
    NothingStoredIff(table, accounts, lo, hi);
    forall k: nat | lo <= k ensures SameUpTo(seeds, records, table, hi, k) {
      RangeSnapshot(table, accounts, lo, hi, k);
    }
  }

  // The trend of a year: its months and those since, none without a record before its end.
  method MonthlyTrend(table: seq<Record>, accounts: seq<string>, year: nat, thisMonth: nat) returns (rows: seq<Row>)
    requires SortedByDate(table) && Covers(accounts, table)
    ensures YearRows(rows, table, 12 * year, 12 * year + 12)
    ensures |rows| == if thisMonth < 12 * year || NothingBefore(table, 12 * year + 12) then 0
                      else thisMonth - 12 * year + 1
  {
    var lo, hi := 12 * year, 12 * year + 12;
    var seeds, records := YearRecords(table, accounts, lo, hi);
    rows := AggregateTrend(seeds, records, MONTHLY, Some(lo), thisMonth);
    if records == [] && seeds == [] {
      assert YearRows(rows, table, lo, hi);
    } else {
      assert KeyBounds(records, MONTHLY, Some(lo), thisMonth) == Some((lo, thisMonth));
      SameRows(rows, seeds, records, table, lo, hi);
    }
  }

  lemma NothingStoredIff(table: seq<Record>, accounts: seq<string>, lo: nat, hi: nat)
    requires SortedByDate(table) && Covers(accounts, table) && lo < hi
    ensures SeedsBefore(table, accounts, lo) == [] && Cut(table, lo, hi) == [] <==> NothingBefore(table, hi)
  {
    if SeedsBefore(table, accounts, lo) == [] && Cut(table, lo, hi) == [] {
      NothingStored(table, accounts, lo, hi);
    }
    if NothingBefore(table, hi) {
      CutShape(table, lo, hi);
      assert Cut(table, lo, hi) != [] ==> Cut(table, lo, hi)[0] in Cut(table, lo, hi);
      NoSeeds(table, accounts, lo);
    }
  }

  lemma {:induction false} NoSeeds(table: seq<Record>, accounts: seq<string>, month: nat)
    requires forall i :: 0 <= i < |table| ==> month <= table[i].date.month
    ensures SeedsBefore(table, accounts, month) == []
  {
    if accounts != [] {
      var n := |accounts| - 1;
      NoSeeds(table, accounts[..n], month);
      NoneBefore(table, accounts[n], month);
    }
  }

  lemma {:induction false} NoneBefore(table: seq<Record>, account: string, month: nat)
    requires forall i :: 0 <= i < |table| ==> month <= table[i].date.month
    ensures LastBefore(table, account, month) == None
  {
    if table != [] {
      NoneBefore(table[..|table| - 1], account, month);
    }
  }

  lemma NothingStored(table: seq<Record>, accounts: seq<string>, lo: nat, hi: nat)
    requires SortedByDate(table) && Covers(accounts, table) && lo < hi
    requires SeedsBefore(table, accounts, lo) == [] && Cut(table, lo, hi) == []
    ensures forall i :: 0 <= i < |table| ==> hi <= table[i].date.month
  {
    forall i | 0 <= i < |table| ensures hi <= table[i].date.month {
      var a := table[i].account;
      LastOfCut(table, a, lo, hi, hi - 1);
      SeedIsLastBefore(table, accounts, lo, a);
      if table[i].date.month < hi {
        SomeLast(table, i, hi - 1);
      }
    }
  }

  lemma {:induction false} SomeLast(table: seq<Record>, i: nat, key: int)
    requires i < |table| && table[i].date.month <= key
    ensures LastUpTo(table, table[i].account, MONTHLY, key).Some?
  {
    if i < |table| - 1 {
      SomeLast(table[..|table| - 1], i, key);
    }
  }

  // ---- When a past year's rows are up to date ---------------------------------------------------------

  // The same accounts and dates, whatever the amounts.
  ghost predicate SameDates(t: seq<Record>, u: seq<Record>) {
    |t| == |u| && forall i :: 0 <= i < |t| ==> t[i].account == u[i].account && t[i].date == u[i].date
  }

  ghost predicate UpToDate(table: seq<Record>, hi: nat, k: nat) {
    Total(Snapshot([], table, MONTHLY, UpTo(k, hi))) == Total(Snapshot([], table, MONTHLY, k))
  }

  ghost predicate NoRecordFrom(table: seq<Record>, hi: nat, k: nat) {
    forall i :: 0 <= i < |table| ==> !(hi <= table[i].date.month <= k)
  }

  // The row of month k is the sum of all last records up to it, whatever the amounts, exactly when no record
  // is dated between the end of the year and the end of that month.
  lemma RowIsUpToDateIff(table: seq<Record>, hi: nat, k: nat)
    requires SortedByDate(table)
    ensures (forall u: seq<Record> :: SameDates(table, u) ==> UpToDate(u, hi, k)) <==> NoRecordFrom(table, hi, k)
  {
    if NoRecordFrom(table, hi, k) {
      forall u: seq<Record> | SameDates(table, u) ensures UpToDate(u, hi, k) {
        assert forall i :: 0 <= i < |u| ==> u[i].date == table[i].date;
        forall a
          ensures Lookup(Snapshot([], u, MONTHLY, UpTo(k, hi)), a) == Lookup(Snapshot([], u, MONTHLY, k), a)
        {
          NoRecordBetween(u, a, UpTo(k, hi), k);
          SnapshotLookup([], u, a, UpTo(k, hi));
          SnapshotLookup([], u, a, k);
        }
        SameLookups(Snapshot([], u, MONTHLY, UpTo(k, hi)), Snapshot([], u, MONTHLY, k));
      }
    } else {
      var i :| 0 <= i < |table| && hi <= table[i].date.month <= k;
      var j := LastIndex(table, i, k);
      LateRecordIsMissed(table, j, hi, k);
    }
  }

  // The last record dated at most k.
  lemma {:induction false} LastIndex(table: seq<Record>, i: nat, k: nat) returns (j: nat)
    requires SortedByDate(table) && i < |table| && table[i].date.month <= k
    ensures i <= j < |table| && table[i].date.month <= table[j].date.month <= k
    ensures forall x :: j < x < |table| ==> k < table[x].date.month
    decreases |table| - i
  {
    if x :| i < x < |table| && table[x].date.month <= k {
      assert NotAfter(table[i].date, table[x].date);
      j := LastIndex(table, x, k);
    } else {
      j := i;
    }
  }

  function OneAt(table: seq<Record>, j: nat): (u: seq<Record>)
    ensures SameDates(table, u)
    ensures forall i :: 0 <= i < |u| ==> u[i].amounts.balance == if i == j then 1 else 0
  {
    seq(|table|, i requires 0 <= i < |table| =>
      table[i].(amounts := Amounts(if i == j then 1 else 0, 0, 0)))
  }

  // One point on the last record and nothing elsewhere: the repeated total misses it.
  lemma LateRecordIsMissed(table: seq<Record>, j: nat, hi: nat, k: nat)
    requires SortedByDate(table) && j < |table| && hi <= table[j].date.month <= k
    requires forall x :: j < x < |table| ==> k < table[x].date.month
    ensures SameDates(table, OneAt(table, j)) && !UpToDate(OneAt(table, j), hi, k)
  {
    var u := OneAt(table, j);
    var early, late, a := Snapshot([], u, MONTHLY, hi - 1), Snapshot([], u, MONTHLY, k), u[j].account;
    LastAt(u, j, k);
    SnapshotLookup([], u, a, k);
    assert a in late && late[a].balance == 1;
    forall b | b in early ensures early[b].balance == 0 {
      SnapshotLookup([], u, b, hi - 1);
      var x := Source(u, b, hi - 1);
    }
    forall b | b in late - {a} ensures late[b].balance == 0 {
      SnapshotLookup([], u, b, k);
      var x := Source(u, b, k);
    }
    NothingInTotal(early);
    NothingInTotal(late - {a});
    TotalPick(late, a);
  }

  lemma {:induction false} LastAt(u: seq<Record>, j: nat, k: int)
    requires j < |u| && u[j].date.month <= k && forall x :: j < x < |u| ==> k < u[x].date.month
    ensures LastUpTo(u, u[j].account, MONTHLY, k) == Some(u[j].amounts)
  {
    if j < |u| - 1 {
      LastAt(u[..|u| - 1], j, k);
    }
  }

  // The record a last value comes from.
  lemma {:induction false} Source(u: seq<Record>, account: string, key: int) returns (i: nat)
    requires LastUpTo(u, account, MONTHLY, key).Some?
    ensures i < |u| && u[i].account == account && u[i].date.month <= key
    ensures LastUpTo(u, account, MONTHLY, key) == Some(u[i].amounts)
  {
    var n := |u| - 1;
    if u[n].account == account && u[n].date.month <= key {
      i := n;
    } else {
      i := Source(u[..n], account, key);
    }
  }

  lemma {:induction false} NothingInTotal(m: map<string, Amounts>)
    requires forall a :: a in m ==> m[a].balance == 0
    ensures Total(m).balance == 0
    decreases |m|
  {
    if m != map[] {
      var a :| a in m;
      TotalPick(m, a);
      NothingInTotal(m - {a});
    }
  }

  // Balance = principal + profit in every record.
  ghost predicate AllBalanced(records: seq<Record>) {
    forall r :: r in records ==> r.amounts.balance == r.amounts.principal + r.amounts.profit
  }

  ghost predicate RowsBalanced(rows: seq<Row>) {
    forall i :: 0 <= i < |rows| ==> rows[i].totals.balance == rows[i].totals.principal + rows[i].totals.profit
  }

  // With it in every record and seed, every row has it.
  lemma RowKeepsIdentity(seeds: seq<Record>, records: seq<Record>, period: Period, key: int)
    requires AllBalanced(seeds) && AllBalanced(records)
    ensures var totals := Total(Snapshot(seeds, records, period, key)); totals.balance == totals.principal + totals.profit
  {
    var m := Snapshot(seeds, records, period, key);
    forall a | a in m ensures m[a].balance == m[a].principal + m[a].profit {
      ValueComesFrom(seeds, records, a, period, key);
    }
    TotalKeepsIdentity(m);
  }

  lemma RowsKeepIdentity(rows: seq<Row>, seeds: seq<Record>, records: seq<Record>, period: Period, first: nat)
    requires RowsFrom(rows, seeds, records, period, first)
    requires AllBalanced(seeds) && AllBalanced(records)
    ensures RowsBalanced(rows)
  {
    forall i | 0 <= i < |rows| ensures rows[i].totals.balance == rows[i].totals.principal + rows[i].totals.profit {
      RowKeepsIdentity(seeds, records, period, first + i);
    }
  }

  lemma {:induction false} ValueComesFrom(
    seeds: seq<Record>, records: seq<Record>, account: string, period: Period, key: int)
    requires ValueAt(seeds, records, account, period, key).Some?
    ensures exists r :: r in seeds + records && r.amounts == ValueAt(seeds, records, account, period, key).value
  {
    if records != [] {
      var n := |records| - 1;
      if records[n].account == account && PeriodOf(records[n].date, period) <= key {
        assert records[n] in seeds + records;
      } else {
        ValueComesFrom(seeds, records[..n], account, period, key);
      }
    } else {
      var n := |seeds| - 1;
      if seeds[n].account == account {
        assert seeds[n] in seeds + records;
      } else {
        ValueComesFrom(seeds[..n], records, account, period, key);
      }
    }
  }

  lemma SameLookups(m: map<string, Amounts>, n: map<string, Amounts>)
    requires forall a :: Lookup(m, a) == Lookup(n, a)
    ensures m == n
  {
    forall a ensures a in m <==> a in n {
      assert Lookup(m, a) == Lookup(n, a);
    }
    forall a | a in m ensures m[a] == n[a] {
      assert Lookup(m, a) == Lookup(n, a);
    }
  }

  lemma AccountsOfConcat(a: seq<Record>, b: seq<Record>)
    ensures AccountsOf(a + b) == AccountsOf(a) + AccountsOf(b)
  {
    forall x | x in AccountsOf(b) ensures x in AccountsOf(a + b) {
      var i :| 0 <= i < |b| && b[i].account == x;
      assert (a + b)[|a| + i] == b[i];
    }
    forall x | x in AccountsOf(a) ensures x in AccountsOf(a + b) {
      var i :| 0 <= i < |a| && a[i].account == x;
      assert (a + b)[i] == a[i];
    }
  }
}

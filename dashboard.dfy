/**
 * The dashboard: four figures, the current month's total per member, and
 * the year's monthly and cumulative group totals. Every calendar condition
 * is on `created_at`. The current year and month are parameters.
 */
module Dashboard {
  import opened Schema
  import opened Query
  import Ledger

  datatype User = User(id: nat, name: string)
  datatype MemberTotal = MemberTotal(name: string, amount: int)
  /** One row of the grouped query: a month of `created_at` and its SUM(amount). */
  datatype MonthTotal = MonthTotal(month: int, total: int)

  datatype Stats = Stats(
    yourTotalThisYear: int,
    withdrawable: real,
    retainedShare: real,
    groupTotalThisYear: int)

  datatype Charts = Charts(
    monthly: seq<MemberTotal>,
    yearly: seq<int>,
    cumulative: seq<int>)

  datatype View = View(stats: Stats, charts: Charts)

  const Months: nat := 12

  /** `* 0.5`, computed exactly. */
  function Half(total: int): (h: real)
    ensures h * 2.0 == total as real
    ensures total >= 0 ==> h >= 0.0
  {
    total as real * 0.5
  }

  /** Rows created in `month` of `year`. */
  function CreatedIn(year: int, month: int): Filter
  {
    And(CreatedInMonth(month), CreatedInYear(year))
  }

  /** The current user's contributions created this year. */
  function YourTotalThisYear(table: seq<Row>, me: nat, year: int): int
  {
    Total(Where(table, And(UserIs(me), CreatedInYear(year))))
  }

  /** The current user's contributions of all time. */
  function YourAllTimeTotal(table: seq<Row>, me: nat): int
  {
    Total(Where(table, UserIs(me)))
  }

  /** Everybody's contributions created this year. */
  function GroupTotalThisYear(table: seq<Row>, year: int): int
  {
    Total(Where(table, CreatedInYear(year)))
  }

  /** Everybody's contributions created in one month of the year. */
  function MonthTotalOf(table: seq<Row>, year: int, month: int): int
  {
    Total(Where(table, CreatedIn(year, month)))
  }

  /** One member's contributions created in the current month. */
  function MemberMonthTotal(table: seq<Row>, u: nat, year: int, month: int): int
  {
    Total(Where(table, And(UserIs(u), CreatedIn(year, month))))
  }

  /** The current-month chart: one entry per user, in the order the users come. */
  function MonthlyContributions(users: seq<User>, table: seq<Row>, year: int, month: int): (chart: seq<MemberTotal>)
    ensures |chart| == |users|
    ensures forall i :: 0 <= i < |users| ==> chart[i].name == users[i].name
  {
    seq(|users|, i requires 0 <= i < |users| => MemberTotal(users[i].name, MemberMonthTotal(table, users[i].id, year, month)))
  }

  /** The grouped query: one (month, SUM) row for every month of `year`, from
   *  `first` on, in which some row was created; ascending month. */
  function GroupsFrom(table: seq<Row>, year: int, first: int): (gs: seq<MonthTotal>)
    requires 1 <= first
    ensures forall g :: g in gs ==> first <= g.month <= Months
    ensures forall g :: g in gs ==> g.total == MonthTotalOf(table, year, g.month)
    ensures forall g :: g in gs ==> Where(table, CreatedIn(year, g.month)) != []
    ensures forall i, j :: 0 <= i < j < |gs| ==> gs[i].month < gs[j].month
    decreases Months + 1 - first
  {
    if first > Months then []
    else
      var rowsOfMonth := Where(table, CreatedIn(year, first));
      (if rowsOfMonth == [] then [] else [MonthTotal(first, Total(rowsOfMonth))]) + GroupsFrom(table, year, first + 1)
  }

  /** The grouped query over the whole year: ascending months, one row per
   *  month that has rows, each with that month's total. */
  function MonthGroups(table: seq<Row>, year: int): (gs: seq<MonthTotal>)
    ensures forall g :: g in gs ==> 1 <= g.month <= Months
    ensures forall g :: g in gs ==> g.total == MonthTotalOf(table, year, g.month)
    ensures forall i, j :: 0 <= i < j < |gs| ==> gs[i].month < gs[j].month
  {
    GroupsFrom(table, year, 1)
  }

  /** The reference series: slot m - 1 holds the total created in month m of `year`. */
  function YearlyTotals(table: seq<Row>, year: int): (s: seq<int>)
    ensures |s| == Months
  {
    seq(Months, i requires 0 <= i < Months => MonthTotalOf(table, year, i + 1))
  }

  /** The slot a run of grouped rows leaves for `month`: the total of the last
   *  row of that month, or 0 when there is none. */
  function SlotValue(groups: seq<MonthTotal>, month: int): int
  {
    if groups == [] then 0
    else if groups[|groups| - 1].month == month then groups[|groups| - 1].total
    else SlotValue(groups[..|groups| - 1], month)
  }

  /** `array_fill(0, 12, 0)`, then each grouped row written into slot month - 1. */
  method FillYearly(groups: seq<MonthTotal>) returns (series: seq<int>)
    requires forall g :: g in groups ==> 1 <= g.month <= Months
    ensures |series| == Months
    ensures forall i :: 0 <= i < Months ==> series[i] == SlotValue(groups, i + 1)
  {
    var data := new int[Months](_ => 0);
    var k := 0;
    while k < |groups|
      invariant 0 <= k <= |groups|
      invariant forall i :: 0 <= i < Months ==> data[i] == SlotValue(groups[..k], i + 1)
    {
      assert groups[k] in groups;
      assert groups[..k + 1][..k] == groups[..k];
      data[groups[k].month - 1] := groups[k].total;
      k := k + 1;
    }
    assert groups[..|groups|] == groups;
    series := data[..];
  }

  function Sum(s: seq<int>): int
  {
    if s == [] then 0 else Sum(s[..|s| - 1]) + s[|s| - 1]
  }

  /** The reference running totals: element i is the sum of slots 0 to i. */
  function PrefixSums(s: seq<int>): (p: seq<int>)
    ensures |p| == |s|
  {
    seq(|s|, i requires 0 <= i < |s| => Sum(s[..i + 1]))
  }

  /** The running-total loop over the yearly series. */
  method RunningTotals(series: seq<int>) returns (cumulative: seq<int>)
    ensures cumulative == PrefixSums(series)
  {
    cumulative := [];
    var running := 0;
    var k := 0;
    while k < |series|
      invariant 0 <= k <= |series|
      invariant |cumulative| == k
      invariant running == Sum(series[..k])
      invariant forall i :: 0 <= i < k ==> cumulative[i] == Sum(series[..i + 1])
    {
      assert series[..k + 1][..k] == series[..k];
      running := running + series[k];
      cumulative := cumulative + [running];
      k := k + 1;
    }
  }

  //
  // Properties of the series
  //

  lemma {:induction false} SlotValueAbsent(groups: seq<MonthTotal>, month: int)
    requires forall g :: g in groups ==> g.month != month
    ensures SlotValue(groups, month) == 0
  {
    if groups != [] {
      assert groups[|groups| - 1] in groups;
      SlotValueAbsent(groups[..|groups| - 1], month);
    }
  }

  /** Rows after the run that are of other months leave the slot as it was. */
  lemma {:induction false} SlotValueAppendOthers(a: seq<MonthTotal>, b: seq<MonthTotal>, month: int)
    requires forall g :: g in b ==> g.month != month
    ensures SlotValue(a + b, month) == SlotValue(a, month)
  {
    if b == [] {
      assert a + b == a;
    } else {
      var b' := b[..|b| - 1];
      assert (a + b)[..|a + b| - 1] == a + b';
      assert b[|b| - 1] in b;
      SlotValueAppendOthers(a, b', month);
    }
  }

  /** Rows before the run that are of other months do not show in the slot. */
  lemma {:induction false} SlotValuePrependOthers(a: seq<MonthTotal>, b: seq<MonthTotal>, month: int)
    requires forall g :: g in a ==> g.month != month
    ensures SlotValue(a + b, month) == SlotValue(b, month)
  {
    if b == [] {
      assert a + b == a;
      SlotValueAbsent(a, month);
    } else {
      var b' := b[..|b| - 1];
      assert (a + b)[..|a + b| - 1] == a + b';
      SlotValuePrependOthers(a, b', month);
    }
  }

  /** The grouped rows put each month's total in its slot, and 0 where a
   *  month has no rows. */
  lemma {:induction false} GroupsFromSlots(table: seq<Row>, year: int, first: int, month: int)
    requires 1 <= first <= month <= Months
    ensures SlotValue(GroupsFrom(table, year, first), month) == MonthTotalOf(table, year, month)
    decreases Months + 1 - first
  {
    var rowsOfMonth := Where(table, CreatedIn(year, first));
    var head := if rowsOfMonth == [] then [] else [MonthTotal(first, Total(rowsOfMonth))];
    var rest := GroupsFrom(table, year, first + 1);
    assert GroupsFrom(table, year, first) == head + rest;
    if month == first {
      assert forall g :: g in rest ==> g.month != month;
      SlotValueAppendOthers(head, rest, month);
      if rowsOfMonth == [] {
        assert SlotValue(head, month) == 0;
      } else {
        assert SlotValue(head, month) == Total(rowsOfMonth);
      }
    } else {
      assert forall g :: g in head ==> g.month != month;
      SlotValuePrependOthers(head, rest, month);
      GroupsFromSlots(table, year, first + 1, month);
    }
  }

  /** Every month from `first` on in which some row was created has its row in the grouped query. */
  lemma {:induction false} GroupsFromComplete(table: seq<Row>, year: int, first: int, m: int)
    requires 1 <= first <= m <= Months
    requires Where(table, CreatedIn(year, m)) != []
    ensures MonthTotal(m, MonthTotalOf(table, year, m)) in GroupsFrom(table, year, first)
    decreases Months + 1 - first
  {
    var rowsOfMonth := Where(table, CreatedIn(year, first));
    var head := if rowsOfMonth == [] then [] else [MonthTotal(first, Total(rowsOfMonth))];
    assert GroupsFrom(table, year, first) == head + GroupsFrom(table, year, first + 1);
    if m > first {
      GroupsFromComplete(table, year, first + 1, m);
    }
  }

  /** The grouped query has a row for every month of the year in which some row was created. */
  lemma MonthGroupsComplete(table: seq<Row>, year: int, m: int)
    requires 1 <= m <= Months
    requires Where(table, CreatedIn(year, m)) != []
    ensures MonthTotal(m, MonthTotalOf(table, year, m)) in MonthGroups(table, year)
  {
    GroupsFromComplete(table, year, 1, m);
  }

  /** A month of the year in which no row was created shows 0 in the yearly series. */
  lemma EmptyMonthIsZero(table: seq<Row>, year: int, month: int)
    requires 1 <= month <= Months
    requires forall i :: 0 <= i < |table| ==> !(table[i].createdAt.year == year && table[i].createdAt.month == month)
    ensures YearlyTotals(table, year)[month - 1] == 0
  {
    forall i | 0 <= i < |table| ensures !Matches(CreatedIn(year, month), table[i]) {
      assert Matches(CreatedIn(year, month), table[i]) <==> table[i].createdAt.month == month && table[i].createdAt.year == year;
    }
    WhereNoneMatch(table, CreatedIn(year, month));
  }

  /** The filled series is the reference series. */
  lemma SlotsAreMonthTotals(table: seq<Row>, year: int, month: int)
    requires 1 <= month <= Months
    ensures SlotValue(MonthGroups(table, year), month) == MonthTotalOf(table, year, month)
  {
    GroupsFromSlots(table, year, 1, month);
  }

  lemma {:induction false} SumSnoc(s: seq<int>, k: nat)
    requires k < |s|
    ensures Sum(s[..k + 1]) == Sum(s[..k]) + s[k]
  {
    assert s[..k + 1][..k] == s[..k];
  }

  /** With no negative slot, a longer prefix never sums to less. */
  lemma {:induction false} PrefixSumMonotone(s: seq<int>, i: nat, j: nat)
    requires forall k :: 0 <= k < |s| ==> s[k] >= 0
    requires i <= j <= |s|
    ensures Sum(s[..i]) <= Sum(s[..j])
    decreases j - i
  {
    if i < j {
      SumSnoc(s, j - 1);
      PrefixSumMonotone(s, i, j - 1);
    }
  }

  /** The cumulative series never decreases when no slot is negative. */
  lemma PrefixSumsNonDecreasing(s: seq<int>)
    requires forall k :: 0 <= k < |s| ==> s[k] >= 0
    ensures forall i, j :: 0 <= i <= j < |s| ==> PrefixSums(s)[i] <= PrefixSums(s)[j]
  {
    forall i, j | 0 <= i <= j < |s| ensures PrefixSums(s)[i] <= PrefixSums(s)[j] {
      PrefixSumMonotone(s, i + 1, j + 1);
    }
  }

  /** The last running total is the sum of the whole series. */
  lemma PrefixSumsLast(s: seq<int>)
    requires s != []
    ensures PrefixSums(s)[|s| - 1] == Sum(s)
  {
    assert s[..|s|] == s;
  }

  /** The rows of the first `k` months of `year`. */
  function MonthsThrough(year: int, k: int): Filter
    decreases k
  {
    if k <= 0 then Not(All) else Or(MonthsThrough(year, k - 1), CreatedIn(year, k))
  }

  lemma {:induction false} MonthsThroughMatches(year: int, k: int, r: Row)
    ensures Matches(MonthsThrough(year, k), r) <==> r.createdAt.year == year && 1 <= r.createdAt.month <= k
    decreases k
  {
    if k > 0 {
      MonthsThroughMatches(year, k - 1, r);
      assert Matches(CreatedIn(year, k), r) <==> r.createdAt.month == k && r.createdAt.year == year;
    }
  }

  /** Adding month k to the first k - 1 months adds that month's total. */
  lemma MonthsThroughStep(table: seq<Row>, year: int, k: int)
    requires 1 <= k
    ensures Total(Where(table, MonthsThrough(year, k)))
         == Total(Where(table, MonthsThrough(year, k - 1))) + MonthTotalOf(table, year, k)
  {
    var p, q1, q2 := MonthsThrough(year, k), MonthsThrough(year, k - 1), CreatedIn(year, k);
    assert p == Or(q1, q2);
    forall i | 0 <= i < |table|
      ensures (Matches(p, table[i]) <==> Matches(q1, table[i]) || Matches(q2, table[i]))
      ensures !(Matches(q1, table[i]) && Matches(q2, table[i]))
    {
      MonthsThroughMatches(year, k - 1, table[i]);
      assert Matches(q2, table[i]) <==> table[i].createdAt.month == k && table[i].createdAt.year == year;
    }
    TotalSplit(table, p, q1, q2);
  }

  lemma {:induction false} YearlyPrefixSum(table: seq<Row>, year: int, k: nat)
    requires k <= Months
    ensures Sum(YearlyTotals(table, year)[..k]) == Total(Where(table, MonthsThrough(year, k)))
  {
    var s := YearlyTotals(table, year);
    if k == 0 {
      WhereNoneMatch(table, MonthsThrough(year, 0));
      assert s[..0] == [];
    } else {
      YearlyPrefixSum(table, year, k - 1);
      SumSnoc(s, k - 1);
      assert s[k - 1] == MonthTotalOf(table, year, k);
      MonthsThroughStep(table, year, k);
    }
  }

  /** Every row created in `year` has a calendar month, as a stored timestamp does. */
  predicate CreatedMonthsValid(table: seq<Row>, year: int)
  {
    forall i :: 0 <= i < |table| && table[i].createdAt.year == year ==> 1 <= table[i].createdAt.month <= Months
  }

  /** The yearly series adds up to the group's total for the year: both use
   *  the same `created_at` year condition. */
  lemma YearlySumIsGroupTotal(table: seq<Row>, year: int)
    requires CreatedMonthsValid(table, year)
    ensures Sum(YearlyTotals(table, year)) == GroupTotalThisYear(table, year)
  {
    YearlyPrefixSum(table, year, Months);
    assert YearlyTotals(table, year)[..Months] == YearlyTotals(table, year);
    forall i | 0 <= i < |table|
      ensures Matches(MonthsThrough(year, Months), table[i]) <==> Matches(CreatedInYear(year), table[i])
    {
      MonthsThroughMatches(year, Months, table[i]);
    }
    TotalCongruent(table, MonthsThrough(year, Months), CreatedInYear(year));
  }

  //
  // Properties of the figures
  //

  /** A member with no row created in the month is shown with 0. */
  lemma QuietMemberShowsZero(users: seq<User>, table: seq<Row>, year: int, month: int, i: nat)
    requires i < |users|
    requires forall j :: 0 <= j < |table| ==>
      !(table[j].userId == users[i].id && table[j].createdAt.year == year && table[j].createdAt.month == month)
    ensures |MonthlyContributions(users, table, year, month)| == |users|
    ensures MonthlyContributions(users, table, year, month)[i] == MemberTotal(users[i].name, 0)
  {
    var f := And(UserIs(users[i].id), CreatedIn(year, month));
    forall j | 0 <= j < |table| ensures !Matches(f, table[j]) {
      assert Matches(CreatedIn(year, month), table[j]) <==> table[j].createdAt.month == month && table[j].createdAt.year == year;
    }
    WhereNoneMatch(table, f);
  }

  /** With no negative amounts, the retained share (all time) is at least
   *  the withdrawable amount (this year). */
  lemma RetainedShareCoversWithdrawable(table: seq<Row>, me: nat, year: int)
    requires forall i :: 0 <= i < |table| ==> table[i].amount >= 0
    ensures Half(YourTotalThisYear(table, me, year)) <= Half(YourAllTimeTotal(table, me))
  {
    TotalMonotone(table, And(UserIs(me), CreatedInYear(year)), UserIs(me));
  }

  /** When every row carries the fixed 4000.00, the withdrawable amount is a
   *  whole number of cents: 2000.00 per contribution. */
  lemma WithdrawableIsWholeCents(table: seq<Row>, me: nat, year: int)
    requires forall i :: 0 <= i < |table| ==> table[i].amount == Ledger.FixedAmount
    ensures YourTotalThisYear(table, me, year) % 2 == 0
    ensures Half(YourTotalThisYear(table, me, year)) == (YourTotalThisYear(table, me, year) / 2) as real
  {
    var f := And(UserIs(me), CreatedInYear(year));
    TotalOfUniformRows(table, f, Ledger.FixedAmount);
  }

  /** Twelve slots holding what the grouped rows leave are the reference series. */
  lemma FilledSlotsAreYearlyTotals(table: seq<Row>, year: int, yearly: seq<int>)
    requires |yearly| == Months
    requires forall i :: 0 <= i < Months ==> yearly[i] == SlotValue(MonthGroups(table, year), i + 1)
    ensures yearly == YearlyTotals(table, year)
  {
    var reference := YearlyTotals(table, year);
    forall i | 0 <= i < Months ensures yearly[i] == reference[i] {
      SlotsAreMonthTotals(table, year, i + 1);
    }
  }

  /** The yearly chart: the grouped query written into twelve zero-filled slots. */
  method YearlySeries(table: seq<Row>, year: int) returns (yearly: seq<int>)
    ensures yearly == YearlyTotals(table, year)
  {
    var groups := MonthGroups(table, year);
    yearly := FillYearly(groups);
    FilledSlotsAreYearlyTotals(table, year, yearly);
  }

  /** `__invoke`: the figures and charts of the dashboard for user `me`, in
   *  the current `year` and `month`. */
  method Invoke(table: seq<Row>, users: seq<User>, me: nat, year: int, month: int) returns (v: View)
    ensures v.stats.yourTotalThisYear == YourTotalThisYear(table, me, year)
    ensures v.stats.withdrawable * 2.0 == v.stats.yourTotalThisYear as real
    ensures v.stats.retainedShare * 2.0 == YourAllTimeTotal(table, me) as real
    ensures v.stats.groupTotalThisYear == GroupTotalThisYear(table, year)
    ensures v.charts.monthly == MonthlyContributions(users, table, year, month)
    ensures v.charts.yearly == YearlyTotals(table, year)
    ensures v.charts.cumulative == PrefixSums(v.charts.yearly)
    ensures CreatedMonthsValid(table, year) ==> v.charts.cumulative[Months - 1] == v.stats.groupTotalThisYear
  {
    var yours := YourTotalThisYear(table, me, year);
    var withdrawable := Half(yours);
    var retained := Half(YourAllTimeTotal(table, me));
    var group := GroupTotalThisYear(table, year);
    var monthly := MonthlyContributions(users, table, year, month);
    var yearly := YearlySeries(table, year);
    var cumulative := RunningTotals(yearly);
    if CreatedMonthsValid(table, year) {
      YearlySumIsGroupTotal(table, year);
      PrefixSumsLast(yearly);
    }
    v := View(Stats(yours, withdrawable, retained, group), Charts(monthly, yearly, cumulative));
  }

  //
  // Properties of the dashboard over a stored ledger
  //

  /** Every stored `created_at` is a calendar date, so its month is 1 to 12. */
  lemma StoredMonthsValid(rows: seq<Row>, nextId: nat, year: int)
    requires Ledger.LedgerInvariant(rows, nextId)
    ensures CreatedMonthsValid(rows, year)
  {
    forall i | 0 <= i < |rows| && rows[i].createdAt.year == year
      ensures 1 <= rows[i].createdAt.month <= Months
    {
      assert rows[i] in rows;
    }
  }

  /** Over a stored ledger no slot of the yearly series is negative. */
  lemma StoredYearlyNonNegative(rows: seq<Row>, nextId: nat, year: int)
    requires Ledger.LedgerInvariant(rows, nextId)
    ensures forall k :: 0 <= k < Months ==> YearlyTotals(rows, year)[k] >= 0
  {
    forall i | 0 <= i < |rows| ensures rows[i].amount >= 0 && !Matches(Not(All), rows[i]) {
      assert rows[i] in rows;
    }
    WhereNoneMatch(rows, Not(All));
    forall k | 0 <= k < Months ensures YearlyTotals(rows, year)[k] >= 0 {
      TotalMonotone(rows, Not(All), CreatedIn(year, k + 1));
    }
  }

  /** Over a stored ledger the cumulative chart never decreases and ends at
   *  the group total for the year. */
  lemma StoredCumulativeChart(rows: seq<Row>, nextId: nat, year: int)
    requires Ledger.LedgerInvariant(rows, nextId)
    ensures forall i, j :: 0 <= i <= j < Months ==>
      PrefixSums(YearlyTotals(rows, year))[i] <= PrefixSums(YearlyTotals(rows, year))[j]
    ensures PrefixSums(YearlyTotals(rows, year))[Months - 1] == GroupTotalThisYear(rows, year)
  {
    StoredYearlyNonNegative(rows, nextId, year);
    PrefixSumsNonDecreasing(YearlyTotals(rows, year));
    StoredMonthsValid(rows, nextId, year);
    YearlySumIsGroupTotal(rows, year);
    PrefixSumsLast(YearlyTotals(rows, year));
  }

  /** Over a stored ledger, where every row holds the fixed amount, the
   *  withdrawable amount is a whole number of cents. */
  lemma StoredWithdrawableIsWholeCents(rows: seq<Row>, nextId: nat, me: nat, year: int)
    requires Ledger.LedgerInvariant(rows, nextId)
    ensures Half(YourTotalThisYear(rows, me, year)) == (YourTotalThisYear(rows, me, year) / 2) as real
  {
    forall i | 0 <= i < |rows| ensures rows[i].amount == Ledger.FixedAmount {
      assert rows[i] in rows;
    }
    WithdrawableIsWholeCents(rows, me, year);
  }
}

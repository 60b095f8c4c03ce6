/** The dashboard (`pages/Dashboard.tsx`): the all-time total, the five most
    recent receipts, month and category breakdowns, the pie chart (sorted in
    place to find the top category), and this month's total compared with
    last month's. Today's date is a parameter. */
module Dashboard {
  import opened Types
  import opened Seqs
  import opened Sorting
  import opened DateUtils
  import opened CurrencyUtils
  import opened Aggregates
  import opened ReceiptsList
  import opened Reports

  // ---- recent receipts ----

  /** `recentReceipts`: a copy sorted newest first, cut to five. */
  function RecentReceipts(rs: seq<Receipt>): (r: seq<Receipt>)
    ensures |r| == Min(5, |rs|)
    ensures r == SortedReceipts(rs, ByDate, Desc)[..|r|]
  {
    Slice(SortedReceipts(rs, ByDate, Desc), 0, 5)
  }

  /** The recent receipts are receipts of the store, newest first. */
  lemma RecentReceiptsNewestFirst(rs: seq<Receipt>)
    ensures multiset(RecentReceipts(rs)) <= multiset(rs)
    ensures forall i, j :: 0 <= i < j < |RecentReceipts(rs)| ==>
      DateTime(RecentReceipts(rs)[j]) <= DateTime(RecentReceipts(rs)[i])
  {
    var sorted := SortedReceipts(rs, ByDate, Desc);
    var r := RecentReceipts(rs);
    SortedReceiptsOrdered(rs, ByDate, Desc);
    assert sorted == r + sorted[|r|..];
    assert multiset(sorted) == multiset(r) + multiset(sorted[|r|..]);
  }

  /** No receipt left out of the recent five is newer than any shown. */
  lemma RecentReceiptsNewest(rs: seq<Receipt>)
    ensures forall y, i :: y in multiset(rs) - multiset(RecentReceipts(rs)) && 0 <= i < |RecentReceipts(rs)| ==>
      DateTime(y) <= DateTime(RecentReceipts(rs)[i])
  {
    var cmp := Comparator(ByDate, Desc);
    var sorted := SortBy(rs, cmp);
    var r := RecentReceipts(rs);
    ComparatorConsistent(ByDate, Desc);
    SortBySorted(rs, cmp);
    assert r == sorted[..|r|];
    forall y, i | y in multiset(rs) - multiset(r) && 0 <= i < |r|
      ensures DateTime(y) <= DateTime(r[i])
    {
      SortedPrefixFirst(sorted, cmp, |r|, y, i);
      assert cmp(r[i], y) == DateTime(y) - DateTime(r[i]);
    }
  }

  // ---- this month and last month ----

  /** `monthlyData[m] || 0`. */
  function MonthTotal(monthly: seq<Bucket<int>>, monthIndex: int): int
  {
    Lookup(monthly, monthIndex).GetOr(0)
  }

  /** The month index of `thisMonth`. */
  function ThisMonthIndex(today: CalDate): int
  {
    today.month - 1
  }

  /** The month index of `lastMonth` as the page computes it:
      `setMonth(getMonth() - 1)` keeps the day of the month, and a day the
      previous month lacks runs over into the current month. */
  function LastMonthIndexAsWritten(today: CalDate): int
  {
    MakeDate(today.year, today.month - 2, today.day).month - 1
  }

  /** The month index of the previous calendar month. */
  function PreviousMonthIndex(today: CalDate): (m: int)
    ensures 0 <= m < 12 && m != ThisMonthIndex(today)
    ensures m == if today.month == 1 then 11 else ThisMonthIndex(today) - 1
  {
    (today.month + 10) % 12
  }

  /** From the 29th on, a day the previous month lacks runs over into the
      current month, and the page's "last month" is this month. */
  lemma LastMonthOverflows(today: CalDate)
    requires 2 <= today.month
    requires DaysInMonth(today.year, today.month - 1) < today.day <= DaysInMonth(today.year, today.month)
    ensures LastMonthIndexAsWritten(today) == ThisMonthIndex(today)
  {
    var y, m: int := today.year, today.month;
    assert (m - 2) / 12 == 0 && (m - 2) % 12 + 1 == m - 1;
    NormalizeIntoNextMonth(y, m - 1, today.day);
  }

  /** On 31 March of any year the page's "last month" is March itself, so
      both totals read the same bucket and the change shown is 0 whatever was
      spent in February. */
  lemma LastMonthOverflowExample(monthly: seq<Bucket<int>>, today: CalDate)
    requires today.month == 3 && today.day == 31
    ensures LastMonthIndexAsWritten(today) == ThisMonthIndex(today) == 2
    ensures PercentChange(MonthTotal(monthly, ThisMonthIndex(today)), MonthTotal(monthly, LastMonthIndexAsWritten(today))) == 0.0
    ensures PreviousMonthIndex(today) == 1
  {
    assert DaysInMonth(today.year, 2) <= 29;
    LastMonthOverflows(today);
    var t := MonthTotal(monthly, ThisMonthIndex(today));
    assert PercentChange(t, t) == 0.0 by {
      assert (t - t) as real == 0.0;
    }
  }

  /** Up to day 28 the page's computation gives the previous month. */
  lemma LastMonthAgreesEarlyInMonth(today: CalDate)
    requires 1 <= today.day <= 28
    ensures LastMonthIndexAsWritten(today) == PreviousMonthIndex(today)
  {
    var mi := today.month - 2;
    var target := CalDate(today.year + mi / 12, mi % 12 + 1, today.day);
    var r := MakeDate(today.year, mi, today.day);
    DayNumberInjective(r, target);
  }

  /** `percentChange`: 0 when last month's total is 0 (even if this month's
      is not), otherwise the change relative to last month's total itself. */
  function PercentChange(thisMonthTotal: int, lastMonthTotal: int): (p: real)
    ensures lastMonthTotal == 0 ==> p == 0.0
    ensures lastMonthTotal > 0 ==> (p > 0.0 <==> thisMonthTotal > lastMonthTotal)
    ensures lastMonthTotal > 0 ==> (p < 0.0 <==> thisMonthTotal < lastMonthTotal)
    ensures lastMonthTotal < 0 ==> (p > 0.0 <==> thisMonthTotal < lastMonthTotal)
  {
    if lastMonthTotal == 0 then 0.0
    else (thisMonthTotal - lastMonthTotal) as real / lastMonthTotal as real * 100.0
  }

  /** The page's rule against `calculatePercentChange`: the same from a
      positive base; from a zero base 0 where the utility gives 100; from a
      negative base the opposite sign, since the page does not take the
      base's magnitude. */
  lemma PercentChangeVersusUtility(thisMonthTotal: int, lastMonthTotal: int)
    ensures lastMonthTotal > 0 ==>
      PercentChange(thisMonthTotal, lastMonthTotal) == CalculatePercentChange(lastMonthTotal as real, thisMonthTotal as real)
    ensures lastMonthTotal == 0 && thisMonthTotal != 0 ==>
      PercentChange(thisMonthTotal, lastMonthTotal) == 0.0
      && CalculatePercentChange(lastMonthTotal as real, thisMonthTotal as real) == 100.0
    ensures lastMonthTotal < 0 ==>
      PercentChange(thisMonthTotal, lastMonthTotal) == -CalculatePercentChange(lastMonthTotal as real, thisMonthTotal as real)
  {
  }

  /** The arrow points up for a change of 0 or more; the number shown is the
      change's magnitude. */
  predicate ArrowUp(percentChange: real)
  {
    percentChange >= 0.0
  }

  /** From a positive base the arrow points up exactly when spending did not
      fall; from a zero base it always points up. */
  lemma ArrowDirection(thisMonthTotal: int, lastMonthTotal: int)
    ensures lastMonthTotal > 0 ==>
      (ArrowUp(PercentChange(thisMonthTotal, lastMonthTotal)) <==> thisMonthTotal >= lastMonthTotal)
    ensures lastMonthTotal == 0 ==> ArrowUp(PercentChange(thisMonthTotal, lastMonthTotal))
  {
  }

  // ---- top category ----

  /** `(a, b) => b.value - a.value`: largest value first. */
  function ValueDesc(): (PieEntry, PieEntry) -> int
  {
    (a: PieEntry, b: PieEntry) => b.value - a.value
  }

  lemma ValueDescConsistent()
    ensures TotalPreorder(ValueDesc())
  {
  }

  /** `topCategory` on the entries before sorting: the name of the first
      entry of the sorted copy, `'None'` when there is none or it is empty. */
  function TopCategoryName(entries: seq<PieEntry>): string
  {
    var s := SortBy(entries, ValueDesc());
    if s == [] || s[0].name == "" then "None" else s[0].name
  }

  /** The entry the sort puts first has the largest value. */
  lemma TopCategoryIsMax(entries: seq<PieEntry>)
    requires entries != []
    ensures forall j :: 0 <= j < |entries| ==> entries[j].value <= SortBy(entries, ValueDesc())[0].value
  {
    ValueDescConsistent();
    forall j | 0 <= j < |entries| ensures entries[j].value <= SortBy(entries, ValueDesc())[0].value {
      SortByHeadFirst(entries, ValueDesc(), entries[j]);
    }
  }

  /** The sorted head is an entry with no entry of the same value before it. */
  lemma TopCategoryHeadEarliest(entries: seq<PieEntry>)
    requires entries != []
    ensures exists k :: (0 <= k < |entries| && entries[k] == SortBy(entries, ValueDesc())[0]
      && forall j :: 0 <= j < k ==> entries[j].value != entries[k].value)
  {
    ValueDescConsistent();
    SortByHeadEarliestOfTies(entries, ValueDesc());
    var k :| (0 <= k < |entries| && entries[k] == SortBy(entries, ValueDesc())[0]
      && forall j :: 0 <= j < k ==> ValueDesc()(entries[j], entries[k]) != 0);
    forall j | 0 <= j < k ensures entries[j].value != entries[k].value {
      assert ValueDesc()(entries[j], entries[k]) == entries[k].value - entries[j].value;
    }
  }

  /** The entry the sort puts first has the largest value, and it is the
      first such entry in bucket order (the sort is stable). */
  lemma TopCategoryIsFirstMax(entries: seq<PieEntry>)
    requires entries != []
    ensures exists k :: (0 <= k < |entries| && entries[k] == SortBy(entries, ValueDesc())[0]
      && (forall j :: 0 <= j < |entries| ==> entries[j].value <= entries[k].value)
      && (forall j :: 0 <= j < k ==> entries[j].value < entries[k].value))
  {
    TopCategoryHeadEarliest(entries);
    var k :| (0 <= k < |entries| && entries[k] == SortBy(entries, ValueDesc())[0]
      && forall j :: 0 <= j < k ==> entries[j].value != entries[k].value);
    TopCategoryIsMax(entries);
  }

  /** With no receipts there is no top category. */
  lemma TopCategoryOfNothing()
    ensures TopCategoryName([]) == "None"
  {
  }

  /** The `pieChartData.sort(...)` line: sorts the pie entries in place and
      reads the name off the first. */
  method TopCategory(pie: array<PieEntry>) returns (name: string)
    modifies pie
    ensures pie[..] == SortBy(old(pie[..]), ValueDesc())
    ensures name == TopCategoryName(old(pie[..]))
  {
    SortInPlace(pie, ValueDesc());
    if pie.Length == 0 || pie[0].name == "" {
      name := "None";
    } else {
      name := pie[0].name;
    }
  }

  // ---- the whole page ----

  /** Everything the dashboard derives from the store. */
  datatype DashboardData = DashboardData(
    total: int,
    recent: seq<Receipt>,
    monthly: seq<Bucket<int>>,
    byCategory: seq<Bucket<string>>,
    pie: seq<PieEntry>,
    thisMonthTotal: int,
    lastMonthTotal: int,
    percentChange: real,
    topCategory: string)

  /** The page's computations in order. The pie chart shows the entries in
      the order the top-category line left them: sorted by value, largest
      first. Last month is the previous calendar month. */
  method BuildDashboard(rs: seq<Receipt>, categories: seq<Category>, today: CalDate) returns (d: DashboardData)
    ensures d.total == Total(rs) && d.recent == RecentReceipts(rs)
    ensures d.monthly == GroupSum(rs, MonthKey) && d.byCategory == GroupSum(rs, CategoryKey)
    ensures d.pie == SortBy(PieChartData(d.byCategory, categories), ValueDesc())
    ensures d.thisMonthTotal == MonthTotal(d.monthly, ThisMonthIndex(today))
    ensures d.lastMonthTotal == MonthTotal(d.monthly, PreviousMonthIndex(today))
    ensures d.percentChange == PercentChange(d.thisMonthTotal, d.lastMonthTotal)
    ensures d.topCategory == TopCategoryName(PieChartData(d.byCategory, categories))
  {
    var monthly := GroupByKey(rs, MonthKey);
    var byCategory := GroupByKey(rs, CategoryKey);
    var entries := PieChartData(byCategory, categories);
    var pie := new PieEntry[|entries|](i requires 0 <= i < |entries| => entries[i]);
    assert pie[..] == entries;
    var top := TopCategory(pie);
    var thisTotal := MonthTotal(monthly, ThisMonthIndex(today));
    var lastTotal := MonthTotal(monthly, PreviousMonthIndex(today));
    d := DashboardData(Total(rs), RecentReceipts(rs), monthly, byCategory, pie[..],
      thisTotal, lastTotal, PercentChange(thisTotal, lastTotal), top);
  }
}

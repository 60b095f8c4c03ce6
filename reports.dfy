/** The reports page (`pages/Reports.tsx`): the receipts of a chosen period
    and their total, month, category and daily breakdowns, the pie chart's
    colours, and the list of selectable years. The date-range pickers give
    calendar dates; the year and month selects give a year and a 0-based
    month index, or no month for "all". */
module Reports {
  import opened Types
  import opened Seqs
  import opened Sorting
  import opened DateUtils
  import opened Aggregates

  /** The period test: with both ends of the range set, the receipt's date
      must lie between them (inclusive) and the selects are ignored;
      otherwise the year must be the selected one and, unless "all" months
      are selected, the 0-based month must be the selected one. */
  predicate InReportPeriod(r: Receipt, from: Option<CalDate>, to: Option<CalDate>, year: int, month: Option<int>)
  {
    if from.Some? && to.Some? then DayNumber(from.value) <= DayNumber(r.date) <= DayNumber(to.value)
    else r.date.year == year && (month.None? || r.date.month - 1 == month.value)
  }

  function InPeriod(from: Option<CalDate>, to: Option<CalDate>, year: int, month: Option<int>): Receipt -> bool
  {
    r => InReportPeriod(r, from, to, year, month)
  }

  /** `filteredReceipts`. */
  function ReportReceipts(rs: seq<Receipt>, from: Option<CalDate>, to: Option<CalDate>, year: int, month: Option<int>): seq<Receipt>
  {
    Filter(rs, InPeriod(from, to, year, month))
  }

  /** The report covers a subsequence of the receipts: exactly those in the period. */
  lemma ReportReceiptsSpec(rs: seq<Receipt>, from: Option<CalDate>, to: Option<CalDate>, year: int, month: Option<int>, r: Receipt)
    ensures IsSubseq(ReportReceipts(rs, from, to, year, month), rs)
    ensures r in ReportReceipts(rs, from, to, year, month) <==> r in rs && InReportPeriod(r, from, to, year, month)
  {
    FilterIsSubseq(rs, InPeriod(from, to, year, month));
    FilterMembership(rs, InPeriod(from, to, year, month), r);
  }

  /** A complete range makes the year and month selects irrelevant. */
  lemma RangeOverridesSelects(rs: seq<Receipt>, from: CalDate, to: CalDate, y1: int, m1: Option<int>, y2: int, m2: Option<int>)
    ensures ReportReceipts(rs, Some(from), Some(to), y1, m1) == ReportReceipts(rs, Some(from), Some(to), y2, m2)
  {
    FilterCongruent(rs, InPeriod(Some(from), Some(to), y1, m1), InPeriod(Some(from), Some(to), y2, m2));
  }

  /** A range with only one end set is ignored altogether. */
  lemma HalfRangeIgnored(rs: seq<Receipt>, from: Option<CalDate>, to: Option<CalDate>, year: int, month: Option<int>)
    requires from.None? || to.None?
    ensures ReportReceipts(rs, from, to, year, month) == ReportReceipts(rs, None, None, year, month)
  {
    FilterCongruent(rs, InPeriod(from, to, year, month), InPeriod(None, None, year, month));
  }

  /** The bucket key of the month chart: the month index, which stands for
      its short name, so the same month of different years shares a bucket. */
  function MonthKey(r: Receipt): int { r.date.month - 1 }

  function CategoryKey(r: Receipt): string { r.category }

  /** The bucket key of the daily chart: the date, whose `YYYY-MM-DD` string
      identifies it (`IsoDateInjective`). */
  function DateKey(r: Receipt): CalDate { r.date }

  /** The daily chart's comparator: ascending by the date's instant. */
  function DailyComparator(): (Bucket<CalDate>, Bucket<CalDate>) -> int
  {
    (a: Bucket<CalDate>, b: Bucket<CalDate>) => DayNumber(a.key) * DayMs - DayNumber(b.key) * DayMs
  }

  lemma DailyComparatorConsistent()
    ensures TotalPreorder(DailyComparator())
  {
  }

  /** Everything the page derives from the receipts. */
  datatype Report = Report(
    receipts: seq<Receipt>,
    total: int,
    monthly: seq<Bucket<int>>,
    byCategory: seq<Bucket<string>>,
    pie: seq<PieEntry>,
    daily: seq<Bucket<CalDate>>)

  /** The page's computations in order: filter, total, the three
      dictionaries built by `reduce`, the pie slices and the sorted days. */
  method BuildReport(rs: seq<Receipt>, categories: seq<Category>,
                     from: Option<CalDate>, to: Option<CalDate>, year: int, month: Option<int>)
    returns (rep: Report)
    ensures rep.receipts == ReportReceipts(rs, from, to, year, month)
    ensures rep.total == Total(rep.receipts)
    ensures rep.monthly == GroupSum(rep.receipts, MonthKey)
    ensures rep.byCategory == GroupSum(rep.receipts, CategoryKey)
    ensures rep.pie == PieChartData(rep.byCategory, categories)
    ensures rep.daily == SortBy(GroupSum(rep.receipts, DateKey), DailyComparator())
  {
    var filtered := ReportReceipts(rs, from, to, year, month);
    var monthly := GroupByKey(filtered, MonthKey);
    var byCategory := GroupByKey(filtered, CategoryKey);
    var days := GroupByKey(filtered, DateKey);
    rep := Report(filtered, Total(filtered), monthly, byCategory,
      PieChartData(byCategory, categories), SortBy(days, DailyComparator()));
  }

  /** The month buckets, the category buckets and the pie slices each add up
      to the total. */
  lemma ReportTotalsAgree(filtered: seq<Receipt>, categories: seq<Category>)
    ensures BucketSum(GroupSum(filtered, MonthKey)) == Total(filtered)
    ensures BucketSum(GroupSum(filtered, CategoryKey)) == Total(filtered)
    ensures PieSum(PieChartData(GroupSum(filtered, CategoryKey), categories)) == Total(filtered)
  {
    PieSumIsBucketSum(GroupSum(filtered, CategoryKey), categories);
  }

  /** October 2023 and October 2024 land in one month bucket. */
  lemma MonthsMergeAcrossYears(a: Receipt, b: Receipt)
    requires a.date.year != b.date.year && a.date.month == b.date.month
    ensures GroupSum([a, b], MonthKey) == [Bucket(a.date.month - 1, a.amount + b.amount)]
  {
    assert [a, b][..1] == [a];
    assert [a][..0] == [];
    assert GroupSum([], MonthKey) == [];
    var one := GroupSum([a], MonthKey);
    assert one == [Bucket(MonthKey(a), a.amount)];
    assert AddTo(one, MonthKey(b), b.amount) == [Bucket(MonthKey(a), a.amount + b.amount)] + one[1..];
  }

  /** The daily chart: sorted ascending by date, a permutation of the
      dictionary's entries, an entry for every receipt's date and each
      entry holding the total of the receipts of its date. */
  lemma DailyChartSpec(filtered: seq<Receipt>)
    ensures Sorted(SortBy(GroupSum(filtered, DateKey), DailyComparator()), DailyComparator())
    ensures multiset(SortBy(GroupSum(filtered, DateKey), DailyComparator())) == multiset(GroupSum(filtered, DateKey))
    ensures forall b :: b in SortBy(GroupSum(filtered, DateKey), DailyComparator()) ==>
      b.amount == Total(Filter(filtered, KeyEquals(DateKey, b.key)))
    ensures forall i :: 0 <= i < |filtered| ==>
      exists b :: b in SortBy(GroupSum(filtered, DateKey), DailyComparator()) && b.key == filtered[i].date
  {
    var g := GroupSum(filtered, DateKey);
    var daily := SortBy(g, DailyComparator());
    DailyComparatorConsistent();
    SortBySorted(g, DailyComparator());
    GroupSumKeysDistinct(filtered, DateKey);
    forall b | b in daily
      ensures b.amount == Total(Filter(filtered, KeyEquals(DateKey, b.key)))
    {
      assert b in multiset(daily);
      LookupMember(g, b);
      GroupSumLookup(filtered, DateKey, b.key);
    }
    forall i | 0 <= i < |filtered|
      ensures exists b :: b in daily && b.key == filtered[i].date
    {
      GroupSumLookup(filtered, DateKey, filtered[i].date);
      KeysMember(g, filtered[i].date);
      var b :| b in g && b.key == filtered[i].date;
      assert b in multiset(g);
      assert b in daily;
    }
  }

  /** `years`: the current year and the four before it, newest first. */
  function Years(currentYear: int): (ys: seq<int>)
    ensures |ys| == 5 && ys[0] == currentYear
    ensures forall i, j :: 0 <= i < j < |ys| ==> ys[i] > ys[j]
  {
    seq(5, i requires 0 <= i < 5 => currentYear - i)
  }

  /** The selectable years are exactly the current one and the four before. */
  lemma YearsRange(currentYear: int, y: int)
    ensures y in Years(currentYear) <==> currentYear - 4 <= y <= currentYear
  {
    var ys := Years(currentYear);
    if currentYear - 4 <= y <= currentYear {
      assert ys[currentYear - y] == y;
    }
  }
}

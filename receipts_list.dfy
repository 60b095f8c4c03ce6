/** The receipts page (`pages/ReceiptsList.tsx`): the receipts are filtered
    by search text and category, sorted by date, amount or merchant in
    either direction, and shown ten to a page; the page's handlers write the
    store's filters and the current page number. */
module ReceiptsList {
  import opened Types
  import opened Seqs
  import opened Sorting
  import opened DateUtils
  import opened ReceiptStore

  // ---- filtering ----

  /** `toLowerCase` on one character (ASCII letters only). */
  function LowerChar(c: char): char
  {
    if 'A' <= c <= 'Z' then (c as int + 32) as char else c
  }

  function ToLower(s: string): (r: string)
    ensures |r| == |s| && forall i :: 0 <= i < |s| ==> r[i] == LowerChar(s[i])
  {
    seq(|s|, i requires 0 <= i < |s| => LowerChar(s[i]))
  }

  /** `hay.includes(needle)`: `needle` occurs in `hay` as a contiguous block. */
  predicate Includes(hay: string, needle: string)
  {
    exists i :: 0 <= i <= |hay| - |needle| && OccursAt(hay, needle, i)
  }

  /** `needle` is the block of `hay` starting at index `i`. */
  predicate OccursAt(hay: string, needle: string, i: int)
  {
    0 <= i <= |hay| - |needle| && hay[i..i + |needle|] == needle
  }

  /** The search test: passes when there is no search text, else the
      lower-cased merchant or category must contain the lower-cased text. */
  predicate MatchesSearch(search: string, r: Receipt)
  {
    search == ""
    || Includes(ToLower(r.merchant), ToLower(search))
    || Includes(ToLower(r.category), ToLower(search))
  }

  /** The category test: passes when no category is chosen, else exact equality. */
  predicate MatchesCategory(category: string, r: Receipt)
  {
    category == "" || r.category == category
  }

  function KeepFor(search: string, category: string): Receipt -> bool
  {
    r => MatchesSearch(search, r) && MatchesCategory(category, r)
  }

  /** `filteredReceipts`. */
  function FilteredReceipts(receipts: seq<Receipt>, search: string, category: string): seq<Receipt>
  {
    Filter(receipts, KeepFor(search, category))
  }

  /** The filtered list is a subsequence of the receipts holding exactly the
      receipts that pass both tests. */
  lemma FilteredReceiptsSpec(receipts: seq<Receipt>, search: string, category: string, r: Receipt)
    ensures IsSubseq(FilteredReceipts(receipts, search, category), receipts)
    ensures r in FilteredReceipts(receipts, search, category)
        <==> r in receipts && MatchesSearch(search, r) && MatchesCategory(category, r)
  {
    FilterIsSubseq(receipts, KeepFor(search, category));
    FilterMembership(receipts, KeepFor(search, category), r);
  }

  /** With a category chosen, every kept receipt has exactly that category. */
  lemma FilteredCategoryExact(receipts: seq<Receipt>, search: string, category: string)
    requires category != ""
    ensures forall i :: 0 <= i < |FilteredReceipts(receipts, search, category)| ==>
      FilteredReceipts(receipts, search, category)[i].category == category
  {
  }

  /** With neither search text nor category, nothing is filtered out. */
  lemma NoFiltersKeepAll(receipts: seq<Receipt>)
    ensures FilteredReceipts(receipts, "", "") == receipts
  {
    FilterKeepsAll(receipts, KeepFor("", ""));
  }

  /** Search text matches regardless of the case of its ASCII letters. */
  lemma SearchIgnoresCase(search: string, r: Receipt)
    requires search != ""
    ensures MatchesSearch(search, r) <==> MatchesSearch(ToLower(search), r)
  {
    assert ToLower(ToLower(search)) == ToLower(search);
  }

  // ---- sorting ----

  /** `localeCompare`, taken as lexicographic order on characters. */
  function LexCompare(a: string, b: string): (r: int)
    ensures -1 <= r <= 1
    ensures r == 0 <==> a == b
    decreases |a|
  {
    if a == [] then (if b == [] then 0 else -1)
    else if b == [] then 1
    else if a[0] < b[0] then -1
    else if a[0] > b[0] then 1
    else
      assert a == [a[0]] + a[1..] && b == [b[0]] + b[1..];
      LexCompare(a[1..], b[1..])
  }

  lemma {:induction false} LexCompareAntisymmetric(a: string, b: string)
    ensures LexCompare(a, b) == -LexCompare(b, a)
    decreases |a|
  {
    if a != [] && b != [] && a[0] == b[0] {
      LexCompareAntisymmetric(a[1..], b[1..]);
    }
  }

  lemma {:induction false} LexCompareTransitive(a: string, b: string, c: string)
    requires LexCompare(a, b) <= 0 && LexCompare(b, c) <= 0
    ensures LexCompare(a, c) <= 0
    decreases |a|
  {
    if a != [] && b != [] && c != [] && a[0] == b[0] && b[0] == c[0] {
      LexCompareTransitive(a[1..], b[1..], c[1..]);
    }
  }

  /** The instant `new Date(r.date).getTime()`: midnight UTC of the date. */
  function DateTime(r: Receipt): int
  {
    DayNumber(r.date) * DayMs
  }

  /** The ascending comparison for each sort key. */
  function CompareBy(key: SortKey, a: Receipt, b: Receipt): int
  {
    match key
    case ByDate => DateTime(a) - DateTime(b)
    case ByAmount => a.amount - b.amount
    case ByMerchant => LexCompare(ToLower(a.merchant), ToLower(b.merchant))
  }

  function AscComparator(key: SortKey): (Receipt, Receipt) -> int
  {
    (a, b) => CompareBy(key, a, b)
  }

  /** The comparator passed to `sort`: `desc` swaps the operands. */
  function Comparator(key: SortKey, order: SortOrder): (Receipt, Receipt) -> int
  {
    if order == Asc then AscComparator(key) else Flip(AscComparator(key))
  }

  lemma AscComparatorConsistent(key: SortKey)
    ensures TotalPreorder(AscComparator(key))
  {
    var cmp := AscComparator(key);
    forall a, b ensures cmp(a, b) == -cmp(b, a) {
      if key == ByMerchant {
        LexCompareAntisymmetric(ToLower(a.merchant), ToLower(b.merchant));
      }
    }
    forall a, b, c | cmp(a, b) <= 0 && cmp(b, c) <= 0 ensures cmp(a, c) <= 0 {
      if key == ByMerchant {
        LexCompareTransitive(ToLower(a.merchant), ToLower(b.merchant), ToLower(c.merchant));
      }
    }
  }

  /** Every key and direction gives a consistent comparator. */
  lemma ComparatorConsistent(key: SortKey, order: SortOrder)
    ensures TotalPreorder(Comparator(key, order))
  {
    AscComparatorConsistent(key);
    if order == Desc {
      FlipTotalPreorder(AscComparator(key));
    }
  }

  /** `sortedReceipts`: a sorted copy of the filtered list. */
  function SortedReceipts(filtered: seq<Receipt>, key: SortKey, order: SortOrder): seq<Receipt>
  {
    SortBy(filtered, Comparator(key, order))
  }

  /** The sorted list is a permutation of the filtered list, non-decreasing
      by the key for `asc` and non-increasing for `desc`. */
  lemma SortedReceiptsOrdered(filtered: seq<Receipt>, key: SortKey, order: SortOrder)
    ensures multiset(SortedReceipts(filtered, key, order)) == multiset(filtered)
    ensures order == Asc ==> forall i, j :: 0 <= i < j < |filtered| ==>
      CompareBy(key, SortedReceipts(filtered, key, order)[i], SortedReceipts(filtered, key, order)[j]) <= 0
    ensures order == Desc ==> forall i, j :: 0 <= i < j < |filtered| ==>
      CompareBy(key, SortedReceipts(filtered, key, order)[j], SortedReceipts(filtered, key, order)[i]) <= 0
  {
    ComparatorConsistent(key, order);
    SortBySorted(filtered, Comparator(key, order));
  }

  /** Stability: receipts that tie on the key keep their filtered order, in
      both directions. */
  lemma SortedReceiptsStable(filtered: seq<Receipt>, key: SortKey, order: SortOrder, y: Receipt)
    ensures Filter(SortedReceipts(filtered, key, order), TiedWith(Comparator(key, order), y))
         == Filter(filtered, TiedWith(Comparator(key, order), y))
  {
    ComparatorConsistent(key, order);
    SortByStable(filtered, Comparator(key, order), y);
  }

  /** When no two distinct receipts tie on the key, `desc` is `asc` reversed. */
  lemma DescIsReversedAsc(filtered: seq<Receipt>, key: SortKey)
    requires TiesOnlyEqual(filtered, AscComparator(key))
    ensures SortedReceipts(filtered, key, Desc) == Reverse(SortedReceipts(filtered, key, Asc))
  {
    AscComparatorConsistent(key);
    SortByFlipIsReverse(filtered, AscComparator(key));
  }

  /** With tied amounts the mirror fails: both directions keep the filtered order. */
  lemma DescNotReversedOnTies(a: Receipt, b: Receipt)
    requires a != b && a.amount == b.amount
    ensures SortedReceipts([a, b], ByAmount, Asc) == [a, b]
    ensures SortedReceipts([a, b], ByAmount, Desc) == [a, b]
    ensures SortedReceipts([a, b], ByAmount, Desc) != Reverse(SortedReceipts([a, b], ByAmount, Asc))
  {
    assert [a, b][..1] == [a];
    assert [a][..0] == [];
    assert Reverse([a, b]) == [b, a];
  }

  // ---- pages ----

  const ItemsPerPage: int := 10

  function Min(a: int, b: int): int { if a < b then a else b }

  function Max(a: int, b: int): int { if a < b then b else a }

  /** `Math.ceil(n / itemsPerPage)`. */
  function TotalPages(n: nat): (t: nat)
    ensures t * ItemsPerPage >= n
    ensures t > 0 ==> (t - 1) * ItemsPerPage < n
  {
    (n + ItemsPerPage - 1) / ItemsPerPage
  }

  /** A `slice` index: negative counts from the end, then clamped to `0..len`. */
  function SliceIndex(i: int, len: nat): (k: nat)
    ensures k <= len
  {
    if i < 0 then (if len + i < 0 then 0 else len + i)
    else if i > len then len
    else i
  }

  /** `s.slice(start, end)`. */
  function Slice<T>(s: seq<T>, start: int, end: int): seq<T>
  {
    var a, b := SliceIndex(start, |s|), SliceIndex(end, |s|);
    if a < b then s[a..b] else []
  }

  /** `paginatedReceipts` for page `p`. */
  function Page<T>(s: seq<T>, p: int): (r: seq<T>)
    ensures |r| <= ItemsPerPage
    ensures p >= 1 ==> r == s[Min((p - 1) * ItemsPerPage, |s|)..Min(p * ItemsPerPage, |s|)]
  {
    var start := (p - 1) * ItemsPerPage;
    Slice(s, start, start + ItemsPerPage)
  }

  /** Pages 1..k laid end to end. */
  function Pages<T>(s: seq<T>, k: nat): seq<T>
  {
    if k == 0 then [] else Pages(s, k - 1) + Page(s, k)
  }

  lemma {:induction false} PagesPrefix<T>(s: seq<T>, k: nat)
    ensures Pages(s, k) == s[..Min(k * ItemsPerPage, |s|)]
  {
    if k > 0 {
      PagesPrefix(s, k - 1);
      var a, b := Min((k - 1) * ItemsPerPage, |s|), Min(k * ItemsPerPage, |s|);
      assert s[..a] + s[a..b] == s[..b];
    }
  }

  /** Pages 1..totalPages together are the whole sorted list, in order, each
      element on exactly one page. */
  lemma PagesPartition<T>(s: seq<T>)
    ensures Pages(s, TotalPages(|s|)) == s
  {
    PagesPrefix(s, TotalPages(|s|));
  }

  /** Every page from 1 to totalPages shows something. */
  lemma PageInRangeNonEmpty<T>(s: seq<T>, p: int)
    requires 1 <= p <= TotalPages(|s|)
    ensures Page(s, p) != []
  {
  }

  /** The Previous button: `Math.max(1, currentPage - 1)`. */
  function PreviousPage(p: int): int
  {
    Max(1, p - 1)
  }

  /** The Next button: `Math.min(totalPages, currentPage + 1)`. */
  function NextPage(p: int, totalPages: int): int
  {
    Min(totalPages, p + 1)
  }

  /** Previous and Next keep a page in `1..totalPages` there, moving by one
      page unless already at the end. */
  lemma NavigationClamped(p: int, totalPages: int)
    requires 1 <= p <= totalPages
    ensures 1 <= PreviousPage(p) <= totalPages && 1 <= NextPage(p, totalPages) <= totalPages
    ensures PreviousPage(p) == if p == 1 then 1 else p - 1
    ensures NextPage(p, totalPages) == if p == totalPages then p else p + 1
  {
  }

  // ---- the sort select ----

  /** `value.split(sep)`. */
  function Split(s: string, sep: char): (parts: seq<string>)
    ensures |parts| >= 1
    ensures forall i :: 0 <= i < |parts| ==> sep !in parts[i]
    decreases |s|
  {
    if s == [] then [""]
    else
      var rest := Split(s[1..], sep);
      if s[0] == sep then [""] + rest else [[s[0]] + rest[0]] + rest[1..]
  }

  /** `parts.join(sep)`. */
  function Join(parts: seq<string>, sep: char): string
    requires |parts| >= 1
    decreases |parts|
  {
    if |parts| == 1 then parts[0] else parts[0] + [sep] + Join(parts[1..], sep)
  }

  /** Joining the pieces of a split gives the string back. */
  lemma {:induction false} JoinSplit(s: string, sep: char)
    ensures Join(Split(s, sep), sep) == s
    decreases |s|
  {
    if s != [] {
      var rest := Split(s[1..], sep);
      JoinSplit(s[1..], sep);
      if s[0] == sep {
        assert ([""] + rest)[1..] == rest;
      } else {
        var parts := [[s[0]] + rest[0]] + rest[1..];
        if |rest| > 1 {
          assert parts[1..] == rest[1..];
        }
      }
    }
  }

  /** Splitting a piece without the separator, the separator and a tail. */
  lemma {:induction false} SplitAtSeparator(a: string, sep: char, b: string)
    requires sep !in a
    ensures Split(a + [sep] + b, sep) == [a] + Split(b, sep)
    decreases |a|
  {
    if a == [] {
      assert ([sep] + b)[1..] == b;
    } else {
      assert (a + [sep] + b)[1..] == a[1..] + [sep] + b;
      SplitAtSeparator(a[1..], sep, b);
      assert [a[0]] + a[1..] == a;
    }
  }

  /** A string without the separator splits into itself alone. */
  lemma {:induction false} SplitWithoutSeparator(s: string, sep: char)
    requires sep !in s
    ensures Split(s, sep) == [s]
    decreases |s|
  {
    if s != [] {
      SplitWithoutSeparator(s[1..], sep);
      assert [s[0]] + s[1..] == s;
    }
  }

  function SortKeyName(key: SortKey): string
  {
    match key
    case ByDate => "date"
    case ByAmount => "amount"
    case ByMerchant => "merchant"
  }

  function SortOrderName(order: SortOrder): string
  {
    if order == Asc then "asc" else "desc"
  }

  /** The select's value, `${sortBy}-${sortOrder}`. */
  function SortValue(key: SortKey, order: SortOrder): string
  {
    SortKeyName(key) + "-" + SortOrderName(order)
  }

  /** The key `handleSortChange` reads before the first `-`; anything but
      `date` and `amount` sorts as the merchant branch of the comparator does. */
  function ParseSortKey(s: string): SortKey
  {
    if s == "date" then ByDate else if s == "amount" then ByAmount else ByMerchant
  }

  /** The order after the first `-`; anything but `asc` (even a missing part)
      sorts descending, as the comparator's test for `'asc'` does. */
  function ParseSortOrder(parts: seq<string>): SortOrder
  {
    if |parts| >= 2 && parts[1] == "asc" then Asc else Desc
  }

  /** `handleSortChange`'s reading of a select value. */
  function ParseSortValue(value: string): (SortKey, SortOrder)
  {
    var parts := Split(value, '-');
    (ParseSortKey(parts[0]), ParseSortOrder(parts))
  }

  /** Choosing an option restores the key and order it was made from. */
  lemma SortValueRoundTrip(key: SortKey, order: SortOrder)
    ensures ParseSortValue(SortValue(key, order)) == (key, order)
  {
    var k, o := SortKeyName(key), SortOrderName(order);
    assert '-' !in k;
    SplitAtSeparator(k, '-', o);
    SplitWithoutSeparator(o, '-');
  }

  // ---- the page's state ----

  /** The page component: the current page number, over the store it reads
      the receipts and filters from and writes the filters to. */
  class ListView {
    var currentPage: int
    const store: Store

    /** The page mounts on page 1. */
    constructor (store: Store)
      ensures this.store == store && currentPage == 1
    {
      this.store := store;
      currentPage := 1;
    }

    /** `sortedReceipts` for the store's receipts and filters. */
    function Listed(): seq<Receipt>
      reads this, store
    {
      var f := store.filters;
      SortedReceipts(FilteredReceipts(store.receipts, f.search, f.category), f.sortBy, f.sortOrder)
    }

    function PageCount(): nat
      reads this, store
    {
      TotalPages(|Listed()|)
    }

    /** `paginatedReceipts`. */
    function Shown(): seq<Receipt>
      reads this, store
    {
      Page(Listed(), currentPage)
    }

    /** The current page is one of the pages (page 1 when there are none). */
    ghost predicate Valid()
      reads this, store
    {
      1 <= currentPage <= Max(1, PageCount())
    }

    /** `handleSearchChange`: stores the search text and goes back to page 1. */
    method HandleSearchChange(value: string)
      modifies this, store
      ensures store.filters == MergeFilters(old(store.filters), FiltersPatch(Some(value), None, None, None, None))
      ensures store.receipts == old(store.receipts) && store.categories == old(store.categories)
      ensures currentPage == 1 && Valid()
    {
      store.SetFilters(FiltersPatch(Some(value), None, None, None, None));
      currentPage := 1;
    }

    /** `handleCategoryChange`: stores the category and goes back to page 1. */
    method HandleCategoryChange(value: string)
      modifies this, store
      ensures store.filters == MergeFilters(old(store.filters), FiltersPatch(None, Some(value), None, None, None))
      ensures store.receipts == old(store.receipts) && store.categories == old(store.categories)
      ensures currentPage == 1 && Valid()
    {
      store.SetFilters(FiltersPatch(None, Some(value), None, None, None));
      currentPage := 1;
    }

    /** `handleSortChange`: stores the key and order read from the select's
        value and keeps the page, which stays valid because sorting does not
        change how many receipts are listed. */
    method HandleSortChange(value: string)
      modifies store
      ensures store.filters == MergeFilters(old(store.filters),
        FiltersPatch(None, None, None, Some(ParseSortValue(value).0), Some(ParseSortValue(value).1)))
      ensures store.receipts == old(store.receipts) && store.categories == old(store.categories)
      ensures currentPage == old(currentPage)
      ensures |Listed()| == old(|Listed()|)
      ensures old(Valid()) ==> Valid()
    {
      var (key, order) := ParseSortValue(value);
      store.SetFilters(FiltersPatch(None, None, None, Some(key), Some(order)));
    }

    /** The Previous button, shown when there is more than one page. */
    method PreviousClicked()
      requires Valid() && PageCount() > 1
      modifies this
      ensures currentPage == PreviousPage(old(currentPage)) && Valid()
    {
      currentPage := PreviousPage(currentPage);
    }

    /** The Next button, shown when there is more than one page. */
    method NextClicked()
      requires Valid() && PageCount() > 1
      modifies this
      ensures currentPage == NextPage(old(currentPage), PageCount()) && Valid()
    {
      currentPage := NextPage(currentPage, PageCount());
    }

    /** The numbered link at position `index` (page `index + 1`). */
    method PageLinkClicked(index: int)
      requires 0 <= index < PageCount()
      modifies this
      ensures currentPage == index + 1 && Valid()
    {
      currentPage := index + 1;
    }
  }
}

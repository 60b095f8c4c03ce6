# Memory Lane receipt tracker — a verified model of its core

Memory Lane is a browser receipt tracker. This project models the logic under its UI in Dafny and proves properties of that model:

- **The receipt store** (`useReceiptStore.ts`): receipts, categories and list filters. It supports add, update and delete by id, and filter merge and reset. It is the class `ReceiptStore.Store`, whose `seq` fields each action reassigns.
- **The receipts list page** (`ReceiptsList.tsx`):
  - a case-insensitive search and an exact category filter;
  - a stable sort by date, amount or merchant, in either direction;
  - pages of ten;
  - the page-number state, the class `ReceiptsList.ListView`.
- **The reports page** (`Reports.tsx`):
  - a date-range filter, or a year and month filter;
  - the total;
  - month, category and day buckets;
  - pie-chart colours;
  - the daily chart's order;
  - the year list.
- **The dashboard** (`Dashboard.tsx`):
  - the total and the five most recent receipts;
  - month and category buckets;
  - this month's total against last month's, with the percent change;
  - the top category, found by sorting the pie entries in place.
- **Small rules:**
  - `calculatePercentChange` and the character strip of `parseCurrencyString` (`currency-utils.ts`);
  - the trend of `StatsCard.tsx`;
  - the colour table of `ReceiptCard.tsx`;
  - calendar arithmetic in `date-utils.ts`.
- **The file-upload hook** (`use-file-upload.ts`): validation, the `{file, preview, error, isLoading}` record as the class `FileUpload.FileUploader`, and the callbacks it fires.

Conventions of the model:

- **Amounts** are integer cents. Percentages are `real`.
- **Dates.** A receipt's `YYYY-MM-DD` date is its calendar triple `CalDate`. `DateUtils.IsoDate` and `DateUtils.ParseIsoDate` convert between the two, and the round trip is proved.
  - `DateUtils.DayNumber` counts days from 1970-01-01 in the proleptic Gregorian calendar. An instant is its day number times 86 400 000 ms.
  - `Date` moves an out-of-range month or day into the neighbouring months. `DateUtils.MakeDate` models this overflow, which is all that `setMonth` does.
  - The constructor `new Date(y, m, d)` first reads a year from 0 to 99 as 1900 plus that year (`DateUtils.ConstructorYear`), then overflows as above (`DateUtils.NewDate`).
- **The month "short name"** is the 0-based month index. Bucket keys are therefore month indices, category names and dates.
- **Buckets.** The `reduce` into a dictionary is `Aggregates.GroupByKey`: a loop over a `map` plus the keys' insertion order. It is proved equal to the functional `Aggregates.GroupSum`, a list of buckets in first-occurrence order. That is the order `Object.entries` gives for these keys.
- **Sorting.** `Array.prototype.sort` is the stable insertion sort `Sorting.SortBy`. The in-place `pieChartData.sort` is the array method `Sorting.SortInPlace`, proved to produce `SortBy` of the old contents.
- **Clock, ids and browser calls are parameters.** `crypto.randomUUID()`, `new Date()` readings, `URL.createObjectURL` and today's date are all passed in.
- **Month buckets ignore the year.** `Reports.MonthsMergeAcrossYears` shows that the same month of two years lands in one bucket. The dashboard's "this month" total therefore includes the same month of earlier years. This is kept as the source has it.
- **Where the design notes and the code differ, the model follows the code:**
  - Stability is not the same as the descending list being the ascending one reversed. The mirror holds only when no two receipts tie on the key (`ReceiptsList.DescIsReversedAsc`). `ReceiptsList.DescNotReversedOnTies` shows two tied receipts where it fails.
  - The dashboard's percent change divides by last month's total itself, not by its magnitude. It is 0, not 100, from a zero base (`Dashboard.PercentChangeVersusUtility`).
  - The dashboard's pie chart shows the entries in the order the top-category line leaves them: sorted by value, largest first.

## Model

| member | source | states |
|---|---|---|
| ReceiptStore.DefaultFilters | frontend/src/store/useReceiptStore.ts:65-70 | Empty search and category, no date range, sorted by date descending. |
| ReceiptStore.InitialKeysDistinct | frontend/src/store/useReceiptStore.ts:6-62 | The seed receipts and the seed categories each have pairwise distinct ids. |
| ReceiptStore.Store.constructor | frontend/src/store/useReceiptStore.ts:92-97 | Starts with the seed receipts, seed categories and default filters, not loading and with no error. Ids are distinct. |
| ReceiptStore.NewReceipt | frontend/src/store/useReceiptStore.ts:101-106 | The new receipt has the given id and timestamps, and every other field is taken from the submitted data. |
| ReceiptStore.Store.AddReceipt | frontend/src/store/useReceiptStore.ts:100-108 | Requires a fresh id. Appends exactly one receipt at the end and leaves categories, filters and flags unchanged. Ids stay distinct. Removing the new id gives back the old list. |
| ReceiptStore.PatchReceiptFields | frontend/src/store/useReceiptStore.ts:113 | A patched receipt's `updatedAt` is always now, whatever the patch says. The patch may overwrite `id`. An empty patch changes only `updatedAt`. |
| ReceiptStore.PatchReceiptIdempotent | frontend/src/store/useReceiptStore.ts:113 | Applying the same patch twice equals applying it once, at the later time. |
| ReceiptStore.Store.UpdateReceipt | frontend/src/store/useReceiptStore.ts:110-116 | Keeps the length. Every entry with another id is unchanged, and every entry with the id becomes the patched entry. An absent id leaves the list identical. Nothing else changes. |
| ReceiptStore.Store.DeleteReceipt | frontend/src/store/useReceiptStore.ts:118-120 | The result is the old list without the entries with that id, in the old relative order, and no entry with the id remains. Membership is exactly "old member with another id". An absent id changes nothing. Ids stay distinct. |
| ReceiptStore.MergeFiltersFields | frontend/src/store/useReceiptStore.ts:123-125 | `{...filters, ...partial}`: each field present in the partial is overwritten, and each absent field is kept. |
| ReceiptStore.MergeFiltersIdempotent | frontend/src/store/useReceiptStore.ts:123-125 | Merging the same partial twice equals merging it once. |
| ReceiptStore.MergeFiltersCompose | frontend/src/store/useReceiptStore.ts:123-125 | Two merges in a row equal one merge of the combined partial, in which the later partial wins. |
| ReceiptStore.Store.SetFilters | frontend/src/store/useReceiptStore.ts:123-125 | The filters become the merge of the old filters and the partial. Receipts and categories are unchanged. |
| ReceiptStore.Store.ResetFilters | frontend/src/store/useReceiptStore.ts:127-129 | The filters become the defaults whatever they were before. Nothing else changes. |
| ReceiptStore.Store.AddCategory | frontend/src/store/useReceiptStore.ts:132-138 | Requires a fresh id. Appends exactly one category built from the data and the id, keeps category ids distinct, and leaves receipts and filters unchanged. |
| ReceiptStore.PatchCategoryIdempotent | frontend/src/store/useReceiptStore.ts:142 | Patching a category twice with the same patch equals patching it once. |
| ReceiptStore.Store.UpdateCategory | frontend/src/store/useReceiptStore.ts:140-144 | Keeps the length. Every entry with another id is unchanged, and an absent id changes nothing. Receipts are unchanged. |
| ReceiptStore.Store.DeleteCategory | frontend/src/store/useReceiptStore.ts:146-148 | Removes every category with the id. Receipts are never touched, so receipts may keep names of deleted categories. |
| Keyed.UpdateWhere | frontend/src/store/useReceiptStore.ts:111-115 | `map` by id: same length, and each entry is transformed exactly when its key is the id. |
| Keyed.WithoutRemovesExactly | frontend/src/store/useReceiptStore.ts:119 | `filter` by id: the result is a subsequence of the input, no entry with the id remains, and every other entry stays. |
| Keyed.WithoutAbsent | frontend/src/store/useReceiptStore.ts:119 | Filtering out an id that is not present returns the input unchanged. |
| Keyed.UpdateWhereAbsent | frontend/src/store/useReceiptStore.ts:111-115 | Mapping over an id that is not present returns the input unchanged. |
| Keyed.AppendFreshDistinct | frontend/src/store/useReceiptStore.ts:103-107 | Appending an entry whose id is fresh keeps ids pairwise distinct. |
| Keyed.AppendThenRemove | frontend/src/store/useReceiptStore.ts:107-119 | Deleting a freshly added id gives back the list from before the add. |
| Keyed.WithoutKeepsDistinct | frontend/src/store/useReceiptStore.ts:119 | Deleting by id keeps ids pairwise distinct. |
| Keyed.UpdateWhereKeepsDistinct | frontend/src/store/useReceiptStore.ts:111-115 | A by-id update that does not change ids keeps them pairwise distinct. |
| ReceiptsList.ToLower | frontend/src/pages/ReceiptsList.tsx:60-61 | `toLowerCase` keeps the length and lower-cases each character. |
| ReceiptsList.FilteredReceiptsSpec | frontend/src/pages/ReceiptsList.tsx:58-69 | The filtered list is a subsequence of the receipts. A receipt is kept iff it matches the search (empty search, or the lower-cased search inside the lower-cased merchant or category) and the category (empty, or exactly equal). |
| ReceiptsList.FilteredCategoryExact | frontend/src/pages/ReceiptsList.tsx:64-66 | With a non-empty category filter, every kept receipt has exactly that category. |
| ReceiptsList.NoFiltersKeepAll | frontend/src/pages/ReceiptsList.tsx:58-69 | With empty search and empty category the filtered list is the whole list. |
| ReceiptsList.SearchIgnoresCase | frontend/src/pages/ReceiptsList.tsx:59-61 | A search and its lower-cased form keep the same receipts. |
| ReceiptsList.LexCompare | frontend/src/pages/ReceiptsList.tsx:86-90 | The merchant comparison returns -1, 0 or 1, and 0 exactly for equal strings. |
| ReceiptsList.LexCompareAntisymmetric | frontend/src/pages/ReceiptsList.tsx:88-90 | Swapping the operands negates the comparison. This is why `desc` may swap them. |
| ReceiptsList.LexCompareTransitive | frontend/src/pages/ReceiptsList.tsx:86-90 | The merchant order is transitive. |
| ReceiptsList.AscComparatorConsistent | frontend/src/pages/ReceiptsList.tsx:72-91 | Each ascending key comparison is a total preorder, so the sort is well defined. |
| ReceiptsList.ComparatorConsistent | frontend/src/pages/ReceiptsList.tsx:72-91 | The comparator for either direction is a total preorder. |
| ReceiptsList.SortedReceiptsOrdered | frontend/src/pages/ReceiptsList.tsx:72-91 | The sorted list is a permutation of the filtered list. It is non-decreasing by the key for `asc` and non-increasing for `desc`. |
| ReceiptsList.SortedReceiptsStable | frontend/src/pages/ReceiptsList.tsx:72-91 | Receipts that tie on the key keep their filtered order, in both directions. |
| ReceiptsList.DescIsReversedAsc | frontend/src/pages/ReceiptsList.tsx:72-91 | When no two distinct receipts tie on the key, the `desc` list is the `asc` list reversed. |
| ReceiptsList.DescNotReversedOnTies | frontend/src/pages/ReceiptsList.tsx:79-83 | Two distinct receipts with equal amounts come out in input order both ways, so `desc` is then not `asc` reversed. |
| ReceiptsList.TotalPages | frontend/src/pages/ReceiptsList.tsx:94 | `ceil(n / 10)`: the pages cover the list, and the last page is not empty. |
| ReceiptsList.Page | frontend/src/pages/ReceiptsList.tsx:94-99 | A page has at most ten receipts. Page p is the slice from (p-1)*10 to p*10, clamped to the list. |
| ReceiptsList.PagesPartition | frontend/src/pages/ReceiptsList.tsx:94-99 | Pages 1 to totalPages, concatenated, are exactly the sorted list. |
| ReceiptsList.PagesPrefix | frontend/src/pages/ReceiptsList.tsx:95-99 | The first k pages, concatenated, are the first min(10k, n) receipts. |
| ReceiptsList.PageInRangeNonEmpty | frontend/src/pages/ReceiptsList.tsx:94-99 | Every page from 1 to totalPages shows at least one receipt. |
| ReceiptsList.NavigationClamped | frontend/src/pages/ReceiptsList.tsx:223-241 | Previous and Next keep the page within 1..totalPages. They move by one except at the ends, where the page stays put. |
| ReceiptsList.JoinSplit | frontend/src/pages/ReceiptsList.tsx:50 | Joining the pieces of a split on a separator gives the string back. |
| ReceiptsList.SplitAtSeparator | frontend/src/pages/ReceiptsList.tsx:50 | Splitting `a-b`, where `a` has no separator, gives `a` followed by the pieces of `b`. |
| ReceiptsList.SortValueRoundTrip | frontend/src/pages/ReceiptsList.tsx:50-54 | Splitting the select's value `${sortBy}-${sortOrder}` on `-` gives back the key and the order. |
| ReceiptsList.ListView.constructor | frontend/src/pages/ReceiptsList.tsx:35 | The page starts at 1. |
| ReceiptsList.ListView.HandleSearchChange | frontend/src/pages/ReceiptsList.tsx:39-42 | Sets only the search filter, and the page becomes 1. |
| ReceiptsList.ListView.HandleCategoryChange | frontend/src/pages/ReceiptsList.tsx:44-47 | Sets only the category filter, and the page becomes 1. |
| ReceiptsList.ListView.HandleSortChange | frontend/src/pages/ReceiptsList.tsx:49-55 | Sets the sort key and order parsed from the value. The page is kept, and a page that was in range stays in range, because sorting does not change the number of receipts. |
| ReceiptsList.ListView.PreviousClicked | frontend/src/pages/ReceiptsList.tsx:223 | `max(1, page - 1)`. The page stays in range. |
| ReceiptsList.ListView.NextClicked | frontend/src/pages/ReceiptsList.tsx:241 | `min(totalPages, page + 1)`. The page stays in range. |
| ReceiptsList.ListView.PageLinkClicked | frontend/src/pages/ReceiptsList.tsx:228-231 | The link with index i goes to page i + 1. |
| Aggregates.TotalAppend | frontend/src/pages/Dashboard.tsx:38 | The `reduce` sum is additive over concatenation. |
| Aggregates.Lookup | frontend/src/pages/Dashboard.tsx:89-90 | A bucket lookup finds a value exactly when the key has a bucket. |
| Aggregates.LookupMember | frontend/src/pages/Dashboard.tsx:89-90 | With distinct keys, looking up a bucket's key gives that bucket's amount. |
| Aggregates.AddTo | frontend/src/pages/Reports.tsx:87-90 | `acc[k] += amount` adds the amount to the bucket total. |
| Aggregates.AddToKeys | frontend/src/pages/Reports.tsx:87-90 | A new key is appended after the existing keys, and an existing key keeps its place. |
| Aggregates.AddToLookupSame | frontend/src/pages/Reports.tsx:87-90 | After the update, the key holds its old value (0 if absent) plus the amount. |
| Aggregates.AddToLookupOther | frontend/src/pages/Reports.tsx:87-90 | The update leaves every other key's value as it was. |
| Aggregates.AddToLookup | frontend/src/pages/Reports.tsx:87-90 | After the update, the key holds its old value (0 if absent) plus the amount. Every other key is unchanged. |
| Aggregates.GroupSum | frontend/src/pages/Reports.tsx:85-92 | The bucket totals add up to the total of the receipts grouped. |
| Aggregates.GroupSumKeysDistinct | frontend/src/pages/Reports.tsx:85-92 | Each key has one bucket. |
| Aggregates.GroupSumHasKey | frontend/src/pages/Reports.tsx:100-106 | A key has a bucket iff some receipt has that key. |
| Aggregates.GroupSumValue | frontend/src/pages/Reports.tsx:100-106 | A key's bucket holds the total of exactly the receipts with that key. |
| Aggregates.GroupSumLookup | frontend/src/pages/Reports.tsx:100-106 | A key has a bucket iff some receipt has that key. Its value is the total of exactly the receipts with that key. |
| Aggregates.AddEntry | frontend/src/pages/Dashboard.tsx:47-50 | The `reduce` callback: a key already present gets the amount added and keeps its place; a new key starts at the amount and goes to the end of the insertion order. |
| Aggregates.GroupByKey | frontend/src/pages/Dashboard.tsx:46-67 | The `reduce` loop over a dictionary plus insertion order returns exactly `GroupSum`. The loop invariant ties the map to the buckets of the receipts seen so far. |
| Aggregates.FindByName | frontend/src/pages/Reports.tsx:115 | `categories.find` by name returns nothing iff no category has the name. Otherwise it returns a category with that name. |
| Aggregates.FindByNameFirst | frontend/src/pages/Reports.tsx:115 | The category found is the first one with that name. |
| Aggregates.ColorOf | frontend/src/pages/Reports.tsx:115-119 | The colour is never empty. It is grey `#9E9E9E` when no category has the name or the first match's colour is empty, and the first match's colour otherwise. |
| Aggregates.PieChartData | frontend/src/pages/Reports.tsx:114-121 | One entry per bucket, in bucket order, with the bucket's name and value and the looked-up colour. |
| Aggregates.PieSumIsBucketSum | frontend/src/pages/Reports.tsx:114-121 | The pie values add up to the bucket totals. |
| Reports.ReportReceiptsSpec | frontend/src/pages/Reports.tsx:56-79 | The report's receipts are a subsequence of the store's. A receipt is kept iff it is in the range (both ends set) or else in the selected year, and in the selected month unless 'all'. |
| Reports.RangeOverridesSelects | frontend/src/pages/Reports.tsx:60-62 | With both range ends set, the selected year and month make no difference. |
| Reports.HalfRangeIgnored | frontend/src/pages/Reports.tsx:60 | A range with only one end set is ignored. |
| Reports.DailyComparatorConsistent | frontend/src/pages/Reports.tsx:138 | The daily chart's comparator is a total preorder. |
| Reports.BuildReport | frontend/src/pages/Reports.tsx:56-138 | Each derived value of the page is its specification: filtered receipts, total, month, category and daily buckets, pie entries, and the daily buckets sorted by date. |
| Reports.ReportTotalsAgree | frontend/src/pages/Reports.tsx:82-106 | The month buckets, the category buckets and the pie entries each add up to `totalAmount`. |
| Reports.MonthsMergeAcrossYears | frontend/src/pages/Reports.tsx:86 | Two receipts in the same month of different years share a single bucket holding both amounts. |
| Reports.DailyChartSpec | frontend/src/pages/Reports.tsx:124-138 | The daily chart is sorted ascending by date and is a permutation of the day buckets. Each entry holds the total of its date's receipts, and every receipt's date has an entry. |
| Reports.Years | frontend/src/pages/Reports.tsx:141-142 | Five years, starting at the current year, strictly decreasing. |
| Reports.YearsRange | frontend/src/pages/Reports.tsx:141-142 | A year is offered iff it lies between current − 4 and current. |
| Dashboard.RecentReceipts | frontend/src/pages/Dashboard.tsx:41-43 | `min(5, n)` receipts, the first ones of the copy sorted newest first. |
| Dashboard.RecentReceiptsNewestFirst | frontend/src/pages/Dashboard.tsx:41-43 | The recent receipts come from the store and are in non-increasing date order. |
| Dashboard.RecentReceiptsNewest | frontend/src/pages/Dashboard.tsx:41-43 | No receipt left out is newer than any receipt shown. |
| Dashboard.PreviousMonthIndex | frontend/src/pages/Dashboard.tsx:86-87 | Corrected last month: a month index other than this month's, 11 in January and the previous index otherwise. |
| Dashboard.LastMonthOverflows | frontend/src/pages/Dashboard.tsx:86-87 | As written, from the 29th on, a day the previous month lacks makes "last month" this month. |
| Dashboard.LastMonthOverflowExample | frontend/src/pages/Dashboard.tsx:85-93 | On 31 March of any year the page reads March's bucket twice and shows a change of 0. The previous month is February. |
| Dashboard.LastMonthAgreesEarlyInMonth | frontend/src/pages/Dashboard.tsx:86-87 | Up to day 28, the page's computation gives the previous calendar month. |
| Dashboard.PercentChange | frontend/src/pages/Dashboard.tsx:91-93 | 0 when last month is 0. From a positive base, the sign follows this month against last month. |
| Dashboard.PercentChangeVersusUtility | frontend/src/pages/Dashboard.tsx:91-93 | It agrees with `calculatePercentChange` from a positive base. From a zero base it gives 0 where the utility gives 100. From a negative base it has the opposite sign. |
| Dashboard.ArrowDirection | frontend/src/pages/Dashboard.tsx:138-144 | From a positive base the arrow points up iff spending did not fall. From a zero base it always points up. |
| Dashboard.ValueDescConsistent | frontend/src/pages/Dashboard.tsx:96 | `b.value - a.value` is a total preorder. |
| Dashboard.TopCategoryIsFirstMax | frontend/src/pages/Dashboard.tsx:96 | The entry sorted first has the maximum value, and it is the first such entry in bucket order. |
| Dashboard.TopCategoryOfNothing | frontend/src/pages/Dashboard.tsx:96 | With no entries the top category is 'None'. |
| Dashboard.TopCategory | frontend/src/pages/Dashboard.tsx:96 | Sorts the pie array in place, largest value first, and returns the first entry's name, or 'None' when there is none or it is empty. |
| Dashboard.BuildDashboard | frontend/src/pages/Dashboard.tsx:38-96 | Each derived value of the page is its specification, with last month as the previous calendar month and the pie left sorted. |
| Sorting.SortBySorted | frontend/src/pages/ReceiptsList.tsx:72 | The stable sort returns a permutation of its input, ordered by any total-preorder comparator. |
| Sorting.SortByStable | frontend/src/pages/ReceiptsList.tsx:72 | Elements that tie keep their input order. |
| Sorting.SortByFlipIsReverse | frontend/src/pages/ReceiptsList.tsx:72-91 | When only equal elements tie, sorting with the swapped comparator gives the reverse. |
| Sorting.SortByHeadFirst | frontend/src/pages/Dashboard.tsx:96 | The first element of the sorted copy may precede every element. |
| Sorting.SortByHeadEarliestOfTies | frontend/src/pages/Dashboard.tsx:96 | The first element of the sorted copy is the earliest input element among those it ties with. |
| Sorting.SortInPlace | frontend/src/pages/Dashboard.tsx:96 | The in-place array sort leaves the array holding `SortBy` of its old contents. |
| CurrencyUtils.CalculatePercentChange | frontend/src/lib/currency-utils.ts:43-46 | Off a zero base, the sign is that of new − old. On a zero base, the result is 0 iff new is 0. |
| CurrencyUtils.PercentChangeFromZero | frontend/src/lib/currency-utils.ts:44 | From 0 the result is 0 for 0 and 100 for any other value, negative ones included. |
| CurrencyUtils.PercentChangeOfSame | frontend/src/lib/currency-utils.ts:45 | No change gives 0. |
| CurrencyUtils.PercentChangeRoundTrip | frontend/src/lib/currency-utils.ts:45 | Off a zero base, applying the computed percentage to the old value gives back the new value. |
| CurrencyUtils.StripKeepsExactlyNumeric | frontend/src/lib/currency-utils.ts:95 | The strip keeps exactly the characters `0-9 . -`, in their original order. |
| CurrencyUtils.StripNumericUnchanged | frontend/src/lib/currency-utils.ts:95 | A string of only those characters is unchanged. |
| CurrencyUtils.StripIdempotent | frontend/src/lib/currency-utils.ts:95 | Stripping twice is stripping once. |
| CurrencyUtils.StripExample | frontend/src/lib/currency-utils.ts:95 | A dollar sign and a thousands comma are dropped and the numeric parts around them kept, so `$1,234.56` strips to `1234.56`. |
| StatsCard.CalculatedTrend | frontend/src/components/dashboard/StatsCard.tsx:35-41 | An explicit trend wins. Otherwise the trend is absent iff there is no previous value, and is up, down or neutral exactly as the value is above, below or equal to it. |
| StatsCard.CalculatedTrendValue | frontend/src/components/dashboard/StatsCard.tsx:44-48 | An explicit trend value wins. Otherwise a value is derived iff a previous value exists and is not 0. |
| StatsCard.DisplayedMagnitude | frontend/src/components/dashboard/StatsCard.tsx:81 | The number shown is the trend value's magnitude. |
| StatsCard.DerivedTrendAgrees | frontend/src/components/dashboard/StatsCard.tsx:35-48 | The derived value is `calculatePercentChange(prev, value)`. The derived trend is up iff that value is positive, and down iff it is negative. |
| StatsCard.IndicatorHiddenWithoutBase | frontend/src/components/dashboard/StatsCard.tsx:69 | Without explicit values, the indicator shows iff a previous value exists and is not 0. |
| DateUtils.DaysInMonth | frontend/src/lib/date-utils.ts:98-101 | A month has 28 to 31 days. February has 29 exactly in a Gregorian leap year. |
| DateUtils.MonthLength | frontend/src/lib/date-utils.ts:98-101 | Day 1 of the next month comes `DaysInMonth` days after day 1 of this month. |
| DateUtils.Normalize | frontend/src/lib/date-utils.ts:89-99 | An out-of-range day moves into neighbouring months, giving a valid date on the same day number. |
| DateUtils.MakeDate | frontend/src/pages/Dashboard.tsx:86-87 | The month and day overflow of `setMonth`: a valid date on the day number of the normalised year, month and day. |
| DateUtils.NormalizeIntoNextMonth | frontend/src/pages/Dashboard.tsx:86-87 | A day past the end of a month that the following month of the same year can hold lands in that following month, as `setMonth` lets it. |
| DateUtils.DayNumberInjective | frontend/src/lib/date-utils.ts:89-99 | Two valid dates on the same day number are equal. |
| DateUtils.ParseIsoDateRoundTrip | frontend/src/lib/date-utils.ts:90-100 | Parsing the `YYYY-MM-DD` form of a date gives the date back. |
| DateUtils.IsoDateInjective | frontend/src/lib/date-utils.ts:90-100 | Different dates have different `YYYY-MM-DD` strings. |
| DateUtils.DatePart | frontend/src/lib/date-utils.ts:47 | `split('T')[0]` is the prefix before the first 'T'. |
| DateUtils.DatePartOfTimestamp | frontend/src/lib/date-utils.ts:47 | The date part of an ISO timestamp is its `YYYY-MM-DD` date. |
| DateUtils.DaysDifference | frontend/src/lib/date-utils.ts:56-65 | The ceiling of the absolute millisecond gap over 86 400 000. |
| DateUtils.DaysDifferenceSymmetric | frontend/src/lib/date-utils.ts:61 | The difference does not depend on the order of the arguments. |
| DateUtils.DaysDifferenceSmall | frontend/src/lib/date-utils.ts:61-62 | It is 0 iff the instants are equal, and 1 for any gap from 1 ms to one day. |
| DateUtils.DaysDifferenceOfDates | frontend/src/lib/date-utils.ts:56-65 | Between two midnights it is the number of calendar days between them. |
| DateUtils.IsDateInPast | frontend/src/lib/date-utils.ts:72-81 | True iff the check instant's day is strictly before today's day. The same day gives false. |
| DateUtils.FirstDayOfMonth | frontend/src/lib/date-utils.ts:88-91 | Day 1 of the same month, as `YYYY-MM-DD`, in the year the constructor reads: the date's own year, or 1900 plus it for years 0 to 99. |
| DateUtils.MonthBoundsKeepYear | frontend/src/lib/date-utils.ts:88-101 | Outside years 0 to 99, the first and last day are in the date's own year and month. |
| DateUtils.LastDayOfMonth | frontend/src/lib/date-utils.ts:98-101 | The last day of the same month, as `YYYY-MM-DD`, in the year the constructor reads: the date's own year, or 1900 plus it for years 0 to 99. |
| DateUtils.LastDayOfMonthYearZero | frontend/src/lib/date-utils.ts:98-99 | In February of year 0 the last day is 1900-02-28: the constructor reads year 1900, which is not a leap year although year 0 is. |
| ReceiptCard.LookupColor | frontend/src/components/receipts/ReceiptCard.tsx:33 | Looking up a name in the table finds nothing iff no entry has that exact name. Otherwise it finds an entry's colour. |
| ReceiptCard.CategoryColor | frontend/src/components/receipts/ReceiptCard.tsx:20-34 | Never empty. Grey for a name the table lacks or whose colour is empty, and the table's colour otherwise. |
| ReceiptCard.KnownColors | frontend/src/components/receipts/ReceiptCard.tsx:22-31 | Each of the eight names is drawn in its own colour from the table. |
| ReceiptCard.OtherLooksUnknown | frontend/src/components/receipts/ReceiptCard.tsx:30-33 | 'Other' gets the same grey as any name not in the table. |
| ReceiptCard.CardColorMatchesSeed | frontend/src/components/receipts/ReceiptCard.tsx:22-33 | For every name, the card's colour equals the colour the charts look up among the seed categories. |
| ReceiptCard.LookupIsFindByName | frontend/src/components/receipts/ReceiptCard.tsx:33 | A name-to-colour table lookup finds the first category with that name, like `find` does. |
| FileUpload.Decimal | frontend/src/hooks/use-file-upload.ts:42 | The limit in the size message is written in decimal digits, with no leading zero. |
| FileUpload.ParseDecimal | frontend/src/hooks/use-file-upload.ts:42 | Reading those digits back gives the limit. |
| FileUpload.MessagesDistinguish | frontend/src/hooks/use-file-upload.ts:38-42 | The type and size messages differ, and the size message determines the limit. |
| FileUpload.ValidateFile | frontend/src/hooks/use-file-upload.ts:34-46 | Accepted iff the type is in the list and the size is at most maxSizeInMB·1024·1024, so exactly the limit passes. A bad type always gets the type message, whatever the size. The size message comes only for accepted types. |
| FileUpload.ValidateMonotone | frontend/src/hooks/use-file-upload.ts:36-46 | More accepted types and a larger limit never reject a file that was accepted. |
| FileUpload.DefaultsAccept | frontend/src/hooks/use-file-upload.ts:20-34 | With the defaults, exactly JPEG, PNG, GIF and PDF files of at most 5 242 880 bytes pass. |
| FileUpload.HandleFileOutcome | frontend/src/hooks/use-file-upload.ts:58-80 | Handling ends not loading, with two callbacks, the first being the start callback. |
| FileUpload.InitialConsistent | frontend/src/hooks/use-file-upload.ts:27-32 | The initial record is consistent. |
| FileUpload.HandleFileSpec | frontend/src/hooks/use-file-upload.ts:58-80 | Handling keeps the record consistent. On rejection it keeps the old file and preview, shows the message and fires the error callback. On acceptance the record becomes `{file, preview, null, false}` and the success callback fires. |
| FileUpload.FileUploader.constructor | frontend/src/hooks/use-file-upload.ts:18-32 | Missing options take the defaults, and the record starts all-null and not loading. |
| FileUpload.FileUploader.HandleFile | frontend/src/hooks/use-file-upload.ts:58-80 | The new record and the callbacks fired are those of `HandleFileOutcome`, and the record stays consistent. |
| FileUpload.FileUploader.HandleFiles | frontend/src/hooks/use-file-upload.ts:48-90 | An absent or empty file list changes nothing and fires nothing. Otherwise the first file is handled. |
| FileUpload.FileUploader.Reset | frontend/src/hooks/use-file-upload.ts:107-117 | Back to the initial record. |

## Left out

- Persistence of the store to local storage, and the login flag: browser I/O.
- `crypto.randomUUID()` and every `new Date()` reading: they are parameters. `AddReceipt` takes `createdAt` and `updatedAt` separately, since they come from two clock reads.
- Time zones. `IsDateInPast` takes instants already in local time. `FirstDayOfMonth` and `LastDayOfMonth` are pure calendar arithmetic. The day shift that `toISOString()` causes east of UTC is not modelled.
- Date strings are taken to be well-formed `YYYY-MM-DD`. Parsing malformed dates into `Invalid Date`, and the UTC reading of date-only strings, are not modelled.
- Floating point: amounts are cents, and percentages are exact reals. `parseFloat` in `parseCurrencyString` is not modelled, only its strip step. The upload limit `maxSizeInMB` is a whole number of megabytes: a fractional option such as 2.5 (a limit of 2 621 440 bytes and the message "2.5MB") is not modelled.
- Locale and `Intl`: month names are month indices. `localeCompare` is code-unit lexicographic order. `toLowerCase` lowers ASCII letters only. Number and date formatting for display is not modelled.
- Dictionary keys named like `Object.prototype` members (`constructor`, `toString`) are not modelled. Neither are integer-like keys, which `Object.entries` would list first. No month index, category name or date string used here is affected except a category named like one of those, or named with digits only.
- `ReceiptStore.PatchReceipt`: a partial that sets a required field to `undefined` explicitly is not modelled. A partial either leaves a required field out or gives it a value.
- The browser's `URL.createObjectURL` and `revokeObjectURL`: the preview URL is a parameter, and `Reset` does not release the old one.
- `handleFileChange` is memoised with no dependencies, so it keeps the first render's `handleFile`. The model's options are fixed at construction, so this makes no difference here.
- The transient `isLoading: true` at the start of `handleFile` is not observable in the model: React batches the updates of one handler, and the model exposes only the state at the end.
- The drag-over, drag-enter and drag-leave handlers only cancel browser events and change no state.
- `ReceiptFilters.tsx` repeats the sort-value split of `ReceiptsList.tsx` and is not part of this model. Neither are the rendering-only pages and components.
- A sort value outside the select's options is stored as the behaviour the comparator gives it: a key other than `date` or `amount` sorts by merchant, and an order other than `asc` sorts descending. The raw string the store would hold is not modelled.
- `Dashboard.BuildDashboard` uses the corrected previous month (see Findings). `Dashboard.LastMonthIndexAsWritten` keeps the page's own computation.

## Findings

| source | as written | input that shows it | evidently intended | confidence | as-written member | corrected member |
|---|---|---|---|---|---|---|
| frontend/src/pages/Dashboard.tsx:86-87 | `setMonth(getMonth() - 1)` keeps the day of the month, so a day the previous month lacks runs over into the current month | today = 31 March of any year, e.g. 2024-03-31: "last month" becomes March 2 (March), so this month's and last month's totals are the same bucket and the change shown is 0 | the previous calendar month (February) | not executed | Dashboard.LastMonthOverflowExample | Dashboard.PreviousMonthIndex |

/** The receipt store (`store/useReceiptStore.ts`): one object holding the
    receipts, the categories and the list filters, whose actions replace
    those fields with updated copies. The fresh id (`crypto.randomUUID()`)
    and the clock reading (`new Date().toISOString()`) are parameters. */
module ReceiptStore {
  import opened Types
  import opened Keyed

  function ReceiptId(r: Receipt): string { r.id }

  function CategoryId(c: Category): string { c.id }

  /** The eight seed categories. */
  function InitialCategories(): seq<Category>
  {
    [ Category("1", "Groceries", "#4CAF50"),
      Category("2", "Dining", "#FF9800"),
      Category("3", "Transportation", "#2196F3"),
      Category("4", "Entertainment", "#9C27B0"),
      Category("5", "Shopping", "#F44336"),
      Category("6", "Utilities", "#607D8B"),
      Category("7", "Healthcare", "#00BCD4"),
      Category("8", "Other", "#9E9E9E") ]
  }

  /** The four seed receipts, amounts in cents. */
  function InitialReceipts(): seq<Receipt>
  {
    [ Receipt("1", "Walmart", CalDate(2023, 10, 15), 5678, "Groceries",
        Some("Weekly grocery shopping"), Some("https://placehold.co/300x400/png"),
        Some([ ReceiptItem("1-1", "Milk", 399, None),
               ReceiptItem("1-2", "Bread", 249, None),
               ReceiptItem("1-3", "Eggs", 499, None) ]),
        None, "2023-10-15T12:00:00Z", "2023-10-15T12:00:00Z"),
      Receipt("2", "Amazon", CalDate(2023, 10, 12), 12999, "Shopping",
        None, None, None, None, "2023-10-12T14:30:00Z", "2023-10-12T14:30:00Z"),
      Receipt("3", "Starbucks", CalDate(2023, 10, 10), 545, "Dining",
        None, None, None, None, "2023-10-10T09:15:00Z", "2023-10-10T09:15:00Z"),
      Receipt("4", "Shell", CalDate(2023, 10, 8), 4500, "Transportation",
        None, None, None, None, "2023-10-08T17:45:00Z", "2023-10-08T17:45:00Z") ]
  }

  /** `defaultFilters`: no search, no category, no date range, newest first. */
  function DefaultFilters(): (f: Filters)
    ensures f.search == "" && f.category == "" && f.dateRange.None?
    ensures f.sortBy == ByDate && f.sortOrder == Desc
  {
    Filters("", "", None, ByDate, Desc)
  }

  /** The seed data has distinct ids. */
  lemma InitialKeysDistinct()
    ensures DistinctKeys(InitialReceipts(), ReceiptId)
    ensures DistinctKeys(InitialCategories(), CategoryId)
  {
  }

  /** `{ ...receiptData, id, createdAt, updatedAt }`. */
  function NewReceipt(data: ReceiptData, id: string, createdAt: string, updatedAt: string): (r: Receipt)
    ensures r.id == id && r.createdAt == createdAt && r.updatedAt == updatedAt
    ensures ToData(r) == data
  {
    Receipt(id, data.merchant, data.date, data.amount, data.category,
      data.notes, data.imageUrl, data.items, data.tags, createdAt, updatedAt)
  }

  /** The fields of a receipt a caller supplies on creation. */
  function ToData(r: Receipt): ReceiptData
  {
    ReceiptData(r.merchant, r.date, r.amount, r.category, r.notes, r.imageUrl, r.items, r.tags)
  }

  /** `{ ...receipt, ...updates, updatedAt: now }`: each field present in the
      patch overrides, `updatedAt` is always the clock reading. */
  function PatchReceipt(r: Receipt, p: ReceiptPatch, now: string): Receipt
  {
    Receipt(
      p.id.GetOr(r.id), p.merchant.GetOr(r.merchant), p.date.GetOr(r.date),
      p.amount.GetOr(r.amount), p.category.GetOr(r.category), p.notes.GetOr(r.notes),
      p.imageUrl.GetOr(r.imageUrl), p.items.GetOr(r.items), p.tags.GetOr(r.tags),
      p.createdAt.GetOr(r.createdAt), now)
  }

  function Patcher(p: ReceiptPatch, now: string): Receipt -> Receipt
  {
    r => PatchReceipt(r, p, now)
  }

  const EmptyReceiptPatch := ReceiptPatch(None, None, None, None, None, None, None, None, None, None, None)

  /** An empty patch only refreshes `updatedAt`; a patch carrying its own
      `updatedAt` is still overridden by the clock. */
  lemma PatchReceiptFields(r: Receipt, p: ReceiptPatch, now: string)
    ensures PatchReceipt(r, p, now).updatedAt == now
    ensures PatchReceipt(r, EmptyReceiptPatch, now) == r.(updatedAt := now)
    ensures p.id.None? ==> PatchReceipt(r, p, now).id == r.id
    ensures p.id.Some? ==> PatchReceipt(r, p, now).id == p.id.value
  {
  }

  /** Applying the same patch twice is applying it once, at the later time. */
  lemma PatchReceiptIdempotent(r: Receipt, p: ReceiptPatch, t1: string, t2: string)
    ensures PatchReceipt(PatchReceipt(r, p, t1), p, t2) == PatchReceipt(r, p, t2)
  {
  }

  /** `{ ...category, ...updates }`. */
  function PatchCategory(c: Category, p: CategoryPatch): Category
  {
    Category(p.id.GetOr(c.id), p.name.GetOr(c.name), p.color.GetOr(c.color))
  }

  function CategoryPatcher(p: CategoryPatch): Category -> Category
  {
    c => PatchCategory(c, p)
  }

  /** Applying the same category patch twice is applying it once. */
  lemma PatchCategoryIdempotent(c: Category, p: CategoryPatch)
    ensures PatchCategory(PatchCategory(c, p), p) == PatchCategory(c, p)
  {
  }

  /** `{ ...state.filters, ...newFilters }`. */
  function MergeFilters(f: Filters, p: FiltersPatch): Filters
  {
    Filters(p.search.GetOr(f.search), p.category.GetOr(f.category),
      p.dateRange.GetOr(f.dateRange), p.sortBy.GetOr(f.sortBy), p.sortOrder.GetOr(f.sortOrder))
  }

  /** Two successive partial updates as one: the later one's fields win. */
  function CombinePatches(p: FiltersPatch, q: FiltersPatch): FiltersPatch
  {
    FiltersPatch(
      if q.search.Some? then q.search else p.search,
      if q.category.Some? then q.category else p.category,
      if q.dateRange.Some? then q.dateRange else p.dateRange,
      if q.sortBy.Some? then q.sortBy else p.sortBy,
      if q.sortOrder.Some? then q.sortOrder else p.sortOrder)
  }

  /** Merging overwrites exactly the fields present in the patch. */
  lemma MergeFiltersFields(f: Filters, p: FiltersPatch)
    ensures p.search.Some? ==> MergeFilters(f, p).search == p.search.value
    ensures p.search.None? ==> MergeFilters(f, p).search == f.search
    ensures p.category.Some? ==> MergeFilters(f, p).category == p.category.value
    ensures p.category.None? ==> MergeFilters(f, p).category == f.category
    ensures p.dateRange.Some? ==> MergeFilters(f, p).dateRange == p.dateRange.value
    ensures p.dateRange.None? ==> MergeFilters(f, p).dateRange == f.dateRange
    ensures p.sortBy.Some? ==> MergeFilters(f, p).sortBy == p.sortBy.value
    ensures p.sortBy.None? ==> MergeFilters(f, p).sortBy == f.sortBy
    ensures p.sortOrder.Some? ==> MergeFilters(f, p).sortOrder == p.sortOrder.value
    ensures p.sortOrder.None? ==> MergeFilters(f, p).sortOrder == f.sortOrder
  {
  }

  /** Merging the same partial filters twice is merging them once. */
  lemma MergeFiltersIdempotent(f: Filters, p: FiltersPatch)
    ensures MergeFilters(MergeFilters(f, p), p) == MergeFilters(f, p)
  {
  }

  /** Two merges in a row are one merge of the combined patch. */
  lemma MergeFiltersCompose(f: Filters, p: FiltersPatch, q: FiltersPatch)
    ensures MergeFilters(MergeFilters(f, p), q) == MergeFilters(f, CombinePatches(p, q))
  {
  }

  class Store {
    var receipts: seq<Receipt>
    var categories: seq<Category>
    var filters: Filters
    var isLoading: bool
    var error: Option<string>

    /** The initial state: seed receipts and categories, default filters. */
    constructor ()
      ensures receipts == InitialReceipts() && categories == InitialCategories()
      ensures filters == DefaultFilters() && !isLoading && error.None?
      ensures DistinctKeys(receipts, ReceiptId) && DistinctKeys(categories, CategoryId)
    {
      receipts := InitialReceipts();
      categories := InitialCategories();
      filters := DefaultFilters();
      isLoading := false;
      error := None;
      InitialKeysDistinct();
    }

    /** `addReceipt`: appends one new receipt under a fresh id. */
    method AddReceipt(data: ReceiptData, id: string, createdAt: string, updatedAt: string)
      requires !HasKey(receipts, ReceiptId, id)
      modifies this
      ensures receipts == old(receipts) + [NewReceipt(data, id, createdAt, updatedAt)]
      ensures categories == old(categories) && filters == old(filters)
      ensures isLoading == old(isLoading) && error == old(error)
      ensures DistinctKeys(old(receipts), ReceiptId) ==> DistinctKeys(receipts, ReceiptId)
      ensures Without(receipts, ReceiptId, id) == old(receipts)
    {
      var r := NewReceipt(data, id, createdAt, updatedAt);
      if DistinctKeys(receipts, ReceiptId) {
        AppendFreshDistinct(receipts, ReceiptId, r);
      }
      AppendThenRemove(receipts, ReceiptId, r);
      receipts := receipts + [r];
    }

    /** `updateReceipt`: patches every receipt with this id; the others, the
        length and the other fields are unchanged. */
    method UpdateReceipt(id: string, updates: ReceiptPatch, now: string)
      modifies this
      ensures receipts == UpdateWhere(old(receipts), ReceiptId, id, Patcher(updates, now))
      ensures |receipts| == |old(receipts)|
      ensures forall i :: 0 <= i < |receipts| && old(receipts)[i].id != id ==> receipts[i] == old(receipts)[i]
      ensures forall i :: 0 <= i < |receipts| && old(receipts)[i].id == id ==>
        receipts[i] == PatchReceipt(old(receipts)[i], updates, now)
      ensures !HasKey(old(receipts), ReceiptId, id) ==> receipts == old(receipts)
      ensures categories == old(categories) && filters == old(filters)
      ensures isLoading == old(isLoading) && error == old(error)
    {
      if !HasKey(receipts, ReceiptId, id) {
        UpdateWhereAbsent(receipts, ReceiptId, id, Patcher(updates, now));
      }
      receipts := UpdateWhere(receipts, ReceiptId, id, Patcher(updates, now));
    }

    /** `deleteReceipt`: keeps exactly the receipts with another id, in order. */
    method DeleteReceipt(id: string)
      modifies this
      ensures receipts == Without(old(receipts), ReceiptId, id)
      ensures !HasKey(receipts, ReceiptId, id)
      ensures forall r :: r in receipts <==> r in old(receipts) && r.id != id
      ensures !HasKey(old(receipts), ReceiptId, id) ==> receipts == old(receipts)
      ensures DistinctKeys(old(receipts), ReceiptId) ==> DistinctKeys(receipts, ReceiptId)
      ensures categories == old(categories) && filters == old(filters)
      ensures isLoading == old(isLoading) && error == old(error)
    {
      var before := receipts;
      receipts := Without(receipts, ReceiptId, id);
      forall r ensures r in receipts <==> r in before && r.id != id {
        WithoutRemovesExactly(before, ReceiptId, id, r);
      }
      if !HasKey(before, ReceiptId, id) {
        WithoutAbsent(before, ReceiptId, id);
      }
      if DistinctKeys(before, ReceiptId) {
        WithoutKeepsDistinct(before, ReceiptId, id);
      }
    }

    /** `setFilters`: overwrites the fields present in the partial filters. */
    method SetFilters(newFilters: FiltersPatch)
      modifies this
      ensures filters == MergeFilters(old(filters), newFilters)
      ensures receipts == old(receipts) && categories == old(categories)
      ensures isLoading == old(isLoading) && error == old(error)
    {
      filters := MergeFilters(filters, newFilters);
    }

    /** `resetFilters`: back to the defaults, whatever came before. */
    method ResetFilters()
      modifies this
      ensures filters == DefaultFilters()
      ensures receipts == old(receipts) && categories == old(categories)
      ensures isLoading == old(isLoading) && error == old(error)
    {
      filters := DefaultFilters();
    }

    /** `addCategory`: appends one new category under a fresh id. */
    method AddCategory(data: CategoryData, id: string)
      requires !HasKey(categories, CategoryId, id)
      modifies this
      ensures categories == old(categories) + [Category(id, data.name, data.color)]
      ensures DistinctKeys(old(categories), CategoryId) ==> DistinctKeys(categories, CategoryId)
      ensures receipts == old(receipts) && filters == old(filters)
      ensures isLoading == old(isLoading) && error == old(error)
    {
      var c := Category(id, data.name, data.color);
      if DistinctKeys(categories, CategoryId) {
        AppendFreshDistinct(categories, CategoryId, c);
      }
      categories := categories + [c];
    }

    /** `updateCategory`: patches every category with this id. */
    method UpdateCategory(id: string, updates: CategoryPatch)
      modifies this
      ensures categories == UpdateWhere(old(categories), CategoryId, id, CategoryPatcher(updates))
      ensures |categories| == |old(categories)|
      ensures forall i :: 0 <= i < |categories| && old(categories)[i].id != id ==> categories[i] == old(categories)[i]
      ensures !HasKey(old(categories), CategoryId, id) ==> categories == old(categories)
      ensures receipts == old(receipts) && filters == old(filters)
      ensures isLoading == old(isLoading) && error == old(error)
    {
      if !HasKey(categories, CategoryId, id) {
        UpdateWhereAbsent(categories, CategoryId, id, CategoryPatcher(updates));
      }
      categories := UpdateWhere(categories, CategoryId, id, CategoryPatcher(updates));
    }

    /** `deleteCategory`: keeps the categories with another id; receipts that
        name the deleted category keep that name. */
    method DeleteCategory(id: string)
      modifies this
      ensures categories == Without(old(categories), CategoryId, id)
      ensures !HasKey(categories, CategoryId, id)
      ensures !HasKey(old(categories), CategoryId, id) ==> categories == old(categories)
      ensures receipts == old(receipts) && filters == old(filters)
      ensures isLoading == old(isLoading) && error == old(error)
    {
      var before := categories;
      categories := Without(categories, CategoryId, id);
      var someC := Category(id, "", "");
      WithoutRemovesExactly(before, CategoryId, id, someC);
      if !HasKey(before, CategoryId, id) {
        WithoutAbsent(before, CategoryId, id);
      }
    }
  }
}

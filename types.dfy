/** The application's data model: receipts, their line items, categories and
    the list filters, together with the partial records (`Partial<...>`,
    `Omit<...>`) the store actions accept. Amounts are integer cents; a
    receipt's `YYYY-MM-DD` date is kept as its calendar triple. */
module Types {

  /** An optional value; `None` stands for an absent key or `undefined`. */
  datatype Option<T> = None | Some(value: T) {
    /** The value, or `default` when absent. */
    function GetOr(default: T): T
    {
      match this
      case Some(v) => v
      case None => default
    }
  }

  type Month = m: int | 1 <= m <= 12 witness 1

  /** A calendar day; `month` counts from 1 (January) to 12. */
  datatype CalDate = CalDate(year: int, month: Month, day: int)

  datatype ReceiptItem = ReceiptItem(id: string, name: string, price: int, quantity: Option<int>)

  datatype Receipt = Receipt(
    id: string,
    merchant: string,
    date: CalDate,
    amount: int,
    category: string,
    notes: Option<string>,
    imageUrl: Option<string>,
    items: Option<seq<ReceiptItem>>,
    tags: Option<seq<string>>,
    createdAt: string,
    updatedAt: string)

  datatype Category = Category(id: string, name: string, color: string)

  datatype SortKey = ByDate | ByAmount | ByMerchant

  datatype SortOrder = Asc | Desc

  datatype DateRange = DateRange(from: Option<CalDate>, to: Option<CalDate>)

  datatype Filters = Filters(
    search: string,
    category: string,
    dateRange: Option<DateRange>,
    sortBy: SortKey,
    sortOrder: SortOrder)

  /** The fields of a new receipt: everything but `id`, `createdAt`, `updatedAt`. */
  datatype ReceiptData = ReceiptData(
    merchant: string,
    date: CalDate,
    amount: int,
    category: string,
    notes: Option<string>,
    imageUrl: Option<string>,
    items: Option<seq<ReceiptItem>>,
    tags: Option<seq<string>>)

  /** `Partial<Receipt>`: `None` leaves a field out of the update; for an
      optional field, `Some(None)` is a key present with value `undefined`. */
  datatype ReceiptPatch = ReceiptPatch(
    id: Option<string>,
    merchant: Option<string>,
    date: Option<CalDate>,
    amount: Option<int>,
    category: Option<string>,
    notes: Option<Option<string>>,
    imageUrl: Option<Option<string>>,
    items: Option<Option<seq<ReceiptItem>>>,
    tags: Option<Option<seq<string>>>,
    createdAt: Option<string>,
    updatedAt: Option<string>)

  /** The fields of a new category: everything but `id`. */
  datatype CategoryData = CategoryData(name: string, color: string)

  /** `Partial<Category>`. */
  datatype CategoryPatch = CategoryPatch(id: Option<string>, name: Option<string>, color: Option<string>)

  /** `Partial<ReceiptFilters>`. */
  datatype FiltersPatch = FiltersPatch(
    search: Option<string>,
    category: Option<string>,
    dateRange: Option<Option<DateRange>>,
    sortBy: Option<SortKey>,
    sortOrder: Option<SortOrder>)
}

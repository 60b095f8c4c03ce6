/** The receipt card's category badge (`components/receipts/ReceiptCard.tsx`):
    a fixed table from category name to colour, with grey for any name the
    table lacks. */
module ReceiptCard {
  import opened Types
  import opened Aggregates
  import opened ReceiptStore

  /** `categoryColors`: the record's entries in declaration order. */
  const ColorTable: seq<(string, string)> :=
    [ ("Groceries", "#4CAF50"),
      ("Dining", "#FF9800"),
      ("Transportation", "#2196F3"),
      ("Entertainment", "#9C27B0"),
      ("Shopping", "#F44336"),
      ("Utilities", "#607D8B"),
      ("Healthcare", "#00BCD4"),
      ("Other", "#9E9E9E") ]

  /** `table[key]`: the value of the first entry with that key, `None` for
      `undefined`. */
  function LookupColor(table: seq<(string, string)>, key: string): (r: Option<string>)
    ensures r.None? <==> forall i :: 0 <= i < |table| ==> table[i].0 != key
    ensures r.Some? ==> exists i :: 0 <= i < |table| && table[i] == (key, r.value)
    decreases |table|
  {
    if table == [] then None
    else if table[0].0 == key then Some(table[0].1)
    else LookupColor(table[1..], key)
  }

  /** `getCategoryColor`: `categoryColors[category] || '#9E9E9E'`; a missing
      key and an empty colour both fall back to grey. */
  function CategoryColor(category: string): (color: string)
    ensures color != ""
    ensures LookupColor(ColorTable, category).None? ==> color == DefaultColor
    ensures LookupColor(ColorTable, category).Some? && LookupColor(ColorTable, category).value == "" ==>
      color == DefaultColor
    ensures LookupColor(ColorTable, category).Some? && LookupColor(ColorTable, category).value != "" ==>
      color == LookupColor(ColorTable, category).value
  {
    match LookupColor(ColorTable, category)
    case None => DefaultColor
    case Some(c) => if c == "" then DefaultColor else c
  }

  /** The card of a receipt shows the colour of the receipt's category. */
  function CardColor(r: Receipt): string
  {
    CategoryColor(r.category)
  }

  /** The name and colour of each category, in list order. */
  function NameColors(cs: seq<Category>): (t: seq<(string, string)>)
    ensures |t| == |cs| && forall i :: 0 <= i < |cs| ==> t[i] == (cs[i].name, cs[i].color)
  {
    seq(|cs|, i requires 0 <= i < |cs| => (cs[i].name, cs[i].color))
  }

  /** Looking a name up in a table of names and colours finds the colour of
      the first category with that name. */
  lemma {:induction false} LookupIsFindByName(cs: seq<Category>, name: string)
    ensures LookupColor(NameColors(cs), name).None? <==> FindByName(cs, name).None?
    ensures FindByName(cs, name).Some? ==> LookupColor(NameColors(cs), name) == Some(FindByName(cs, name).value.color)
    decreases |cs|
  {
    if cs != [] {
      LookupIsFindByName(cs[1..], name);
      assert NameColors(cs)[1..] == NameColors(cs[1..]);
    }
  }

  /** The table is a copy of the seed categories: for every name, the card's
      colour equals the colour the charts look up in the initial category
      list. */
  lemma CardColorMatchesSeed(name: string)
    ensures CategoryColor(name) == ColorOf(InitialCategories(), name)
  {
    assert ColorTable == NameColors(InitialCategories());
    LookupIsFindByName(InitialCategories(), name);
  }

  /** A key's first entry is the one the lookup finds. */
  lemma {:induction false} LookupFirst(table: seq<(string, string)>, k: nat)
    requires k < |table|
    requires forall j :: 0 <= j < k ==> table[j].0 != table[k].0
    ensures LookupColor(table, table[k].0) == Some(table[k].1)
    decreases k
  {
    if k > 0 {
      LookupFirst(table[1..], k - 1);
    }
  }

  /** No name appears twice in the table: the eight names start with eight
      different letters. */
  lemma ColorTableKeysDistinct(j: nat, k: nat)
    requires j < k < |ColorTable|
    ensures ColorTable[j].0 != ColorTable[k].0
  {
    var initials := "GDTESUHO";
    assert forall i :: 0 <= i < |ColorTable| ==> ColorTable[i].0 != [] && ColorTable[i].0[0] == initials[i];
    assert initials[j] != initials[k];
  }

  /** Every colour in the table is a seven-character `#RRGGBB` code. */
  lemma ColorTableColorsNonEmpty(k: nat)
    requires k < |ColorTable|
    ensures |ColorTable[k].1| == 7
  {
  }

  /** Each of the eight names in the table is drawn in its own colour. */
  lemma KnownColors(k: nat)
    requires k < |ColorTable|
    ensures CategoryColor(ColorTable[k].0) == ColorTable[k].1
  {
    forall j | 0 <= j < k
      ensures ColorTable[j].0 != ColorTable[k].0
    {
      ColorTableKeysDistinct(j, k);
    }
    LookupFirst(ColorTable, k);
    ColorTableColorsNonEmpty(k);
  }

  /** 'Other' is drawn in the same grey as a category the table lacks. */
  lemma OtherLooksUnknown(category: string)
    requires LookupColor(ColorTable, category).None?
    ensures CategoryColor("Other") == CategoryColor(category)
  {
    assert LookupColor(ColorTable, "Other") == Some("#9E9E9E");
  }
}

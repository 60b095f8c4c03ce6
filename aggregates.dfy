/** The aggregations the report and dashboard pages compute over receipts:
    the total, group-by-sum into a dictionary of buckets (the `reduce` whose
    callback does `acc[k] = acc[k] || 0; acc[k] += amount`, read back with
    `Object.entries`), and the chart colour of a category name. */
module Aggregates {
  import opened Types
  import opened Seqs

  /** The colour used when a category is unknown or has no colour. */
  const DefaultColor: string := "#9E9E9E"

  /** `rs.reduce((sum, r) => sum + r.amount, 0)`. */
  function Total(rs: seq<Receipt>): int
    decreases |rs|
  {
    if rs == [] then 0 else Total(rs[..|rs| - 1]) + rs[|rs| - 1].amount
  }

  lemma {:induction false} TotalAppend(a: seq<Receipt>, b: seq<Receipt>)
    ensures Total(a + b) == Total(a) + Total(b)
    decreases |b|
  {
    if b == [] {
      assert a + b == a;
    } else {
      assert (a + b)[..|a + b| - 1] == a + b[..|b| - 1];
      TotalAppend(a, b[..|b| - 1]);
    }
  }

  /** One dictionary entry: a key and the sum accumulated under it. */
  datatype Bucket<K> = Bucket(key: K, amount: int)

  function BucketSum<K>(bs: seq<Bucket<K>>): int
    decreases |bs|
  {
    if bs == [] then 0 else bs[0].amount + BucketSum(bs[1..])
  }

  /** The keys in entry order. */
  function Keys<K>(bs: seq<Bucket<K>>): (ks: seq<K>)
    ensures |ks| == |bs|
    decreases |bs|
  {
    if bs == [] then [] else [bs[0].key] + Keys(bs[1..])
  }

  /** `acc[k]`: the sum stored under `k`, if any. */
  function Lookup<K(==)>(bs: seq<Bucket<K>>, k: K): (r: Option<int>)
    ensures r.Some? <==> k in Keys(bs)
    decreases |bs|
  {
    if bs == [] then None
    else if bs[0].key == k then Some(bs[0].amount)
    else Lookup(bs[1..], k)
  }

  ghost predicate Distinct<K>(ks: seq<K>)
  {
    forall i, j :: 0 <= i < j < |ks| ==> ks[i] != ks[j]
  }

  /** One step of the accumulator: adds `amount` under `k`, creating the
      entry (at the end, as a new property of an object goes) when absent. */
  function AddTo<K(==)>(bs: seq<Bucket<K>>, k: K, amount: int): (r: seq<Bucket<K>>)
    ensures BucketSum(r) == BucketSum(bs) + amount
    decreases |bs|
  {
    if bs == [] then [Bucket(k, amount)]
    else if bs[0].key == k then [Bucket(k, bs[0].amount + amount)] + bs[1..]
    else [bs[0]] + AddTo(bs[1..], k, amount)
  }

  lemma {:induction false} KeysAt<K>(bs: seq<Bucket<K>>, j: nat)
    requires j < |bs|
    ensures Keys(bs)[j] == bs[j].key
    decreases j
  {
    if j > 0 {
      KeysAt(bs[1..], j - 1);
    }
  }

  /** A key listed among the entries belongs to one of them. */
  lemma {:induction false} KeysMember<K>(bs: seq<Bucket<K>>, k: K)
    requires k in Keys(bs)
    ensures exists b :: b in bs && b.key == k
    decreases |bs|
  {
    if bs[0].key != k {
      KeysMember(bs[1..], k);
      var b :| b in bs[1..] && b.key == k;
      assert b in bs;
    }
  }

  /** With distinct keys, an entry is what a lookup of its key reads. */
  lemma {:induction false} LookupMember<K>(bs: seq<Bucket<K>>, b: Bucket<K>)
    requires Distinct(Keys(bs)) && b in bs
    ensures Lookup(bs, b.key) == Some(b.amount)
    decreases |bs|
  {
    if bs[0] != b {
      assert b in bs[1..];
      assert Distinct(Keys(bs[1..])) by {
        assert Keys(bs)[1..] == Keys(bs[1..]);
      }
      if bs[0].key == b.key {
        var j :| 1 <= j < |bs| && bs[j] == b;
        KeysAt(bs, 0);
        KeysAt(bs, j);
        assert false;
      }
      LookupMember(bs[1..], b);
    }
  }

  /** Adding under an existing key keeps the key order; a new key goes last. */
  lemma {:induction false} AddToKeys<K>(bs: seq<Bucket<K>>, k: K, amount: int)
    ensures Keys(AddTo(bs, k, amount)) == if k in Keys(bs) then Keys(bs) else Keys(bs) + [k]
    decreases |bs|
  {
    if bs != [] && bs[0].key != k {
      AddToKeys(bs[1..], k, amount);
    }
  }

  /** After adding under `k`, the entry for `k` holds its old sum (0 when
      absent) plus the amount. */
  lemma {:induction false} AddToLookupSame<K>(bs: seq<Bucket<K>>, k: K, amount: int)
    ensures Lookup(AddTo(bs, k, amount), k) == Some(Lookup(bs, k).GetOr(0) + amount)
    decreases |bs|
  {
    if bs != [] {
      var r := AddTo(bs, k, amount);
      if bs[0].key == k {
        assert r[0] == Bucket(k, bs[0].amount + amount);
      } else {
        AddToLookupSame(bs[1..], k, amount);
        assert r[0] == bs[0] && r[1..] == AddTo(bs[1..], k, amount);
      }
    }
  }

  /** Adding under `k` leaves every other key's entry as it was. */
  lemma {:induction false} AddToLookupOther<K>(bs: seq<Bucket<K>>, k: K, amount: int, q: K)
    requires q != k
    ensures Lookup(AddTo(bs, k, amount), q) == Lookup(bs, q)
    decreases |bs|
  {
    if bs != [] {
      var r := AddTo(bs, k, amount);
      if bs[0].key == k {
        assert r[0].key == k && r[1..] == bs[1..];
      } else {
        AddToLookupOther(bs[1..], k, amount, q);
        assert r[0] == bs[0] && r[1..] == AddTo(bs[1..], k, amount);
      }
    }
  }

  /** After adding under `k`, the entry for `k` holds its old sum (0 when
      absent) plus the amount, and every other entry reads as before. */
  lemma AddToLookup<K>(bs: seq<Bucket<K>>, k: K, amount: int, q: K)
    ensures Lookup(AddTo(bs, k, amount), q) == if q == k then Some(Lookup(bs, k).GetOr(0) + amount) else Lookup(bs, q)
  {
    if q == k {
      AddToLookupSame(bs, k, amount);
    } else {
      AddToLookupOther(bs, k, amount, q);
    }
  }

  /** The dictionary the `reduce` builds: one bucket per key value, in order
      of first appearance. */
  function GroupSum<K(==)>(rs: seq<Receipt>, key: Receipt -> K): (bs: seq<Bucket<K>>)
    ensures BucketSum(bs) == Total(rs)
    decreases |rs|
  {
    if rs == [] then []
    else AddTo(GroupSum(rs[..|rs| - 1], key), key(rs[|rs| - 1]), rs[|rs| - 1].amount)
  }

  /** The dictionary never holds a key twice. */
  lemma {:induction false} GroupSumKeysDistinct<K>(rs: seq<Receipt>, key: Receipt -> K)
    ensures Distinct(Keys(GroupSum(rs, key)))
    decreases |rs|
  {
    if rs != [] {
      var init := rs[..|rs| - 1];
      GroupSumKeysDistinct(init, key);
      AddToKeys(GroupSum(init, key), key(rs[|rs| - 1]), rs[|rs| - 1].amount);
    }
  }

  function KeyEquals<K(==)>(key: Receipt -> K, k: K): Receipt -> bool
  {
    r => key(r) == k
  }

  /** There is a bucket for a key exactly when some receipt has it. */
  lemma {:induction false} GroupSumHasKey<K>(rs: seq<Receipt>, key: Receipt -> K, k: K)
    ensures Lookup(GroupSum(rs, key), k).Some? <==> exists i :: 0 <= i < |rs| && key(rs[i]) == k
    decreases |rs|
  {
    if rs != [] {
      var init, last := rs[..|rs| - 1], rs[|rs| - 1];
      GroupSumHasKey(init, key, k);
      AddToLookup(GroupSum(init, key), key(last), last.amount, k);
      if key(last) != k {
        assert (exists i :: 0 <= i < |rs| && key(rs[i]) == k) <==> exists i :: 0 <= i < |init| && key(init[i]) == k by {
          forall i | 0 <= i < |rs| && key(rs[i]) == k ensures i < |init| { }
          forall i | 0 <= i < |init| && key(init[i]) == k ensures key(rs[i]) == k { }
        }
      }
    }
  }

  /** A key's bucket holds the total of exactly the receipts with that key. */
  lemma {:induction false} GroupSumValue<K>(rs: seq<Receipt>, key: Receipt -> K, k: K)
    requires Lookup(GroupSum(rs, key), k).Some?
    ensures Lookup(GroupSum(rs, key), k).value == Total(Filter(rs, KeyEquals(key, k)))
    decreases |rs|
  {
    var init, last := rs[..|rs| - 1], rs[|rs| - 1];
    var g, p := GroupSum(init, key), KeyEquals(key, k);
    assert rs == init + [last];
    AddToLookup(g, key(last), last.amount, k);
    FilterAppend(init, [last], p);
    TotalAppend(Filter(init, p), Filter([last], p));
    if key(last) == k {
      assert Filter([last], p) == [last];
      assert Total([last]) == last.amount;
      if Lookup(g, k).Some? {
        GroupSumValue(init, key, k);
      } else {
        GroupSumHasKey(init, key, k);
        FilterDropsAll(init, p);
      }
    } else {
      assert Filter([last], p) == [];
      GroupSumValue(init, key, k);
    }
  }

  /** Each bucket holds exactly the total of the receipts with its key, and
      there is a bucket for a key exactly when some receipt has it. */
  lemma GroupSumLookup<K>(rs: seq<Receipt>, key: Receipt -> K, k: K)
    ensures Lookup(GroupSum(rs, key), k).Some? <==> exists i :: 0 <= i < |rs| && key(rs[i]) == k
    ensures Lookup(GroupSum(rs, key), k).Some? ==>
      Lookup(GroupSum(rs, key), k).value == Total(Filter(rs, KeyEquals(key, k)))
  {
    GroupSumHasKey(rs, key, k);
    if Lookup(GroupSum(rs, key), k).Some? {
      GroupSumValue(rs, key, k);
    }
  }

  // ---- the imperative accumulator ----

  /** `Object.entries(acc)` for a dictionary whose keys were inserted in `order`. */
  function Entries<K(==)>(order: seq<K>, acc: map<K, int>): seq<Bucket<K>>
    requires forall q :: q in order ==> q in acc
    decreases |order|
  {
    if order == [] then [] else [Bucket(order[0], acc[order[0]])] + Entries(order[1..], acc)
  }

  lemma {:induction false} EntriesKeys<K>(order: seq<K>, acc: map<K, int>)
    requires forall q :: q in order ==> q in acc
    ensures Keys(Entries(order, acc)) == order
    decreases |order|
  {
    if order != [] {
      EntriesKeys(order[1..], acc);
    }
  }

  /** Adding to an existing key of the dictionary is `AddTo` on its entries. */
  lemma {:induction false} EntriesAddExisting<K>(order: seq<K>, acc: map<K, int>, k: K, amount: int)
    requires forall q :: q in order ==> q in acc
    requires Distinct(order) && k in order
    ensures Entries(order, acc[k := acc[k] + amount]) == AddTo(Entries(order, acc), k, amount)
    decreases |order|
  {
    if order[0] != k {
      EntriesAddExisting(order[1..], acc, k, amount);
      EntriesFrame(order[1..], acc, k, acc[k] + amount);
    } else {
      assert k !in order[1..];
      EntriesFrame(order[1..], acc, k, acc[k] + amount);
    }
  }

  /** Writing a key the order does not list leaves the entries alone. */
  lemma {:induction false} EntriesFrame<K>(order: seq<K>, acc: map<K, int>, k: K, v: int)
    requires forall q :: q in order ==> q in acc
    ensures (forall q :: q in order && q != k ==> q in acc[k := v])
    ensures k !in order ==> Entries(order, acc[k := v]) == Entries(order, acc)
    decreases |order|
  {
    if order != [] && k !in order {
      EntriesFrame(order[1..], acc, k, v);
    }
  }

  /** Adding under a new key appends an entry. */
  lemma {:induction false} EntriesAddNew<K>(order: seq<K>, acc: map<K, int>, k: K, amount: int)
    requires forall q :: q in order ==> q in acc
    requires k !in order
    ensures Entries(order + [k], acc[k := amount]) == AddTo(Entries(order, acc), k, amount)
    decreases |order|
  {
    if order == [] {
    } else {
      assert (order + [k])[1..] == order[1..] + [k];
      EntriesAddNew(order[1..], acc, k, amount);
      EntriesFrame(order[1..], acc, k, amount);
      EntriesKeys(order, acc);
    }
  }

  lemma DistinctAppend<K>(ks: seq<K>, k: K)
    requires Distinct(ks) && k !in ks
    ensures Distinct(ks + [k])
  {
  }

  lemma GroupSumPrefixStep<K>(rs: seq<Receipt>, i: nat, key: Receipt -> K)
    requires i < |rs|
    ensures GroupSum(rs[..i + 1], key) == AddTo(GroupSum(rs[..i], key), key(rs[i]), rs[i].amount)
  {
    assert rs[..i + 1][..i] == rs[..i];
  }

  /** The `reduce` callback: a missing or zero entry is first set to 0, then
      the amount is added; a new key goes to the end of the insertion order. */
  method AddEntry<K(==)>(order: seq<K>, acc: map<K, int>, k: K, amount: int) returns (order': seq<K>, acc': map<K, int>)
    ensures k in acc ==> order' == order && acc' == acc[k := acc[k] + amount]
    ensures k !in acc ==> order' == order + [k] && acc' == acc[k := amount]
  {
    order', acc' := order, acc;
    if k !in acc' || acc'[k] == 0 {
      if k !in acc' {
        order' := order' + [k];
      }
      acc' := acc'[k := 0];
    }
    acc' := acc'[k := acc'[k] + amount];
  }

  /** The loop invariant of the `reduce`: the dictionary's keys are the
      insertion order, each once, and its entries are the buckets of the
      receipts seen so far. */
  ghost predicate Accumulates<K>(seen: seq<Receipt>, key: Receipt -> K, order: seq<K>, acc: map<K, int>)
  {
    (forall q | q in acc :: q in order)
    && (forall q | q in order :: q in acc)
    && Distinct(order)
    && Entries(order, acc) == GroupSum(seen, key)
  }

  /** One call of the `reduce` callback keeps the invariant. */
  lemma GroupByKeyStep<K>(rs: seq<Receipt>, i: nat, key: Receipt -> K, order: seq<K>, acc: map<K, int>,
                          order': seq<K>, acc': map<K, int>)
    requires i < |rs| && Accumulates(rs[..i], key, order, acc)
    requires key(rs[i]) in acc ==> order' == order && acc' == acc[key(rs[i]) := acc[key(rs[i])] + rs[i].amount]
    requires key(rs[i]) !in acc ==> order' == order + [key(rs[i])] && acc' == acc[key(rs[i]) := rs[i].amount]
    ensures Accumulates(rs[..i + 1], key, order', acc')
  {
    var k, amount := key(rs[i]), rs[i].amount;
    if k in acc {
      EntriesAddExisting(order, acc, k, amount);
    } else {
      EntriesAddNew(order, acc, k, amount);
      DistinctAppend(order, k);
    }
    assert Entries(order', acc') == AddTo(GroupSum(rs[..i], key), k, amount);
    GroupSumPrefixStep(rs, i, key);
  }

  /** The `reduce` of the report and dashboard pages: walks the receipts and
      updates a dictionary in place, then lists its entries. */
  method GroupByKey<K(==)>(rs: seq<Receipt>, key: Receipt -> K) returns (bs: seq<Bucket<K>>)
    ensures bs == GroupSum(rs, key)
  {
    var order: seq<K> := [];
    var acc: map<K, int> := map[];
    var i := 0;
    while i < |rs|
      invariant 0 <= i <= |rs|
      invariant Accumulates(rs[..i], key, order, acc)
    {
      var order', acc' := AddEntry(order, acc, key(rs[i]), rs[i].amount);
      GroupByKeyStep(rs, i, key, order, acc, order', acc');
      order, acc := order', acc';
      i := i + 1;
    }
    assert rs[..i] == rs;
    bs := Entries(order, acc);
  }

  // ---- colours ----

  /** `categories.find(c => c.name === name)`: the first category with
      exactly that name. */
  function FindByName(cs: seq<Category>, name: string): (r: Option<Category>)
    ensures r.None? <==> forall i :: 0 <= i < |cs| ==> cs[i].name != name
    ensures r.Some? ==> r.value in cs && r.value.name == name
    decreases |cs|
  {
    if cs == [] then None
    else if cs[0].name == name then Some(cs[0])
    else FindByName(cs[1..], name)
  }

  /** The category found is the first one with that name. */
  lemma {:induction false} FindByNameFirst(cs: seq<Category>, name: string, k: nat)
    requires k < |cs| && cs[k].name == name
    requires forall j :: 0 <= j < k ==> cs[j].name != name
    ensures FindByName(cs, name) == Some(cs[k])
    decreases k
  {
    if k > 0 {
      FindByNameFirst(cs[1..], name, k - 1);
    }
  }

  /** `category?.color || '#9E9E9E'`: the first matching category's colour,
      grey when there is none or its colour is empty. */
  function ColorOf(cs: seq<Category>, name: string): (color: string)
    ensures color != ""
    ensures (forall i :: 0 <= i < |cs| ==> cs[i].name != name) ==> color == DefaultColor
    ensures FindByName(cs, name).Some? && FindByName(cs, name).value.color == "" ==> color == DefaultColor
    ensures FindByName(cs, name).Some? && FindByName(cs, name).value.color != "" ==>
      color == FindByName(cs, name).value.color
  {
    match FindByName(cs, name)
    case None => DefaultColor
    case Some(c) => if c.color == "" then DefaultColor else c.color
  }

  /** A slice of the pie chart. */
  datatype PieEntry = PieEntry(name: string, value: int, color: string)

  /** `pieChartData`: each category bucket with its colour. */
  function PieChartData(bs: seq<Bucket<string>>, cs: seq<Category>): (r: seq<PieEntry>)
    ensures |r| == |bs|
    ensures forall i :: 0 <= i < |bs| ==> r[i].name == bs[i].key && r[i].value == bs[i].amount
    ensures forall i :: 0 <= i < |bs| ==> r[i].color == ColorOf(cs, bs[i].key)
  {
    seq(|bs|, i requires 0 <= i < |bs| => PieEntry(bs[i].key, bs[i].amount, ColorOf(cs, bs[i].key)))
  }

  function PieSum(ps: seq<PieEntry>): int
    decreases |ps|
  {
    if ps == [] then 0 else ps[0].value + PieSum(ps[1..])
  }

  /** The slices add up to the buckets' sum. */
  lemma {:induction false} PieSumIsBucketSum(bs: seq<Bucket<string>>, cs: seq<Category>)
    ensures PieSum(PieChartData(bs, cs)) == BucketSum(bs)
    decreases |bs|
  {
    if bs != [] {
      PieSumIsBucketSum(bs[1..], cs);
      assert PieChartData(bs, cs)[1..] == PieChartData(bs[1..], cs);
    }
  }
}

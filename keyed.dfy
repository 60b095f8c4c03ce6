/** Collections of records keyed by an `id` string, as the store keeps its
    receipts and categories: append, update-by-id (`map`) and
    remove-by-id (`filter`). The key is passed as a function so that one
    definition serves both record types. */
module Keyed {
  import opened Seqs

  /** Some element of `xs` has key `id`. */
  predicate HasKey<T>(xs: seq<T>, key: T -> string, id: string)
  {
    exists i :: 0 <= i < |xs| && key(xs[i]) == id
  }

  /** No two elements of `xs` share a key. */
  ghost predicate DistinctKeys<T>(xs: seq<T>, key: T -> string)
  {
    forall i, j :: 0 <= i < j < |xs| ==> key(xs[i]) != key(xs[j])
  }

  function KeyIsNot<T>(key: T -> string, id: string): T -> bool
  {
    x => key(x) != id
  }

  /** `xs.filter(x => x.id !== id)`. */
  function Without<T>(xs: seq<T>, key: T -> string, id: string): seq<T>
  {
    Filter(xs, KeyIsNot(key, id))
  }

  /** `xs.map(x => x.id === id ? f(x) : x)`: every element with key `id` is
      replaced by its image under `f`, every other element stays put. */
  function UpdateWhere<T>(xs: seq<T>, key: T -> string, id: string, f: T -> T): (r: seq<T>)
    ensures |r| == |xs|
    ensures forall i :: 0 <= i < |xs| ==> r[i] == if key(xs[i]) == id then f(xs[i]) else xs[i]
    decreases |xs|
  {
    if xs == [] then []
    else [if key(xs[0]) == id then f(xs[0]) else xs[0]] + UpdateWhere(xs[1..], key, id, f)
  }

  /** Removing by id drops exactly the elements with that key and keeps the
      others in their relative order. */
  lemma WithoutRemovesExactly<T>(xs: seq<T>, key: T -> string, id: string, x: T)
    ensures IsSubseq(Without(xs, key, id), xs)
    ensures !HasKey(Without(xs, key, id), key, id)
    ensures x in Without(xs, key, id) <==> x in xs && key(x) != id
  {
    FilterIsSubseq(xs, KeyIsNot(key, id));
    FilterMembership(xs, KeyIsNot(key, id), x);
  }

  /** Removing an id that is not present changes nothing. */
  lemma WithoutAbsent<T>(xs: seq<T>, key: T -> string, id: string)
    requires !HasKey(xs, key, id)
    ensures Without(xs, key, id) == xs
  {
    FilterKeepsAll(xs, KeyIsNot(key, id));
  }

  /** Updating an id that is not present changes nothing. */
  lemma UpdateWhereAbsent<T>(xs: seq<T>, key: T -> string, id: string, f: T -> T)
    requires !HasKey(xs, key, id)
    ensures UpdateWhere(xs, key, id, f) == xs
  {
  }

  /** Appending an element with a fresh key keeps the keys distinct. */
  lemma AppendFreshDistinct<T>(xs: seq<T>, key: T -> string, x: T)
    requires DistinctKeys(xs, key) && !HasKey(xs, key, key(x))
    ensures DistinctKeys(xs + [x], key)
  {
  }

  /** Removing the element just appended under a fresh key restores the collection. */
  lemma AppendThenRemove<T>(xs: seq<T>, key: T -> string, x: T)
    requires !HasKey(xs, key, key(x))
    ensures Without(xs + [x], key, key(x)) == xs
  {
    FilterAppend(xs, [x], KeyIsNot(key, key(x)));
    WithoutAbsent(xs, key, key(x));
    assert Filter([x], KeyIsNot(key, key(x))) == [];
  }

  /** Removing by id keeps the keys distinct. */
  lemma {:induction false} WithoutKeepsDistinct<T>(xs: seq<T>, key: T -> string, id: string)
    requires DistinctKeys(xs, key)
    ensures DistinctKeys(Without(xs, key, id), key)
    decreases |xs|
  {
    FilterKeepsDistinct(xs, key, KeyIsNot(key, id));
  }

  lemma {:induction false} FilterKeepsDistinct<T>(xs: seq<T>, key: T -> string, p: T -> bool)
    requires DistinctKeys(xs, key)
    ensures DistinctKeys(Filter(xs, p), key)
    decreases |xs|
  {
    if xs != [] {
      var rest := Filter(xs[1..], p);
      FilterKeepsDistinct(xs[1..], key, p);
      if p(xs[0]) {
        forall j | 0 <= j < |rest|
          ensures key(rest[j]) != key(xs[0])
        {
          FilterMembership(xs[1..], p, rest[j]);
          var k :| 0 <= k < |xs[1..]| && xs[1..][k] == rest[j];
          assert xs[k + 1] == rest[j];
        }
        assert Filter(xs, p) == [xs[0]] + rest;
      } else {
        assert Filter(xs, p) == rest;
      }
    }
  }

  /** An update whose `f` keeps keys keeps them distinct. */
  lemma UpdateWhereKeepsDistinct<T>(xs: seq<T>, key: T -> string, id: string, f: T -> T)
    requires DistinctKeys(xs, key)
    requires forall x :: key(f(x)) == key(x)
    ensures DistinctKeys(UpdateWhere(xs, key, id, f), key)
  {
  }
}

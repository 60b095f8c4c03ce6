/** A stable comparison sort, as JavaScript's `Array.prototype.sort` is
    required to be. A comparator `cmp` follows the JavaScript convention:
    `cmp(a, b) <= 0` lets `a` stay in front of `b`, `cmp(a, b) > 0` moves
    `b` in front of `a`. Every stable sort yields the same output for a
    consistent comparator, so the sort is defined here as insertion sort. */
module Sorting {
  import opened Seqs

  /** The comparator answers opposite questions with opposite signs. */
  ghost predicate Antisymmetric<T(!new)>(cmp: (T, T) -> int)
  {
    forall a, b :: cmp(a, b) == -cmp(b, a)
  }

  /** "May stay in front of" is transitive. */
  ghost predicate Transitive<T(!new)>(cmp: (T, T) -> int)
  {
    forall a, b, c :: cmp(a, b) <= 0 && cmp(b, c) <= 0 ==> cmp(a, c) <= 0
  }

  /** What a consistent comparator must satisfy. */
  ghost predicate TotalPreorder<T(!new)>(cmp: (T, T) -> int)
  {
    Antisymmetric(cmp) && Transitive(cmp)
  }

  /** No element has to move in front of an earlier one. */
  ghost predicate Sorted<T>(s: seq<T>, cmp: (T, T) -> int)
  {
    forall i, j :: 0 <= i < j < |s| ==> cmp(s[i], s[j]) <= 0
  }

  /** The comparator with its arguments swapped: `asc` turned into `desc`. */
  function Flip<T>(cmp: (T, T) -> int): (T, T) -> int
  {
    (a, b) => cmp(b, a)
  }

  /** The elements that compare equal to `y`: its tie class. */
  function TiedWith<T>(cmp: (T, T) -> int, y: T): T -> bool
  {
    e => cmp(e, y) == 0
  }

  /** Inserts `x` into `t` after every element that may stay in front of it. */
  function InsertBy<T>(t: seq<T>, x: T, cmp: (T, T) -> int): (r: seq<T>)
    ensures |r| == |t| + 1
    ensures multiset(r) == multiset(t) + multiset{x}
    decreases |t|
  {
    if t == [] || cmp(t[|t| - 1], x) <= 0 then t + [x]
    else
      assert t == t[..|t| - 1] + [t[|t| - 1]];
      InsertBy(t[..|t| - 1], x, cmp) + [t[|t| - 1]]
  }

  /** Sorts `s`, inserting its elements one by one from the left. */
  function SortBy<T>(s: seq<T>, cmp: (T, T) -> int): (r: seq<T>)
    ensures |r| == |s|
    ensures multiset(r) == multiset(s)
    decreases |s|
  {
    if s == [] then []
    else
      assert s == s[..|s| - 1] + [s[|s| - 1]];
      InsertBy(SortBy(s[..|s| - 1], cmp), s[|s| - 1], cmp)
  }

  /** Appending an element that every element may stay in front of keeps a
      sequence sorted. */
  lemma AppendSorted<T>(t: seq<T>, x: T, cmp: (T, T) -> int)
    requires Sorted(t, cmp)
    requires forall e :: e in t ==> cmp(e, x) <= 0
    ensures Sorted(t + [x], cmp)
  {
    var r := t + [x];
    forall i, j | 0 <= i < j < |r| ensures cmp(r[i], r[j]) <= 0 {
      if j == |t| {
        assert r[i] in t;
      }
    }
  }

  lemma {:induction false} InsertBySorted<T(!new)>(t: seq<T>, x: T, cmp: (T, T) -> int)
    requires TotalPreorder(cmp) && Sorted(t, cmp)
    ensures Sorted(InsertBy(t, x, cmp), cmp)
    decreases |t|
  {
    if t == [] || cmp(t[|t| - 1], x) <= 0 {
      forall e | e in t ensures cmp(e, x) <= 0 {
        var k :| 0 <= k < |t| && t[k] == e;
        if k < |t| - 1 {
          assert cmp(t[k], t[|t| - 1]) <= 0;
        }
      }
      AppendSorted(t, x, cmp);
    } else {
      var init, last := t[..|t| - 1], t[|t| - 1];
      assert Sorted(init, cmp);
      InsertBySorted(init, x, cmp);
      var u := InsertBy(init, x, cmp);
      forall e | e in u ensures cmp(e, last) <= 0 {
        assert e in multiset(u);
        if e != x {
          assert e in multiset(init);
          var k :| 0 <= k < |init| && init[k] == e;
          assert cmp(t[k], t[|t| - 1]) <= 0;
        }
      }
      AppendSorted(u, last, cmp);
    }
  }

  /** The output of `SortBy` is sorted. */
  lemma {:induction false} SortBySorted<T(!new)>(s: seq<T>, cmp: (T, T) -> int)
    requires TotalPreorder(cmp)
    ensures Sorted(SortBy(s, cmp), cmp)
    decreases |s|
  {
    if s != [] {
      SortBySorted(s[..|s| - 1], cmp);
      InsertBySorted(SortBy(s[..|s| - 1], cmp), s[|s| - 1], cmp);
    }
  }

  /** Insertion keeps `x` behind every element of its tie class. */
  lemma {:induction false} InsertByStable<T(!new)>(t: seq<T>, x: T, cmp: (T, T) -> int, y: T)
    requires TotalPreorder(cmp)
    ensures Filter(InsertBy(t, x, cmp), TiedWith(cmp, y))
         == Filter(t, TiedWith(cmp, y)) + Filter([x], TiedWith(cmp, y))
    decreases |t|
  {
    var p := TiedWith(cmp, y);
    if t == [] || cmp(t[|t| - 1], x) <= 0 {
      FilterAppend(t, [x], p);
    } else {
      var init, last := t[..|t| - 1], t[|t| - 1];
      InsertByStable(init, x, cmp, y);
      FilterAppend(InsertBy(init, x, cmp), [last], p);
      assert t == init + [last];
      FilterAppend(init, [last], p);
    }
  }

  /** Stability: within every tie class the sorted output keeps the input order. */
  lemma {:induction false} SortByStable<T(!new)>(s: seq<T>, cmp: (T, T) -> int, y: T)
    requires TotalPreorder(cmp)
    ensures Filter(SortBy(s, cmp), TiedWith(cmp, y)) == Filter(s, TiedWith(cmp, y))
    decreases |s|
  {
    if s != [] {
      var init, last := s[..|s| - 1], s[|s| - 1];
      SortByStable(init, cmp, y);
      InsertByStable(SortBy(init, cmp), last, cmp, y);
      assert s == init + [last];
      FilterAppend(init, [last], TiedWith(cmp, y));
    }
  }

  /** Comparators that agree on every pair sort alike. */
  lemma {:induction false} SortByCongruent<T>(s: seq<T>, c1: (T, T) -> int, c2: (T, T) -> int)
    requires forall a, b :: c1(a, b) == c2(a, b)
    ensures SortBy(s, c1) == SortBy(s, c2)
    decreases |s|
  {
    if s != [] {
      SortByCongruent(s[..|s| - 1], c1, c2);
      InsertByCongruent(SortBy(s[..|s| - 1], c1), s[|s| - 1], c1, c2);
    }
  }

  lemma {:induction false} InsertByCongruent<T>(t: seq<T>, x: T, c1: (T, T) -> int, c2: (T, T) -> int)
    requires forall a, b :: c1(a, b) == c2(a, b)
    ensures InsertBy(t, x, c1) == InsertBy(t, x, c2)
    decreases |t|
  {
    if t != [] {
      InsertByCongruent(t[..|t| - 1], x, c1, c2);
    }
  }

  /** Flipping a consistent comparator gives a consistent comparator. */
  lemma FlipTotalPreorder<T(!new)>(cmp: (T, T) -> int)
    requires TotalPreorder(cmp)
    ensures TotalPreorder(Flip(cmp))
  {
    forall a, b, c | Flip(cmp)(a, b) <= 0 && Flip(cmp)(b, c) <= 0
      ensures Flip(cmp)(a, c) <= 0
    {
      assert cmp(c, b) <= 0 && cmp(b, a) <= 0;
    }
  }

  /** A sorted sequence read backwards is sorted for the flipped comparator. */
  lemma ReverseSorted<T>(s: seq<T>, cmp: (T, T) -> int)
    requires Sorted(s, cmp)
    ensures Sorted(Reverse(s), Flip(cmp))
  {
    var r := Reverse(s);
    forall i, j | 0 <= i < j < |r| ensures Flip(cmp)(r[i], r[j]) <= 0 {
      ReverseAt(s, i);
      ReverseAt(s, j);
    }
  }

  /** The head of a sorted sequence may stay in front of every element. */
  lemma SortedHead<T>(v: seq<T>, cmp: (T, T) -> int, e: T)
    requires Sorted(v, cmp) && e in v && v != []
    ensures cmp(v[0], e) <= 0 || v[0] == e
  {
    var k :| 0 <= k < |v| && v[k] == e;
    if k > 0 {
      assert cmp(v[0], v[k]) <= 0;
    }
  }

  lemma MultisetTail<T>(u: seq<T>, v: seq<T>)
    requires u != [] && v != [] && u[0] == v[0] && multiset(u) == multiset(v)
    ensures multiset(u[1..]) == multiset(v[1..])
  {
    calc {
      multiset(u[1..]);
      { assert u == [u[0]] + u[1..]; }
      multiset(u) - multiset{u[0]};
      multiset(v) - multiset{v[0]};
      { assert v == [v[0]] + v[1..]; }
      multiset(v[1..]);
    }
  }

  /** Only equal values tie. */
  ghost predicate TiesOnlyEqual<T>(s: seq<T>, cmp: (T, T) -> int)
  {
    forall a, b :: a in s && b in s && cmp(a, b) == 0 ==> a == b
  }

  lemma SortedHeadsEqual<T(!new)>(u: seq<T>, v: seq<T>, cmp: (T, T) -> int)
    requires Antisymmetric(cmp) && multiset(u) == multiset(v) && u != []
    requires Sorted(u, cmp) && Sorted(v, cmp) && TiesOnlyEqual(u, cmp)
    ensures v != [] && u[0] == v[0]
  {
    assert |u| == |multiset(u)| == |v|;
    var x, y := u[0], v[0];
    assert x in multiset(v) && y in multiset(u);
    SortedHead(v, cmp, x);
    SortedHead(u, cmp, y);
    if x != y {
      assert false;
    }
  }

  lemma TailKeepsSortedDistinct<T>(u: seq<T>, cmp: (T, T) -> int)
    requires u != [] && Sorted(u, cmp) && TiesOnlyEqual(u, cmp)
    ensures Sorted(u[1..], cmp) && TiesOnlyEqual(u[1..], cmp)
  {
    forall a, b | a in u[1..] && b in u[1..] && cmp(a, b) == 0 ensures a == b {
      assert a in u && b in u;
    }
  }

  /** Where the comparator ties only equal values, a sorted arrangement of a
      multiset is unique. */
  lemma {:induction false} SortedUnique<T(!new)>(u: seq<T>, v: seq<T>, cmp: (T, T) -> int)
    requires Antisymmetric(cmp)
    requires multiset(u) == multiset(v)
    requires Sorted(u, cmp) && Sorted(v, cmp)
    requires TiesOnlyEqual(u, cmp)
    ensures u == v
    decreases |u|
  {
    if u == [] {
      assert |v| == |multiset(v)| == 0;
    } else {
      SortedHeadsEqual(u, v, cmp);
      MultisetTail(u, v);
      TailKeepsSortedDistinct(u, cmp);
      assert Sorted(v[1..], cmp);
      SortedUnique(u[1..], v[1..], cmp);
      assert u == [u[0]] + u[1..] && v == [v[0]] + v[1..];
    }
  }

  /** Mirror order: when the comparator ties only equal values, sorting with
      the flipped comparator is the reverse of sorting with the original. */
  lemma SortByFlipIsReverse<T(!new)>(s: seq<T>, cmp: (T, T) -> int)
    requires TotalPreorder(cmp)
    requires TiesOnlyEqual(s, cmp)
    ensures SortBy(s, Flip(cmp)) == Reverse(SortBy(s, cmp))
  {
    var up, down := SortBy(s, cmp), SortBy(s, Flip(cmp));
    SortBySorted(s, cmp);
    FlipTotalPreorder(cmp);
    SortBySorted(s, Flip(cmp));
    ReverseSorted(up, cmp);
    ReverseMultiset(up);
    forall a, b | a in down && b in down && Flip(cmp)(a, b) == 0 ensures a == b {
      assert a in multiset(s) && b in multiset(s);
      assert a in s && b in s;
    }
    SortedUnique(down, Reverse(up), Flip(cmp));
  }

  lemma SortByPrefixStep<T>(s: seq<T>, i: nat, cmp: (T, T) -> int)
    requires i < |s|
    ensures SortBy(s[..i + 1], cmp) == InsertBy(SortBy(s[..i], cmp), s[i], cmp)
  {
    assert s[..i + 1][..i] == s[..i];
  }

  lemma InsertByShift<T>(t: seq<T>, j: nat, x: T, cmp: (T, T) -> int)
    requires 0 < j <= |t| && cmp(t[j - 1], x) > 0
    ensures InsertBy(t[..j], x, cmp) + t[j..] == InsertBy(t[..j - 1], x, cmp) + t[j - 1..]
  {
    assert t[..j][..j - 1] == t[..j - 1];
    assert t[j - 1..] == [t[j - 1]] + t[j..];
  }

  lemma InsertByStop<T>(t: seq<T>, j: nat, x: T, cmp: (T, T) -> int)
    requires j <= |t| && (j == 0 || cmp(t[j - 1], x) <= 0)
    ensures InsertBy(t[..j], x, cmp) + t[j..] == t[..j] + [x] + t[j..]
  {
  }

  /** Splits the state of the outer loop of `SortInPlace` at position `i`. */
  lemma SortStep<T>(a0: seq<T>, i: nat, cur: seq<T>, cmp: (T, T) -> int)
    requires i < |a0| && cur == SortBy(a0[..i], cmp) + a0[i..]
    ensures cur[..i] == SortBy(a0[..i], cmp) && cur[i] == a0[i] && cur[i + 1..] == a0[i + 1..]
    ensures InsertBy(cur[..i], cur[i], cmp) + cur[i + 1..] == SortBy(a0[..i + 1], cmp) + a0[i + 1..]
  {
    var sb := SortBy(a0[..i], cmp);
    assert cur[..i] == sb;
    assert cur[i..] == a0[i..];
    assert cur[i + 1..] == a0[i..][1..];
    SortByPrefixStep(a0, i, cmp);
  }

  /** `a.sort(cmp)` on an array: insertion sort in place. */
  method SortInPlace<T>(a: array<T>, cmp: (T, T) -> int)
    modifies a
    ensures a[..] == SortBy(old(a[..]), cmp)
  {
    ghost var a0 := a[..];
    var i := 0;
    assert a0[i..] == a0;
    while i < a.Length
      invariant 0 <= i <= a.Length
      invariant a[..] == SortBy(a0[..i], cmp) + a0[i..]
    {
      SortStep(a0, i, a[..], cmp);
      InsertInPlace(a, i, cmp);
      i := i + 1;
    }
    assert a0[..a.Length] == a0;
  }

  lemma ShiftStep<T>(b: seq<T>, j: nat, sorted: seq<T>, rest: seq<T>)
    requires 0 < j <= |sorted| && |b| == |sorted| + 1 + |rest|
    requires b[..j] == sorted[..j] && b[j + 1..] == sorted[j..] + rest
    ensures b[j := b[j - 1]][..j - 1] == sorted[..j - 1]
    ensures b[j := b[j - 1]][j..] == sorted[j - 1..] + rest
  {
    var c := b[j := b[j - 1]];
    assert c[..j - 1] == b[..j][..j - 1];
    assert c[j..] == [b[j - 1]] + b[j + 1..];
    assert sorted[j - 1..] == [sorted[j - 1]] + sorted[j..];
  }

  lemma PlaceStep<T>(b: seq<T>, j: nat, x: T, sorted: seq<T>, rest: seq<T>)
    requires j <= |sorted| && |b| == |sorted| + 1 + |rest|
    requires b[..j] == sorted[..j] && b[j + 1..] == sorted[j..] + rest
    ensures b[j := x] == sorted[..j] + [x] + sorted[j..] + rest
  {
    var c := b[j := x];
    assert c == c[..j] + [x] + c[j + 1..];
  }

  /** One pass of insertion sort: moves `a[i]` left past every element that
      must follow it, shifting those one place right. */
  method InsertInPlace<T>(a: array<T>, i: nat, cmp: (T, T) -> int)
    requires i < a.Length
    modifies a
    ensures a[..] == InsertBy(old(a[..i]), old(a[i]), cmp) + old(a[i + 1..])
  {
    var x := a[i];
    ghost var sorted, rest := a[..i], a[i + 1..];
    var j := i;
    assert sorted[..j] == sorted && sorted[j..] == [];
    while j > 0 && cmp(a[j - 1], x) > 0
      invariant 0 <= j <= i && a.Length == i + 1 + |rest|
      invariant a[..j] == sorted[..j]
      invariant a[j + 1..] == sorted[j..] + rest
      invariant InsertBy(sorted, x, cmp) == InsertBy(sorted[..j], x, cmp) + sorted[j..]
    {
      assert sorted[j - 1] == a[j - 1];
      InsertByShift(sorted, j, x, cmp);
      ghost var b := a[..];
      ShiftStep(b, j, sorted, rest);
      a[j] := a[j - 1];
      assert a[..] == b[j := b[j - 1]];
      j := j - 1;
    }
    InsertByStop(sorted, j, x, cmp);
    ghost var b := a[..];
    PlaceStep(b, j, x, sorted, rest);
    a[j] := x;
    assert a[..] == b[j := x];
  }

  /** The first element of a sorted copy may stay in front of every element. */
  lemma SortByHeadFirst<T(!new)>(s: seq<T>, cmp: (T, T) -> int, x: T)
    requires TotalPreorder(cmp) && s != [] && x in s
    ensures cmp(SortBy(s, cmp)[0], x) <= 0
  {
    var sorted := SortBy(s, cmp);
    SortBySorted(s, cmp);
    assert x in multiset(sorted);
    var t :| 0 <= t < |sorted| && sorted[t] == x;
    if t == 0 {
      assert cmp(x, x) == -cmp(x, x);
    }
  }

  /** The first element of a sorted copy is the earliest element of the input
      among those it ties with. */
  lemma SortByHeadEarliestOfTies<T(!new)>(s: seq<T>, cmp: (T, T) -> int)
    requires TotalPreorder(cmp) && s != []
    ensures exists k :: (0 <= k < |s| && s[k] == SortBy(s, cmp)[0]
      && forall j :: 0 <= j < k ==> cmp(s[j], s[k]) != 0)
  {
    var sorted := SortBy(s, cmp);
    var h := sorted[0];
    var tied := TiedWith(cmp, h);
    SortByStable(s, cmp, h);
    assert cmp(h, h) == -cmp(h, h);
    assert Filter(sorted, tied) == [h] + Filter(sorted[1..], tied);
    FilterHead(s, tied);
  }

  /** Elements of a sorted sequence past position `m` never have to move in
      front of elements before it. */
  lemma SortedPrefixFirst<T>(s: seq<T>, cmp: (T, T) -> int, m: nat, y: T, i: nat)
    requires Sorted(s, cmp) && i < m <= |s|
    requires y in multiset(s) - multiset(s[..m])
    ensures cmp(s[i], y) <= 0
  {
    assert s == s[..m] + s[m..];
    assert multiset(s) == multiset(s[..m]) + multiset(s[m..]);
    assert y in multiset(s[m..]);
    var k :| 0 <= k < |s[m..]| && s[m..][k] == y;
    assert s[m + k] == y;
  }
}

/**
 * Stable sorting by a key, as `Array.prototype.sort` does it with a
 * comparator (the ECMAScript standard has required the sort to be stable
 * since its 2019 edition). `lt(a, b)` says that key `a` belongs strictly
 * before key `b`; elements whose keys are not ordered keep their relative
 * order. `Sort` is insertion sort on sequences; `InsertionSort` is the same
 * algorithm in place on an array. `SortUnique` shows that any stable sort
 * with the same comparator produces the same sequence, so `Sort` stands for
 * whatever stable algorithm the engine uses.
 */
module Sorting {
  import opened Text

  ghost predicate StrictTotalOrder<K(!new)>(lt: (K, K) -> bool) {
    && (forall a :: !lt(a, a))
    && (forall a, b, c :: lt(a, b) && lt(b, c) ==> lt(a, c))
    && (forall a, b :: a != b ==> lt(a, b) || lt(b, a))
  }

  /** The relational `<` on strings orders them strictly and totally. */
  lemma {:induction false} LessIsStrictTotalOrder()
    ensures StrictTotalOrder(Less)
  {
    forall a: string ensures !Less(a, a) {
      LessIrreflexive(a);
    }
    forall a: string, b: string, c: string | Less(a, b) && Less(b, c) ensures Less(a, c) {
      LessTransitive(a, b, c);
    }
    forall a: string, b: string | a != b ensures Less(a, b) || Less(b, a) {
      LessConnected(a, b);
    }
  }

  /** No element is placed before one whose key comes strictly earlier. */
  predicate Sorted<T, K>(s: seq<T>, key: T -> K, lt: (K, K) -> bool) {
    forall i, j :: 0 <= i < j < |s| ==> !lt(key(s[j]), key(s[i]))
  }

  /** The elements of `s` whose key is `v`, in their order in `s`. */
  function KeyFilter<T, K(==)>(s: seq<T>, key: T -> K, v: K): (r: seq<T>)
  {
    if s == [] then []
    else KeyFilter(s[..|s| - 1], key, v) + (if key(s[|s| - 1]) == v then [s[|s| - 1]] else [])
  }

  /**
   * Places `x` behind `s`, then moves it forward past every element whose
   * key it strictly precedes: one pass of insertion sort.
   */
  function Insert<T, K>(s: seq<T>, x: T, key: T -> K, lt: (K, K) -> bool): (r: seq<T>)
    ensures |r| == |s| + 1
  {
    if s == [] || !lt(key(x), key(s[|s| - 1])) then s + [x]
    else Insert(s[..|s| - 1], x, key, lt) + [s[|s| - 1]]
  }

  /** Insertion sort: the sorted prefix grows by one element at a time. */
  function Sort<T, K>(s: seq<T>, key: T -> K, lt: (K, K) -> bool): (r: seq<T>)
    ensures |r| == |s|
  {
    if s == [] then [] else Insert(Sort(s[..|s| - 1], key, lt), s[|s| - 1], key, lt)
  }

  lemma {:induction false} InsertPermutes<T, K>(s: seq<T>, x: T, key: T -> K, lt: (K, K) -> bool)
    ensures multiset(Insert(s, x, key, lt)) == multiset(s) + multiset{x}
  {
    if s != [] && lt(key(x), key(s[|s| - 1])) {
      InsertPermutes(s[..|s| - 1], x, key, lt);
      assert s == s[..|s| - 1] + [s[|s| - 1]];
    }
  }

  /** Sorting only rearranges: the result is a permutation of the input. */
  lemma {:induction false} SortPermutes<T, K>(s: seq<T>, key: T -> K, lt: (K, K) -> bool)
    ensures multiset(Sort(s, key, lt)) == multiset(s)
  {
    if s != [] {
      SortPermutes(s[..|s| - 1], key, lt);
      InsertPermutes(Sort(s[..|s| - 1], key, lt), s[|s| - 1], key, lt);
      assert s == s[..|s| - 1] + [s[|s| - 1]];
    }
  }

  /** Every element that `Insert` moved `x` past has a key strictly after `x`'s. */
  lemma {:induction false} InsertSplit<T, K>(s: seq<T>, x: T, key: T -> K, lt: (K, K) -> bool)
    returns (j: nat)
    ensures j <= |s|
    ensures Insert(s, x, key, lt) == s[..j] + [x] + s[j..]
    ensures forall k :: j <= k < |s| ==> lt(key(x), key(s[k]))
    ensures j > 0 ==> !lt(key(x), key(s[j - 1]))
  {
    if s == [] || !lt(key(x), key(s[|s| - 1])) {
      j := |s|;
      assert s[..j] == s;
    } else {
      var init := s[..|s| - 1];
      j := InsertSplit(init, x, key, lt);
      assert init[..j] == s[..j];
      assert init[j..] + [s[|s| - 1]] == s[j..];
    }
  }

  lemma {:induction false} InsertSorted<T, K(!new)>(s: seq<T>, x: T, key: T -> K, lt: (K, K) -> bool)
    requires StrictTotalOrder(lt)
    requires Sorted(s, key, lt)
    ensures Sorted(Insert(s, x, key, lt), key, lt)
  {
    var j := InsertSplit(s, x, key, lt);
    var r := Insert(s, x, key, lt);
    forall a, b | 0 <= a < b < |r|
      ensures !lt(key(r[b]), key(r[a]))
    {
      if a < j && b == j {
        // r[a] == s[a] is at most s[j - 1], which x does not strictly precede
        if a < j - 1 {
          assert !lt(key(s[j - 1]), key(s[a]));
        }
      } else if a == j && b > j {
        assert r[b] == s[b - 1];
        assert lt(key(x), key(s[b - 1]));
      } else if a < j && b > j {
        assert r[a] == s[a] && r[b] == s[b - 1];
      } else if a > j {
        assert r[a] == s[a - 1] && r[b] == s[b - 1];
      }
    }
  }

  /** The result of `Sort` is sorted. */
  lemma {:induction false} SortSorted<T, K(!new)>(s: seq<T>, key: T -> K, lt: (K, K) -> bool)
    requires StrictTotalOrder(lt)
    ensures Sorted(Sort(s, key, lt), key, lt)
  {
    if s != [] {
      SortSorted(s[..|s| - 1], key, lt);
      InsertSorted(Sort(s[..|s| - 1], key, lt), s[|s| - 1], key, lt);
    }
  }

  lemma {:induction false} KeyFilterAppend<T, K>(a: seq<T>, b: seq<T>, key: T -> K, v: K)
    ensures KeyFilter(a + b, key, v) == KeyFilter(a, key, v) + KeyFilter(b, key, v)
  {
    if b != [] {
      assert (a + b)[..|a + b| - 1] == a + b[..|b| - 1];
      KeyFilterAppend(a, b[..|b| - 1], key, v);
    } else {
      assert a + b == a;
    }
  }

  /** The elements `x` moves past all have keys other than `x`'s. */
  lemma {:induction false} KeyFilterOfLarger<T, K(!new)>(s: seq<T>, x: T, key: T -> K, lt: (K, K) -> bool)
    requires forall a :: !lt(a, a)
    requires forall k :: 0 <= k < |s| ==> lt(key(x), key(s[k]))
    ensures KeyFilter(s, key, key(x)) == []
  {
    if s != [] {
      KeyFilterOfLarger(s[..|s| - 1], x, key, lt);
      assert lt(key(x), key(s[|s| - 1]));
      assert !lt(key(x), key(x));
    }
  }

  /** Insertion keeps every key's elements in order, `x` behind its equals. */
  lemma {:induction false} InsertKeyFilter<T, K(!new)>(s: seq<T>, x: T, key: T -> K, lt: (K, K) -> bool, v: K)
    requires forall a :: !lt(a, a)
    ensures KeyFilter(Insert(s, x, key, lt), key, v)
            == KeyFilter(s, key, v) + (if key(x) == v then [x] else [])
  {
    var j := InsertSplit(s, x, key, lt);
    KeyFilterAppend(s[..j] + [x], s[j..], key, v);
    KeyFilterAppend(s[..j], [x], key, v);
    KeyFilterAppend(s[..j], s[j..], key, v);
    assert s[..j] + s[j..] == s;
    assert KeyFilter([x], key, v) == (if key(x) == v then [x] else []) by {
      assert [x][..0] == [];
    }
    if key(x) == v {
      KeyFilterOfLarger(s[j..], x, key, lt);
    }
  }

  /**
   * Stability: for every key, the elements carrying it appear in the
   * sorted result in the same order as in the input.
   */
  lemma {:induction false} SortKeyFilter<T, K(!new)>(s: seq<T>, key: T -> K, lt: (K, K) -> bool, v: K)
    requires forall a :: !lt(a, a)
    ensures KeyFilter(Sort(s, key, lt), key, v) == KeyFilter(s, key, v)
  {
    if s != [] {
      SortKeyFilter(s[..|s| - 1], key, lt, v);
      InsertKeyFilter(Sort(s[..|s| - 1], key, lt), s[|s| - 1], key, lt, v);
    }
  }

  /** Sorting an already sorted sequence changes nothing. */
  lemma {:induction false} SortIdempotent<T, K>(s: seq<T>, key: T -> K, lt: (K, K) -> bool)
    requires Sorted(s, key, lt)
    ensures Sort(s, key, lt) == s
  {
    if s != [] {
      var init := s[..|s| - 1];
      assert Sorted(init, key, lt);
      SortIdempotent(init, key, lt);
      if |s| > 1 {
        assert !lt(key(s[|s| - 1]), key(init[|init| - 1]));
      }
      assert init + [s[|s| - 1]] == s;
    }
  }

  lemma {:induction false} KeyFilterSnoc<T, K>(s: seq<T>, x: T, key: T -> K, v: K)
    ensures KeyFilter(s + [x], key, v) == KeyFilter(s, key, v) + (if key(x) == v then [x] else [])
  {
    assert (s + [x])[..|s|] == s;
  }

  lemma {:induction false} KeyFilterNonEmpty<T, K>(s: seq<T>, key: T -> K, k: nat)
    requires k < |s|
    ensures KeyFilter(s, key, key(s[k])) != []
  {
    KeyFilterAppend(s[..k + 1], s[k + 1..], key, key(s[k]));
    assert s[..k + 1] + s[k + 1..] == s;
    KeyFilterSnoc(s[..k], s[k], key, key(s[k]));
    assert s[..k + 1] == s[..k] + [s[k]];
  }

  lemma {:induction false} KeyFilterMember<T, K>(s: seq<T>, key: T -> K, v: K) returns (i: nat)
    requires KeyFilter(s, key, v) != []
    ensures i < |s| && key(s[i]) == v
  {
    if key(s[|s| - 1]) == v {
      i := |s| - 1;
    } else {
      i := KeyFilterMember(s[..|s| - 1], key, v);
    }
  }

  /** A sequence that agrees with a non-empty one on every key's elements is non-empty. */
  lemma {:induction false} SameFiltersNonEmpty<T, K>(r: seq<T>, t: seq<T>, key: T -> K)
    requires r != []
    requires forall v :: KeyFilter(r, key, v) == KeyFilter(t, key, v)
    ensures t != []
  {
    KeyFilterNonEmpty(r, key, 0);
    assert KeyFilter(t, key, key(r[0])) != [];
    var i := KeyFilterMember(t, key, key(r[0]));
  }

  /** Sorted sequences with the same keys end with the same key. */
  lemma {:induction false} SameFiltersLastKey<T, K(!new)>(r: seq<T>, t: seq<T>, key: T -> K, lt: (K, K) -> bool)
    requires StrictTotalOrder(lt)
    requires Sorted(r, key, lt) && Sorted(t, key, lt)
    requires r != [] && t != []
    requires forall v :: KeyFilter(r, key, v) == KeyFilter(t, key, v)
    ensures key(r[|r| - 1]) == key(t[|t| - 1])
  {
    var kr, kt := key(r[|r| - 1]), key(t[|t| - 1]);
    KeyFilterNonEmpty(r, key, |r| - 1);
    assert KeyFilter(t, key, kr) != [];
    var i := KeyFilterMember(t, key, kr);
    KeyFilterNonEmpty(t, key, |t| - 1);
    assert KeyFilter(r, key, kt) != [];
    var i' := KeyFilterMember(r, key, kt);
    // kr occurs in t, so it is not strictly after t's last key, and vice versa
    if i < |t| - 1 { assert !lt(kt, key(t[i])); }
    if i' < |r| - 1 { assert !lt(kr, key(r[i'])); }
    assert !lt(kt, kr) && !lt(kr, kt);
  }

  lemma {:induction false} AppendCancel<T>(a: seq<T>, b: seq<T>, c: seq<T>)
    requires a + c == b + c
    ensures a == b
  {
    assert |a| == |b|;
    assert a == (a + c)[..|a|];
    assert b == (b + c)[..|b|];
  }

  /**
   * Two sorted sequences that agree on every key's elements are equal: a
   * stable sort has only one possible outcome.
   */
  lemma {:induction false} SortedSameFiltersEqual<T, K(!new)>(r: seq<T>, t: seq<T>, key: T -> K, lt: (K, K) -> bool)
    requires StrictTotalOrder(lt)
    requires Sorted(r, key, lt) && Sorted(t, key, lt)
    requires forall v :: KeyFilter(r, key, v) == KeyFilter(t, key, v)
    ensures r == t
    decreases |r|
  {
    if r != [] {
      SameFiltersNonEmpty(r, t, key);
      SameFiltersLastKey(r, t, key, lt);
      var x, y := r[|r| - 1], t[|t| - 1];
      var r', t' := r[..|r| - 1], t[..|t| - 1];
      assert r == r' + [x] && t == t' + [y];
      forall v
        ensures KeyFilter(r', key, v) + (if key(x) == v then [x] else [])
                == KeyFilter(t', key, v) + (if key(y) == v then [y] else [])
      {
        KeyFilterSnoc(r', x, key, v);
        KeyFilterSnoc(t', y, key, v);
      }
      assert x == y by {
        var sr := KeyFilter(r', key, key(x)) + [x];
        var st := KeyFilter(t', key, key(x)) + [y];
        assert sr == st;
        assert sr[|sr| - 1] == st[|st| - 1];
      }
      forall v
        ensures KeyFilter(r', key, v) == KeyFilter(t', key, v)
      {
        AppendCancel(KeyFilter(r', key, v), KeyFilter(t', key, v), if key(x) == v then [x] else []);
      }
      SortedSameFiltersEqual(r', t', key, lt);
    } else if t != [] {
      SameFiltersNonEmpty(t, r, key);
    }
  }

  /**
   * `Sort` is the stable sort: any sequence that is sorted and keeps each
   * key's elements in input order is `Sort` of the input.
   */
  lemma {:induction false} SortUnique<T, K(!new)>(s: seq<T>, r: seq<T>, key: T -> K, lt: (K, K) -> bool)
    requires StrictTotalOrder(lt)
    requires Sorted(r, key, lt)
    requires forall v :: KeyFilter(r, key, v) == KeyFilter(s, key, v)
    ensures r == Sort(s, key, lt)
  {
    SortSorted(s, key, lt);
    forall v
      ensures KeyFilter(r, key, v) == KeyFilter(Sort(s, key, lt), key, v)
    {
      SortKeyFilter(s, key, lt, v);
    }
    SortedSameFiltersEqual(r, Sort(s, key, lt), key, lt);
  }

  /** One shift of the in-place insertion: `x` moves in front of `s[j - 1]`. */
  lemma {:induction false} InsertShiftLeft<T, K>(s: seq<T>, j: nat, x: T, key: T -> K, lt: (K, K) -> bool)
    requires 0 < j <= |s|
    requires lt(key(x), key(s[j - 1]))
    ensures Insert(s[..j], x, key, lt) + s[j..] == Insert(s[..j - 1], x, key, lt) + s[j - 1..]
  {
    assert s[..j][..j - 1] == s[..j - 1];
    assert s[j - 1..] == [s[j - 1]] + s[j..];
  }

  /** Sorting one more element of the input is inserting it into the sorted prefix. */
  lemma {:induction false} SortPrefixStep<T, K>(s: seq<T>, i: nat, key: T -> K, lt: (K, K) -> bool)
    requires i < |s|
    ensures Sort(s[..i + 1], key, lt) == Insert(Sort(s[..i], key, lt), s[i], key, lt)
  {
    assert s[..i + 1][..i] == s[..i];
  }

  /**
   * Inserts `a[i]` into the prefix `a[..i]`, shifting the elements it
   * strictly precedes one place right; the rest of the array is untouched.
   */
  method InsertInPlace<T, K>(a: array<T>, i: nat, key: T -> K, lt: (K, K) -> bool)
    requires i < a.Length
    modifies a
    ensures a[..i + 1] == Insert(old(a[..i]), old(a[i]), key, lt)
    ensures forall k :: i < k < a.Length ==> a[k] == old(a[k])
  {
    ghost var sorted := a[..i];
    var x := a[i];
    var j := i;
    assert sorted[..j] == sorted && sorted[j..] == [];
    while j > 0 && lt(key(x), key(a[j - 1]))
      invariant 0 <= j <= i
      invariant forall k :: 0 <= k < j ==> a[k] == sorted[k]
      invariant forall k :: j < k <= i ==> a[k] == sorted[k - 1]
      invariant forall k :: i < k < a.Length ==> a[k] == old(a[k])
      invariant Insert(sorted, x, key, lt) == Insert(sorted[..j], x, key, lt) + sorted[j..]
    {
      a[j] := a[j - 1];
      InsertShiftLeft(sorted, j, x, key, lt);
      j := j - 1;
    }
    a[j] := x;
    InsertPlaced(a[..i + 1], sorted, j, x, key, lt);
  }

  /**
   * Where the in-place insertion stops: the prefix before `j`, then `x`,
   * then the shifted rest is the insertion of `x` into `sorted`.
   */
  lemma {:induction false} InsertPlaced<T, K>(s: seq<T>, sorted: seq<T>, j: nat, x: T, key: T -> K, lt: (K, K) -> bool)
    requires |s| == |sorted| + 1 && j < |s|
    requires j == 0 || !lt(key(x), key(sorted[j - 1]))
    requires forall k :: 0 <= k < j ==> s[k] == sorted[k]
    requires s[j] == x
    requires forall k :: j < k < |s| ==> s[k] == sorted[k - 1]
    requires Insert(sorted, x, key, lt) == Insert(sorted[..j], x, key, lt) + sorted[j..]
    ensures s == Insert(sorted, x, key, lt)
  {
    assert Insert(sorted[..j], x, key, lt) == sorted[..j] + [x];
    var inserted := sorted[..j] + [x] + sorted[j..];
    forall k | 0 <= k < |s|
      ensures s[k] == inserted[k]
    {
      if k > j {
        assert inserted[k] == sorted[k - 1];
      }
    }
  }

  /** Insertion sort in place: the array ends up as `Sort` of its old contents. */
  method InsertionSort<T, K>(a: array<T>, key: T -> K, lt: (K, K) -> bool)
    modifies a
    ensures a[..] == Sort(old(a[..]), key, lt)
  {
    ghost var input := a[..];
    var i := 0;
    while i < a.Length
      invariant 0 <= i <= a.Length
      invariant a[..i] == Sort(input[..i], key, lt)
      invariant forall k :: i <= k < a.Length ==> a[k] == input[k]
    {
      InsertInPlace(a, i, key, lt);
      SortPrefixStep(input, i, key, lt);
      i := i + 1;
    }
    assert a[..] == a[..a.Length] && input == input[..a.Length];
  }
}

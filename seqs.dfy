/**
 * Sequence facts shared by the modules: sorting by value, `g_array_sort` as the
 * library calls it (with a comparator that is handed addresses), first-occurrence
 * deduplication, first-index search and element-wise equality.
 */
module Seqs {

  /** `a` may come before `b`: ascending order, or non-increasing order when `desc`. */
  predicate InOrder(a: int, b: int, desc: bool) {
    if desc then a >= b else a <= b
  }

  predicate Sorted(s: seq<int>, desc: bool) {
    forall i, j :: 0 <= i < j < |s| ==> InOrder(s[i], s[j], desc)
  }

  /** `x` put before the first element of `s` it may come before. */
  function Insert(x: int, s: seq<int>, desc: bool): (r: seq<int>)
    ensures multiset(r) == multiset(s) + multiset{x}
    ensures |r| == |s| + 1
  {
    if s == [] || InOrder(x, s[0], desc) then [x] + s
    else
      assert s == [s[0]] + s[1..];
      [s[0]] + Insert(x, s[1..], desc)
  }

  /** A value that may come before every element of a sorted sequence can head it. */
  lemma ConsSorted(a: int, t: seq<int>, desc: bool)
    requires Sorted(t, desc)
    requires forall k :: 0 <= k < |t| ==> InOrder(a, t[k], desc)
    ensures Sorted([a] + t, desc)
  {
    var r := [a] + t;
    forall i, j | 0 <= i < j < |r|
      ensures InOrder(r[i], r[j], desc)
    {
      assert r[j] == t[j - 1];
      if i > 0 {
        assert r[i] == t[i - 1];
      }
    }
  }

  lemma {:induction false} InsertSorted(x: int, s: seq<int>, desc: bool)
    requires Sorted(s, desc)
    ensures Sorted(Insert(x, s, desc), desc)
  {
    if s == [] || InOrder(x, s[0], desc) {
      ConsSorted(x, s, desc);
    } else {
      var t := Insert(x, s[1..], desc);
      InsertSorted(x, s[1..], desc);
      assert s == [s[0]] + s[1..];
      forall k | 0 <= k < |t|
        ensures InOrder(s[0], t[k], desc)
      {
        assert t[k] in multiset(s[1..]) + multiset{x};
      }
      ConsSorted(s[0], t, desc);
    }
  }

  /** An ascending sequence runs from its smallest element up to its largest. */
  lemma SortedEnds(t: seq<int>)
    requires Sorted(t, false)
    ensures forall j :: 0 <= j < |t| ==> t[0] <= t[j] <= t[|t| - 1]
  {
    forall j | 0 <= j < |t|
      ensures t[0] <= t[j] <= t[|t| - 1]
    {
      if 0 < j {
        assert InOrder(t[0], t[j], false);
      }
      if j < |t| - 1 {
        assert InOrder(t[j], t[|t| - 1], false);
      }
    }
  }

  /** The values of `s` in order (insertion sort): a permutation, sorted by `SortSorted`. */
  function Sort(s: seq<int>, desc: bool): (r: seq<int>)
    ensures multiset(r) == multiset(s)
    ensures |r| == |s|
  {
    if s == [] then []
    else
      assert s == [s[0]] + s[1..];
      Insert(s[0], Sort(s[1..], desc), desc)
  }

  lemma {:induction false} SortSorted(s: seq<int>, desc: bool)
    ensures Sorted(Sort(s, desc), desc)
  {
    if s != [] {
      SortSorted(s[1..], desc);
      InsertSorted(s[0], Sort(s[1..], desc), desc);
    }
  }

  lemma SameHead(a: seq<int>, b: seq<int>, desc: bool)
    requires Sorted(a, desc) && Sorted(b, desc)
    requires multiset(a) == multiset(b) && a != []
    ensures b != [] && a[0] == b[0]
  {
    assert a[0] in multiset(b);
    assert b != [] && b[0] in multiset(a);
    var i :| 0 <= i < |a| && a[i] == b[0];
    var j :| 0 <= j < |b| && b[j] == a[0];
    assert InOrder(a[0], a[i], desc) || i == 0;
    assert InOrder(b[0], b[j], desc) || j == 0;
  }

  lemma TailMultiset(a: seq<int>)
    requires a != []
    ensures multiset(a[1..]) == multiset(a) - multiset{a[0]}
  {
    assert a == [a[0]] + a[1..];
  }

  /**
   * A sorted permutation is unique, so any sorting algorithm, stable or not,
   * produces `Sort(s, desc)`.
   */
  lemma {:induction false} SortedUnique(a: seq<int>, b: seq<int>, desc: bool)
    requires Sorted(a, desc) && Sorted(b, desc)
    requires multiset(a) == multiset(b)
    ensures a == b
  {
    if a != [] {
      SameHead(a, b, desc);
      TailMultiset(a);
      TailMultiset(b);
      SortedUnique(a[1..], b[1..], desc);
      assert a == [a[0]] + a[1..] && b == [b[0]] + b[1..];
    } else {
      assert |b| == |multiset(b)| == 0;
    }
  }

  //===------------------------------------------------------------------------
  // g_array_sort through a (GCompareFunc) cast

  /** The size of a `long`, an `unsigned long` and a pointer: the stride of every array the library sorts. */
  const Stride: nat := 8

  /** `s` back to front. */
  function Reverse<T>(s: seq<T>): (r: seq<T>)
    ensures |r| == |s|
  {
    seq(|s|, i requires 0 <= i < |s| => s[|s| - 1 - i])
  }

  lemma ReverseAppend<T>(a: seq<T>, b: seq<T>)
    ensures Reverse(a + b) == Reverse(b) + Reverse(a)
  {
  }

  lemma Rejoin<T>(s: seq<T>, n: nat)
    requires n <= |s|
    ensures s[..n] + s[n..] == s
  {
  }

  lemma ReverseHalves<T>(s: seq<T>, n: nat)
    requires n <= |s|
    ensures Reverse(s[n..]) + Reverse(s[..n]) == Reverse(s)
  {
    ReverseAppend(s[..n], s[n..]);
    Rejoin(s, n);
  }

  lemma {:induction false} ReverseMultiset<T>(s: seq<T>)
    ensures multiset(Reverse(s)) == multiset(s)
  {
    if s != [] {
      ReverseMultiset(s[1..]);
      ReverseAppend([s[0]], s[1..]);
      assert s == [s[0]] + s[1..];
      assert Reverse([s[0]]) == [s[0]];
    }
  }

  /** Read back to front, a non-increasing sequence is ascending. */
  lemma ReverseSorted(s: seq<int>)
    requires Sorted(s, true)
    ensures Sorted(Reverse(s), false)
  {
    var r := Reverse(s);
    forall i, j | 0 <= i < j < |r|
      ensures InOrder(r[i], r[j], false)
    {
      assert InOrder(s[|s| - 1 - j], s[|s| - 1 - i], true);
    }
  }

  /**
   * Every comparison between two addresses of `[lo, hi)`, the lower one first, asks
   * for the element at the higher address to be taken first.
   */
  predicate UpperFirst(cmp: (int, int) -> int, lo: int, hi: int) {
    forall p, q :: lo <= p < q < hi ==> cmp(p, q) > 0
  }

  /** Every such comparison lets the element at the lower address be taken first. */
  predicate LowerFirst(cmp: (int, int) -> int, lo: int, hi: int) {
    forall p, q :: lo <= p < q < hi ==> cmp(p, q) <= 0
  }

  /**
   * The merge of `g_qsort_with_data`: `a` sits at address `pa`, `b` at `pb`, each
   * element `Stride` bytes after the one before; the head of `a` is taken while
   * `cmp` of the two heads' addresses is not positive.
   */
  function AddressMerge<T>(a: seq<T>, b: seq<T>, pa: int, pb: int, cmp: (int, int) -> int): (r: seq<T>)
    ensures |r| == |a| + |b|
    decreases |a| + |b|
  {
    if a == [] then b
    else if b == [] then a
    else if cmp(pa, pb) <= 0 then [a[0]] + AddressMerge(a[1..], b, pa + Stride, pb, cmp)
    else [b[0]] + AddressMerge(a, b[1..], pa, pb + Stride, cmp)
  }

  /** The merge loses and invents nothing. */
  lemma {:induction false} AddressMergePermutes<T>(a: seq<T>, b: seq<T>, pa: int, pb: int, cmp: (int, int) -> int)
    ensures multiset(AddressMerge(a, b, pa, pb, cmp)) == multiset(a) + multiset(b)
    decreases |a| + |b|
  {
    if a != [] && b != [] {
      if cmp(pa, pb) <= 0 {
        var rest := AddressMerge(a[1..], b, pa + Stride, pb, cmp);
        AddressMergePermutes(a[1..], b, pa + Stride, pb, cmp);
        calc {
          multiset(AddressMerge(a, b, pa, pb, cmp));
          multiset([a[0]] + rest);
          multiset([a[0]]) + multiset(rest);
          { HeadTail(a); }
          multiset(a) + multiset(b);
        }
      } else {
        var rest := AddressMerge(a, b[1..], pa, pb + Stride, cmp);
        AddressMergePermutes(a, b[1..], pa, pb + Stride, cmp);
        calc {
          multiset(AddressMerge(a, b, pa, pb, cmp));
          multiset([b[0]] + rest);
          multiset([b[0]]) + multiset(rest);
          { HeadTail(b); }
          multiset(a) + multiset(b);
        }
      }
    }
  }

  lemma HeadTail<T>(s: seq<T>)
    requires s != []
    ensures multiset(s) == multiset([s[0]]) + multiset(s[1..])
  {
    assert s == [s[0]] + s[1..];
  }

  /**
   * `g_array_sort(array, (GCompareFunc)&cmp)` where `cmp` takes two values: GLib
   * passes the addresses of the elements, so `cmp` compares those. The merge sort of
   * `g_qsort_with_data` sorts the first `|s| / 2` elements and the rest in place,
   * then merges them; `base` is the address of `s[0]`.
   */
  function AddressSort<T>(s: seq<T>, base: int, cmp: (int, int) -> int): (r: seq<T>)
    ensures |r| == |s|
    decreases |s|
  {
    if |s| <= 1 then s
    else
      var n1 := |s| / 2;
      AddressMerge(AddressSort(s[..n1], base, cmp), AddressSort(s[n1..], base + Stride * n1, cmp),
                   base, base + Stride * n1, cmp)
  }

  lemma UpperFirstWithin(cmp: (int, int) -> int, lo: int, hi: int, lo': int, hi': int)
    requires UpperFirst(cmp, lo, hi) && lo <= lo' && hi' <= hi
    ensures UpperFirst(cmp, lo', hi')
  {
  }

  lemma LowerFirstWithin(cmp: (int, int) -> int, lo: int, hi: int, lo': int, hi': int)
    requires LowerFirst(cmp, lo, hi) && lo <= lo' && hi' <= hi
    ensures LowerFirst(cmp, lo', hi')
  {
  }

  /** Whatever `cmp` answers, the sort returns a permutation of the array. */
  lemma {:induction false} AddressSortPermutes<T>(s: seq<T>, base: int, cmp: (int, int) -> int)
    ensures multiset(AddressSort(s, base, cmp)) == multiset(s)
    decreases |s|
  {
    if |s| > 1 {
      var lo, hi, mid := s[..|s| / 2], s[|s| / 2..], base + Stride * (|s| / 2);
      AddressSortHalves(s, base, cmp, lo, hi, mid);
      AddressSortPermutes(lo, base, cmp);
      AddressSortPermutes(hi, mid, cmp);
      AddressMergePermutes(AddressSort(lo, base, cmp), AddressSort(hi, mid, cmp), base, mid, cmp);
      Rejoin(s, |s| / 2);
      assert multiset(lo + hi) == multiset(lo) + multiset(hi);
    }
  }

  /** The sort of more than one element merges its sorted halves. */
  lemma AddressSortHalves<T>(s: seq<T>, base: int, cmp: (int, int) -> int, lo: seq<T>, hi: seq<T>, mid: int)
    requires |s| > 1 && lo == s[..|s| / 2] && hi == s[|s| / 2..] && mid == base + Stride * (|s| / 2)
    ensures AddressSort(s, base, cmp) == AddressMerge(AddressSort(lo, base, cmp), AddressSort(hi, mid, cmp), base, mid, cmp)
  {
    assert AddressSort(s, base, cmp)
        == AddressMerge(AddressSort(s[..|s| / 2], base, cmp), AddressSort(s[|s| / 2..], base + Stride * (|s| / 2), cmp),
                        base, base + Stride * (|s| / 2), cmp);
  }

  /** When the upper element is always taken first, the merge puts all of `b` before all of `a`. */
  lemma {:induction false} MergeUpperFirst<T>(a: seq<T>, b: seq<T>, pa: int, pb: int, cmp: (int, int) -> int)
    requires pa + Stride * |a| <= pb && UpperFirst(cmp, pa, pb + Stride * |b|)
    ensures AddressMerge(a, b, pa, pb, cmp) == b + a
  {
    if a != [] && b != [] {
      assert cmp(pa, pb) > 0;
      MergeUpperFirst(a, b[1..], pa, pb + Stride, cmp);
      assert b == [b[0]] + b[1..];
    }
  }

  /** When the lower element is always taken first, the merge puts all of `a` before all of `b`. */
  lemma {:induction false} MergeLowerFirst<T>(a: seq<T>, b: seq<T>, pa: int, pb: int, cmp: (int, int) -> int)
    requires pa + Stride * |a| <= pb && LowerFirst(cmp, pa, pb + Stride * |b|)
    ensures AddressMerge(a, b, pa, pb, cmp) == a + b
  {
    if a != [] && b != [] {
      assert cmp(pa, pb) <= 0;
      MergeLowerFirst(a[1..], b, pa + Stride, pb, cmp);
      assert a == [a[0]] + a[1..];
    }
  }

  /** A comparator that always asks for the upper element first makes the sort reverse the array. */
  lemma {:induction false} AddressSortReverses<T>(s: seq<T>, base: int, cmp: (int, int) -> int)
    requires UpperFirst(cmp, base, base + Stride * |s|)
    ensures AddressSort(s, base, cmp) == Reverse(s)
    decreases |s|
  {
    if |s| > 1 {
      var lo, hi, mid := s[..|s| / 2], s[|s| / 2..], base + Stride * (|s| / 2);
      var top := base + Stride * |s|;
      assert mid + Stride * |hi| == top;
      UpperFirstWithin(cmp, base, top, base, mid);
      UpperFirstWithin(cmp, base, top, mid, top);
      AddressSortHalves(s, base, cmp, lo, hi, mid);
      AddressSortReverses(lo, base, cmp);
      AddressSortReverses(hi, mid, cmp);
      MergeUpperFirst(Reverse(lo), Reverse(hi), base, mid, cmp);
      ReverseHalves(s, |s| / 2);
    } else if |s| == 1 {
      assert Reverse(s) == s;
    }
  }

  /** A comparator that always lets the lower element go first makes the sort keep the array as it is. */
  lemma {:induction false} AddressSortKeeps<T>(s: seq<T>, base: int, cmp: (int, int) -> int)
    requires LowerFirst(cmp, base, base + Stride * |s|)
    ensures AddressSort(s, base, cmp) == s
    decreases |s|
  {
    if |s| > 1 {
      var lo, hi, mid := s[..|s| / 2], s[|s| / 2..], base + Stride * (|s| / 2);
      var top := base + Stride * |s|;
      assert mid + Stride * |hi| == top;
      LowerFirstWithin(cmp, base, top, base, mid);
      LowerFirstWithin(cmp, base, top, mid, top);
      AddressSortHalves(s, base, cmp, lo, hi, mid);
      AddressSortKeeps(lo, base, cmp);
      AddressSortKeeps(hi, mid, cmp);
      MergeLowerFirst(lo, hi, base, mid, cmp);
      Rejoin(s, |s| / 2);
    }
  }

  predicate Distinct<T(==)>(s: seq<T>) {
    forall i, j :: 0 <= i < j < |s| ==> s[i] != s[j]
  }

  /** The elements of `xs` in the order of their first occurrence, each once. */
  function Dedup<T(==)>(xs: seq<T>): (r: seq<T>)
    ensures forall i :: 0 <= i < |xs| ==> xs[i] in r
    ensures forall i :: 0 <= i < |r| ==> r[i] in xs
    ensures Distinct(r)
    ensures |r| <= |xs|
  {
    if xs == [] then []
    else
      var d := Dedup(xs[..|xs| - 1]);
      assert forall i :: 0 <= i < |xs| - 1 ==> xs[i] == xs[..|xs| - 1][i];
      if xs[|xs| - 1] in d then d else d + [xs[|xs| - 1]]
  }

  /** One more element is kept exactly when it has not been seen yet. */
  lemma DedupStep<T>(xs: seq<T>, ys: seq<T>, x: T)
    requires |xs| == |ys| + 1 && xs[..|ys|] == ys && xs[|ys|] == x
    ensures Dedup(xs) == if x in Dedup(ys) then Dedup(ys) else Dedup(ys) + [x]
  {
  }

  /** Index of the first occurrence of `x` in `s`, or `|s|` when there is none. */
  function Find<T(==)>(s: seq<T>, x: T): (k: nat)
    ensures k <= |s|
    ensures k < |s| <==> x in s
    ensures k < |s| ==> s[k] == x
    ensures forall j :: 0 <= j < k ==> s[j] != x
  {
    if s == [] then 0
    else if s[0] == x then 0
    else
      var k := 1 + Find(s[1..], x);
      assert x in s[1..] ==> x in s;
      assert x in s && s[0] != x ==> x in s[1..];
      k
  }

  lemma FindInPrefix<T>(xs: seq<T>, n: nat, x: T)
    requires n <= |xs| && x in xs[..n]
    ensures Find(xs[..n], x) == Find(xs, x)
  {
    var k := Find(xs[..n], x);
    assert xs[k] == x;
    assert forall j :: 0 <= j < k ==> xs[j] == xs[..n][j];
  }

  /**
   * Deduplication keeps first-discovery order: an element listed earlier was first
   * seen earlier.
   */
  lemma {:induction false} DedupOrder<T>(xs: seq<T>, i: nat, j: nat)
    requires i < j < |Dedup(xs)|
    ensures Find(xs, Dedup(xs)[i]) < Find(xs, Dedup(xs)[j])
  {
    var n := |xs| - 1;
    var d := Dedup(xs[..n]);
    var r := Dedup(xs);
    if xs[n] in d {
      DedupOrder(xs[..n], i, j);
      FindInPrefix(xs, n, r[i]);
      FindInPrefix(xs, n, r[j]);
    } else if j < |d| {
      DedupOrder(xs[..n], i, j);
      FindInPrefix(xs, n, r[i]);
      FindInPrefix(xs, n, r[j]);
    } else {
      assert r[j] == xs[n] && r[i] == d[i];
      FindInPrefix(xs, n, r[i]);
      assert xs[n] !in xs[..n];
      assert Find(xs, xs[n]) == n;
    }
  }

  /** The index of the first `false` in `bs`, or `|bs|` when there is none. */
  function FirstFalse(bs: seq<bool>): (a: nat)
    ensures a <= |bs|
    ensures forall i :: 0 <= i < a ==> bs[i]
    ensures a < |bs| ==> !bs[a]
  {
    if bs == [] || !bs[0] then 0 else 1 + FirstFalse(bs[1..])
  }

  /** Those properties single the index out. */
  lemma FirstFalseAt(bs: seq<bool>, a: nat)
    requires a <= |bs|
    requires forall i :: 0 <= i < a ==> bs[i]
    requires a < |bs| ==> !bs[a]
    ensures FirstFalse(bs) == a
  {
  }

  /**
   * `phys_island_deep_eq` of `src/structure.c` and `island_deep_eq` of `src/power_api.c`
   * on the cpu arrays: equal length, then equal ids one by one.
   */
  method DeepEq(a: seq<int>, b: seq<int>) returns (eq: bool)
    ensures eq <==> a == b
  {
    if |a| != |b| {
      return false;
    }
    var i := 0;
    while i < |a|
      invariant 0 <= i <= |a|
      invariant a[..i] == b[..i]
    {
      if a[i] != b[i] {
        return false;
      }
      assert a[..i + 1] == a[..i] + [a[i]] && b[..i + 1] == b[..i] + [b[i]];
      i := i + 1;
    }
    assert a == a[..i] && b == b[..i];
    return true;
  }
}

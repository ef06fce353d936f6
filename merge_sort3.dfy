/**
 * `MergeSort`: a three-way merge sort. A range is copied, its three batches of
 * `length / 3` elements are sorted recursively, the first two are merged, and
 * the result is merged with everything from the third batch on back into the
 * range. The elements past `3 * (length / 3)` are never sorted recursively.
 */
module MergeSort3 {
  /** `std::is_sorted`: no element is smaller than the one before it. */
  predicate Sorted(s: seq<int>)
  {
    forall i :: 0 < i < |s| ==> s[i - 1] <= s[i]
  }

  /** `std::merge`: the head of `y` is taken only when it is strictly less than the head of `x`. */
  function Merge(x: seq<int>, y: seq<int>): (r: seq<int>)
    ensures |r| == |x| + |y|
    decreases |x| + |y|
  {
    if x == [] then y
    else if y == [] then x
    else if y[0] < x[0] then [y[0]] + Merge(x, y[1..])
    else [x[0]] + Merge(x[1..], y)
  }

  /** Merging only interleaves: the result is a permutation of both inputs together. */
  lemma {:induction false} MergePermutation(x: seq<int>, y: seq<int>)
    ensures multiset(Merge(x, y)) == multiset(x) + multiset(y)
    decreases |x| + |y|
  {
    if x == [] || y == [] {
    } else if y[0] < x[0] {
      MergePermutation(x, y[1..]);
      assert y == [y[0]] + y[1..];
    } else {
      MergePermutation(x[1..], y);
      assert x == [x[0]] + x[1..];
    }
  }

  /** The batch size for a range of `n` elements. */
  function Batch(n: nat): (b: nat)
    ensures b + b + b <= n < b + b + b + 3
  {
    n / 3
  }

  /** Where batch `i` of size `b` starts: `i * b`. */
  function Start(b: nat, i: nat): (k: nat)
    requires i <= 3
    ensures k == if i == 0 then 0 else if i == 1 then b else if i == 2 then b + b else b + b + b
  {
    if i == 0 then 0 else if i == 1 then b else if i == 2 then b + b else b + b + b
  }

  /** Batch `i` of the range `s`. */
  function Part(s: seq<int>, i: nat): (r: seq<int>)
    requires i < 3
    ensures |r| == Batch(|s|)
  {
    var b := Batch(|s|);
    s[Start(b, i)..Start(b, i + 1)]
  }

  /** The elements after the three batches, which no recursive call sorts. */
  function Tail(s: seq<int>): (r: seq<int>)
    ensures |r| == |s| - (Batch(|s|) + Batch(|s|) + Batch(|s|))
  {
    var b := Batch(|s|);
    s[Start(b, 3)..]
  }

  /** The value `MergeSort` leaves in a range that held `s`. */
  function MergeSort3(s: seq<int>): (r: seq<int>)
    ensures |r| == |s|
    decreases |s|
  {
    if |s| < 2 then s
    else
      var p0, p1, p2 := MergeSort3(Part(s, 0)), MergeSort3(Part(s, 1)), MergeSort3(Part(s, 2));
      Merge(Merge(p0, p1), p2 + Tail(s))
  }

  /** Whatever the length, `MergeSort` only permutes the range. */
  lemma {:induction false} MergeSort3Permutation(s: seq<int>)
    ensures multiset(MergeSort3(s)) == multiset(s)
    decreases |s|
  {
    if |s| >= 2 {
      var p0, p1, p2 := MergeSort3(Part(s, 0)), MergeSort3(Part(s, 1)), MergeSort3(Part(s, 2));
      MergeSort3Permutation(Part(s, 0));
      MergeSort3Permutation(Part(s, 1));
      MergeSort3Permutation(Part(s, 2));
      SplitMultiset(s);
      MergePermutation(p0, p1);
      MergePermutation(Merge(p0, p1), p2 + Tail(s));
    }
  }

  lemma SplitMultiset(s: seq<int>)
    ensures multiset(s) == multiset(Part(s, 0)) + multiset(Part(s, 1)) + multiset(Part(s, 2)) + multiset(Tail(s))
  {
    assert s == Part(s, 0) + Part(s, 1) + Part(s, 2) + Tail(s);
  }

  lemma {:induction false} MergeSorted(x: seq<int>, y: seq<int>)
    requires Sorted(x) && Sorted(y)
    ensures Sorted(Merge(x, y))
    ensures |Merge(x, y)| > 0 ==> ((x != [] && Merge(x, y)[0] == x[0]) || (y != [] && Merge(x, y)[0] == y[0]))
    decreases |x| + |y|
  {
    if x == [] || y == [] {
    } else if y[0] < x[0] {
      MergeSorted(x, y[1..]);
      ConsSorted(y[0], Merge(x, y[1..]));
    } else {
      MergeSorted(x[1..], y);
      ConsSorted(x[0], Merge(x[1..], y));
    }
  }

  lemma ConsSorted(h: int, m: seq<int>)
    requires Sorted(m) && (m != [] ==> h <= m[0])
    ensures Sorted([h] + m)
  {
    var r := [h] + m;
    forall i | 0 < i < |r| ensures r[i - 1] <= r[i] {
      if i > 1 {
        assert r[i - 1] == m[i - 2] && r[i] == m[i - 1];
      }
    }
  }

  predicate PowerOf3(n: nat)
    decreases n
  {
    n == 1 || (n >= 3 && n % 3 == 0 && PowerOf3(n / 3))
  }

  /** On a range whose length is a power of 3 (or below 2), `MergeSort` sorts. */
  lemma {:induction false} SortsPowerOf3(s: seq<int>)
    requires |s| < 2 || PowerOf3(|s|)
    ensures Sorted(MergeSort3(s))
    decreases |s|
  {
    if |s| >= 2 {
      var b := Batch(|s|);
      assert b + b + b == |s| && (b < 2 || PowerOf3(b));
      SortsPowerOf3(Part(s, 0));
      SortsPowerOf3(Part(s, 1));
      SortsPowerOf3(Part(s, 2));
      var p0, p1, p2 := MergeSort3(Part(s, 0)), MergeSort3(Part(s, 1)), MergeSort3(Part(s, 2));
      assert Tail(s) == [];
      assert p2 + Tail(s) == p2;
      MergeSorted(p0, p1);
      MergeSorted(Merge(p0, p1), p2);
    }
  }

  /** Two elements form two empty batches, so the range is merged back unchanged. */
  lemma PairIsNotSorted()
    ensures MergeSort3([2, 1]) == [2, 1] && !Sorted(MergeSort3([2, 1]))
  {
    var s := [2, 1];
    UnfoldMergeSort3(s);
    assert Batch(|s|) == 0;
    assert Part(s, 0) == [] && Part(s, 1) == [] && Part(s, 2) == [] && Tail(s) == s;
    assert MergeSort3([]) == [];
    assert Merge([], []) == [];
    assert Merge([], [] + s) == s;
    assert MergeSort3(Part(s, 0)) == [] && MergeSort3(Part(s, 2)) + Tail(s) == s;
    assert MergeSort3(s) == s;
    assert !Sorted(s) by { assert s[0] > s[1]; }
  }

  /** With four elements the last one is merged in without being sorted with its batch. */
  lemma TailIsNotSorted()
    ensures MergeSort3([1, 2, 4, 3]) == [1, 2, 4, 3]
  {
    var s := [1, 2, 4, 3];
    UnfoldMergeSort3(s);
    assert Batch(|s|) == 1;
    assert Part(s, 0) == [1] && Part(s, 1) == [2] && Part(s, 2) == [4] && Tail(s) == [3];
    assert MergeSort3([1]) == [1] && MergeSort3([2]) == [2] && MergeSort3([4]) == [4];
    MergeTakesFirst([1], [2]);
    assert Merge([1], [2]) == [1, 2];
    MergeTakesFirst([1, 2], [4, 3]);
    MergeTakesFirst([2], [4, 3]);
    assert Merge([1, 2], [4, 3]) == [1, 2, 4, 3];
    assert Merge(MergeSort3(Part(s, 0)), MergeSort3(Part(s, 1))) == [1, 2];
    assert MergeSort3(Part(s, 2)) + Tail(s) == [4, 3];
  }

  lemma MergeTakesFirst(x: seq<int>, y: seq<int>)
    requires x != [] && (y == [] || !(y[0] < x[0]))
    ensures Merge(x, y) == [x[0]] + Merge(x[1..], y)
  {
  }

  /** `TestIntVector`: the nine-element vector comes out sorted. */
  lemma TestIntVector()
    ensures Sorted(MergeSort3([6, 1, 3, 9, 1, 9, 8, 12, 1]))
  {
    assert PowerOf3(9) by { assert PowerOf3(3); }
    SortsPowerOf3([6, 1, 3, 9, 1, 9, 8, 12, 1]);
  }

  /** `std::merge` of `x[xlo..xhi]` and `y[ylo..yhi]` into `dst` from `dlo` on. */
  method MergeInto(x: array<int>, xlo: nat, xhi: nat, y: array<int>, ylo: nat, yhi: nat, dst: array<int>, dlo: nat, end: nat)
    requires xlo <= xhi <= x.Length && ylo <= yhi <= y.Length
    requires end == dlo + (xhi - xlo) + (yhi - ylo) <= dst.Length
    requires dst != x && dst != y
    modifies dst
    ensures dst[..dlo] == old(dst[..dlo])
    ensures dst[dlo..end] == Merge(old(x[xlo..xhi]), old(y[ylo..yhi]))
    ensures dst[end..] == old(dst[end..])
  {
    ghost var whole := Merge(x[xlo..xhi], y[ylo..yhi]);
    ghost var xr, yr := x[xlo..xhi], y[ylo..yhi];
    ghost var done: seq<int> := [];
    var i, j, k := xlo, ylo, dlo;
    while i < xhi || j < yhi
      invariant xlo <= i <= xhi && ylo <= j <= yhi && k == dlo + (i - xlo) + (j - ylo)
      invariant xr == x[i..xhi] && yr == y[j..yhi]
      invariant forall m :: 0 <= m < dlo || end <= m < dst.Length ==> dst[m] == old(dst[m])
      invariant |done| == k - dlo && forall m :: dlo <= m < k ==> dst[m] == done[m - dlo]
      invariant done + Merge(xr, yr) == whole
      decreases (xhi - i) + (yhi - j)
    {
      var v;
      if i < xhi && (j == yhi || !(y[j] < x[i])) {
        TakeFirst(done, xr, yr, whole);
        v, xr := x[i], xr[1..];
        i := i + 1;
      } else {
        TakeSecond(done, xr, yr, whole);
        v, yr := y[j], yr[1..];
        j := j + 1;
      }
      dst[k] := v;
      done := done + [v];
      k := k + 1;
    }
    assert dst[dlo..end] == done;
    assert dst[..dlo] == old(dst[..dlo]);
    assert dst[end..] == old(dst[end..]);
  }

  lemma TakeFirst(done: seq<int>, xr: seq<int>, yr: seq<int>, whole: seq<int>)
    requires xr != [] && (yr == [] || !(yr[0] < xr[0])) && done + Merge(xr, yr) == whole
    ensures (done + [xr[0]]) + Merge(xr[1..], yr) == whole
  {
    assert Merge(xr, yr) == [xr[0]] + Merge(xr[1..], yr);
  }

  lemma TakeSecond(done: seq<int>, xr: seq<int>, yr: seq<int>, whole: seq<int>)
    requires yr != [] && (xr == [] || yr[0] < xr[0]) && done + Merge(xr, yr) == whole
    ensures (done + [yr[0]]) + Merge(xr, yr[1..]) == whole
  {
    assert Merge(xr, yr) == [yr[0]] + Merge(xr, yr[1..]);
  }

  /** `MergeSort(range_begin, range_end)` on `a[lo..hi]`. */
  method MergeSort(a: array<int>, lo: nat, hi: nat)
    requires lo <= hi <= a.Length
    modifies a
    ensures a[..lo] == old(a[..lo]) && a[hi..] == old(a[hi..])
    ensures a[lo..hi] == MergeSort3(old(a[lo..hi]))
    decreases hi - lo, 1
  {
    var length := hi - lo;
    if length < 2 {
      return;
    }
    ghost var s := a[lo..hi];
    var elems := CopyRange(a, lo, hi);
    var b := length / 3;
    SortBatches(elems, b);
    MergeBatches(elems, b, a, lo);
    AfterAllBatches(s, elems[..], b, a[lo..hi]);
  }

  /** The vector `elems` built from `[range_begin, range_end)`. */
  method CopyRange(a: array<int>, lo: nat, hi: nat) returns (elems: array<int>)
    requires lo <= hi <= a.Length
    ensures fresh(elems) && elems[..] == a[lo..hi]
  {
    elems := new int[hi - lo](k requires 0 <= k < hi - lo reads a => a[lo + k]);
  }

  /** The loop that sorts the three batches of the copy `elems` one after the other. */
  method SortBatches(elems: array<int>, b: nat)
    requires 2 <= elems.Length && b == Batch(elems.Length)
    modifies elems
    ensures var s := old(elems[..]);
      elems[..b] == MergeSort3(Part(s, 0)) && elems[b..b + b] == MergeSort3(Part(s, 1)) &&
      elems[b + b..] == MergeSort3(Part(s, 2)) + Tail(s)
    decreases elems.Length, 0
  {
    ghost var s := elems[..];
    for i := 0 to 3
      modifies elems
      invariant |s| == elems.Length && BatchesDone(elems[..], s, b, i)
    {
      ghost var before := elems[..];
      MergeSort(elems, Start(b, i), Start(b, i + 1));
      BatchStep(s, b, i, before, elems[..]);
    }
    Regroup(s, elems[..], b);
  }

  /** The first `i` batches of `e` are those of `s` sorted, and from batch `i` on `e` is still `s`. */
  ghost predicate BatchesDone(e: seq<int>, s: seq<int>, b: nat, i: nat)
  {
    |e| == |s| && 2 <= |s| && b == Batch(|s|) && i <= 3 &&
    (forall k :: 0 <= k < i ==> e[Start(b, k)..Start(b, k + 1)] == MergeSort3(Part(s, k))) &&
    e[Start(b, i)..] == s[Start(b, i)..]
  }

  /** Sorting batch `i` in place keeps the batches before it and the rest after it. */
  lemma BatchStep(s: seq<int>, b: nat, i: nat, before: seq<int>, after: seq<int>)
    requires BatchesDone(before, s, b, i) && i < 3 && |after| == |before|
    requires after[..Start(b, i)] == before[..Start(b, i)] && after[Start(b, i + 1)..] == before[Start(b, i + 1)..]
    requires after[Start(b, i)..Start(b, i + 1)] == MergeSort3(before[Start(b, i)..Start(b, i + 1)])
    ensures BatchesDone(after, s, b, i + 1)
  {
    var lo, hi := Start(b, i), Start(b, i + 1);
    SliceOfSuffix(before, s, lo, lo, hi);
    assert before[lo..hi] == Part(s, i);
    forall k | 0 <= k < i
      ensures after[Start(b, k)..Start(b, k + 1)] == MergeSort3(Part(s, k))
    {
      SliceOfPrefix(after, before, lo, Start(b, k), Start(b, k + 1));
    }
    SliceOfSuffix(after, before, hi, hi, |s|);
    SliceOfSuffix(before, s, lo, hi, |s|);
    assert after[hi..] == after[hi..|s|] && s[hi..] == s[hi..|s|];
  }

  /** The two `std::merge` calls: the first two batches into `tmp`, then `tmp` and the rest into `a[lo..]`. */
  method MergeBatches(elems: array<int>, b: nat, a: array<int>, lo: nat)
    requires b + b <= elems.Length && lo + elems.Length <= a.Length && a != elems
    modifies a
    ensures a[..lo] == old(a[..lo]) && a[lo + elems.Length..] == old(a[lo + elems.Length..])
    ensures a[lo..lo + elems.Length] == Merge(Merge(elems[..b], elems[b..b + b]), elems[b + b..])
  {
    var tmp := new int[b + b];
    assert elems[..b] == elems[0..b];
    MergeInto(elems, 0, b, elems, b, b + b, tmp, 0, b + b);
    assert elems[b + b..] == elems[b + b..elems.Length];
    MergeInto(tmp, 0, b + b, elems, b + b, elems.Length, a, lo, lo + elems.Length);
  }

  lemma SliceOfPrefix(x: seq<int>, y: seq<int>, n: nat, p: nat, q: nat)
    requires n <= |x| && n <= |y| && x[..n] == y[..n] && p <= q <= n
    ensures x[p..q] == y[p..q]
  {
    forall j | p <= j < q ensures x[j] == y[j] {
      assert x[j] == x[..n][j] && y[j] == y[..n][j];
    }
  }

  lemma SliceOfSuffix(x: seq<int>, y: seq<int>, n: nat, p: nat, q: nat)
    requires |x| == |y| && n <= p <= q <= |x| && x[n..] == y[n..]
    ensures x[p..q] == y[p..q]
  {
    forall j | p <= j < q ensures x[j] == y[j] {
      assert x[j] == x[n..][j - n] && y[j] == y[n..][j - n];
    }
  }

  /** The two merges over the sorted batches and the tail give `MergeSort3(s)`. */
  lemma AfterAllBatches(s: seq<int>, e: seq<int>, b: nat, m: seq<int>)
    requires 2 <= |s| && |e| == |s| && b == Batch(|s|)
    requires e[..b] == MergeSort3(Part(s, 0)) && e[b..b + b] == MergeSort3(Part(s, 1))
    requires e[b + b..] == MergeSort3(Part(s, 2)) + Tail(s)
    requires m == Merge(Merge(e[..b], e[b..b + b]), e[b + b..])
    ensures m == MergeSort3(s)
  {
    UnfoldMergeSort3(s);
  }

  /** The batches as the loop leaves them, regrouped as the merges read them. */
  lemma Regroup(s: seq<int>, e: seq<int>, b: nat)
    requires BatchesDone(e, s, b, 3)
    ensures e[..b] == MergeSort3(Part(s, 0)) && e[b..b + b] == MergeSort3(Part(s, 1))
    ensures e[b + b..] == MergeSort3(Part(s, 2)) + Tail(s)
  {
    RegroupFirst(s, e, b);
    RegroupLast(s, e, b);
  }

  lemma RegroupFirst(s: seq<int>, e: seq<int>, b: nat)
    requires BatchesDone(e, s, b, 3)
    ensures e[..b] == MergeSort3(Part(s, 0)) && e[b..b + b] == MergeSort3(Part(s, 1))
  {
    assert e[Start(b, 0)..Start(b, 1)] == MergeSort3(Part(s, 0));
    assert e[Start(b, 1)..Start(b, 2)] == MergeSort3(Part(s, 1));
    assert e[..b] == e[0..b];
  }

  lemma RegroupLast(s: seq<int>, e: seq<int>, b: nat)
    requires BatchesDone(e, s, b, 3)
    ensures e[b + b..] == MergeSort3(Part(s, 2)) + Tail(s)
  {
    var last := e[Start(b, 2)..Start(b, 3)];
    assert last == MergeSort3(Part(s, 2));
    assert e[Start(b, 3)..] == Tail(s);
    SplitAt(e, b + b, b + b + b);
  }

  lemma SplitAt(e: seq<int>, i: nat, j: nat)
    requires i <= j <= |e|
    ensures e[i..] == e[i..j] + e[j..]
  {
  }

  lemma UnfoldMergeSort3(s: seq<int>)
    requires |s| >= 2
    ensures MergeSort3(s) == Merge(Merge(MergeSort3(Part(s, 0)), MergeSort3(Part(s, 1))), MergeSort3(Part(s, 2)) + Tail(s))
  {
  }
}

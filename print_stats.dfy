/**
 * Demographic statistics: the median age of a group of persons, and the seven
 * groups `PrintStats` reports on, found by partitioning the persons by gender
 * and then, within each gender, by employment.
 */
module PrintStats {
  datatype Gender = FEMALE | MALE

  datatype Person = Person(age: int, gender: Gender, isEmployed: bool)

  // Sequences of persons by a test, and their ages.

  function Filter<T>(s: seq<T>, p: T -> bool): (r: seq<T>)
    ensures |r| <= |s|
    ensures forall i :: 0 <= i < |r| ==> p(r[i])
  {
    if s == [] then []
    else if p(s[0]) then [s[0]] + Filter(s[1..], p)
    else Filter(s[1..], p)
  }

  lemma {:induction false} FilterAppend<T>(a: seq<T>, b: seq<T>, p: T -> bool)
    ensures Filter(a + b, p) == Filter(a, p) + Filter(b, p)
  {
    if a == [] {
      assert a + b == b;
    } else {
      assert (a + b)[0] == a[0] && (a + b)[1..] == a[1..] + b;
      FilterAppend(a[1..], b, p);
    }
  }

  /** A sequence of which every element passes keeps all of them. */
  lemma {:induction false} FilterEvery<T>(s: seq<T>, p: T -> bool)
    requires forall i :: 0 <= i < |s| ==> p(s[i])
    ensures Filter(s, p) == s
  {
    if s != [] {
      FilterEvery(s[1..], p);
    }
  }

  /** A sequence of which no element passes keeps none. */
  lemma {:induction false} FilterNone<T>(s: seq<T>, p: T -> bool)
    requires forall i :: 0 <= i < |s| ==> !p(s[i])
    ensures Filter(s, p) == []
  {
    if s != [] {
      FilterNone(s[1..], p);
    }
  }

  /** `s` without its element at `j`. */
  function Without<T>(s: seq<T>, j: nat): seq<T>
    requires j < |s|
  {
    s[..j] + s[j + 1..]
  }

  lemma Around<T>(s: seq<T>, j: nat)
    requires j < |s|
    ensures s == s[..j] + ([s[j]] + s[j + 1..])
  {
  }

  lemma WithoutMultiset<T>(s: seq<T>, j: nat)
    requires j < |s|
    ensures multiset(Without(s, j)) == multiset(s) - multiset{s[j]}
  {
    assert s == s[..j] + [s[j]] + s[j + 1..];
  }

  lemma FilterAround<T>(b: seq<T>, j: nat, p: T -> bool)
    requires j < |b|
    ensures multiset(Filter(b, p)) == multiset(Filter([b[j]], p)) + multiset(Filter(Without(b, j), p))
  {
    Around(b, j);
    FilterAppend(b[..j], [b[j]] + b[j + 1..], p);
    FilterAppend([b[j]], b[j + 1..], p);
    FilterAppend(b[..j], b[j + 1..], p);
  }

  /** The filtered elements depend only on the multiset of the elements. */
  lemma {:induction false} FilterPermutation<T>(a: seq<T>, b: seq<T>, p: T -> bool)
    requires multiset(a) == multiset(b)
    ensures multiset(Filter(a, p)) == multiset(Filter(b, p))
    decreases |a|
  {
    if a != [] {
      assert a[0] in multiset(b);
      var j :| 0 <= j < |b| && b[j] == a[0];
      WithoutMultiset(b, j);
      assert a == [a[0]] + a[1..];
      FilterPermutation(a[1..], Without(b, j), p);
      FilterAppend([a[0]], a[1..], p);
      FilterAround(b, j, p);
    }
  }

  function Ages(s: seq<Person>): (r: seq<int>)
    ensures |r| == |s|
  {
    if s == [] then [] else [s[0].age] + Ages(s[1..])
  }

  lemma {:induction false} AgesAppend(a: seq<Person>, b: seq<Person>)
    ensures Ages(a + b) == Ages(a) + Ages(b)
  {
    if a == [] {
      assert a + b == b;
    } else {
      assert (a + b)[0] == a[0] && (a + b)[1..] == a[1..] + b;
      AgesAppend(a[1..], b);
    }
  }

  lemma {:induction false} AgesIndex(s: seq<Person>)
    ensures forall i :: 0 <= i < |s| ==> Ages(s)[i] == s[i].age
  {
    if s != [] {
      AgesIndex(s[1..]);
    }
  }

  lemma AgesAround(b: seq<Person>, j: nat)
    requires j < |b|
    ensures multiset(Ages(b)) == multiset(Ages([b[j]])) + multiset(Ages(Without(b, j)))
  {
    Around(b, j);
    AgesAppend(b[..j], [b[j]] + b[j + 1..]);
    AgesAppend([b[j]], b[j + 1..]);
    AgesAppend(b[..j], b[j + 1..]);
  }

  /** The ages depend only on the multiset of the persons. */
  lemma {:induction false} AgesPermutation(a: seq<Person>, b: seq<Person>)
    requires multiset(a) == multiset(b)
    ensures multiset(Ages(a)) == multiset(Ages(b))
    decreases |a|
  {
    if a != [] {
      assert a[0] in multiset(b);
      var j :| 0 <= j < |b| && b[j] == a[0];
      WithoutMultiset(b, j);
      assert a == [a[0]] + a[1..];
      AgesPermutation(a[1..], Without(b, j));
      AgesAppend([a[0]], a[1..]);
      AgesAround(b, j);
    }
  }

  // Ages in ascending order.

  ghost predicate Ascending(s: seq<int>)
  {
    forall i, j :: 0 <= i < j < |s| ==> s[i] <= s[j]
  }

  function InsertAge(x: int, s: seq<int>): (r: seq<int>)
    ensures multiset(r) == multiset(s) + multiset{x} && |r| == |s| + 1
  {
    if s == [] then [x]
    else if s[0] < x then
      assert s == [s[0]] + s[1..];
      [s[0]] + InsertAge(x, s[1..])
    else [x] + s
  }

  lemma {:induction false} InsertAscending(x: int, s: seq<int>)
    requires Ascending(s)
    ensures Ascending(InsertAge(x, s))
  {
    if s == [] {
    } else if s[0] < x {
      AscendingTail(s);
      InsertAscending(x, s[1..]);
      InsertAbove(x, s[1..], s[0]);
      ConsAscending(s[0], InsertAge(x, s[1..]));
    } else {
      ConsAscending(x, s);
    }
  }

  /** A lower bound of `x` and of `s` bounds what inserting `x` gives. */
  lemma {:induction false} InsertAbove(x: int, s: seq<int>, b: int)
    requires b <= x && forall i :: 0 <= i < |s| ==> b <= s[i]
    ensures forall i :: 0 <= i < |InsertAge(x, s)| ==> b <= InsertAge(x, s)[i]
  {
    if s != [] && s[0] < x {
      InsertAbove(x, s[1..], b);
    }
  }

  lemma AscendingTail(s: seq<int>)
    requires Ascending(s) && s != []
    ensures Ascending(s[1..]) && forall i :: 0 <= i < |s| ==> s[0] <= s[i]
  {
  }

  lemma ConsAscending(a: int, t: seq<int>)
    requires Ascending(t) && forall i :: 0 <= i < |t| ==> a <= t[i]
    ensures Ascending([a] + t)
  {
  }

  function SortAges(s: seq<int>): (r: seq<int>)
    ensures multiset(r) == multiset(s) && |r| == |s|
  {
    if s == [] then []
    else
      assert s == [s[0]] + s[1..];
      InsertAge(s[0], SortAges(s[1..]))
  }

  lemma {:induction false} SortAscending(s: seq<int>)
    ensures Ascending(SortAges(s))
  {
    if s != [] {
      SortAscending(s[1..]);
      InsertAscending(s[0], SortAges(s[1..]));
    }
  }

  /** Two ascending orders of the same ages are the same sequence. */
  lemma {:induction false} AscendingUnique(a: seq<int>, b: seq<int>)
    requires Ascending(a) && Ascending(b) && multiset(a) == multiset(b)
    ensures a == b
    decreases |a|
  {
    if a == [] {
      assert |b| == |multiset(b)| == 0;
    } else {
      assert |b| == |multiset(b)| == |a|;
      AscendingFirst(a, b[0]);
      AscendingFirst(b, a[0]);
      AscendingTail(a);
      AscendingTail(b);
      assert a[0] == b[0];
      assert a == [a[0]] + a[1..] && b == [b[0]] + b[1..];
      assert multiset(a[1..]) == multiset(a) - multiset{a[0]};
      assert multiset(b[1..]) == multiset(b) - multiset{b[0]};
      AscendingUnique(a[1..], b[1..]);
    }
  }

  /** The first of an ascending sequence is its least element. */
  lemma AscendingFirst(s: seq<int>, x: int)
    requires Ascending(s) && x in multiset(s)
    ensures s != [] && s[0] <= x
  {
    var i :| 0 <= i < |s| && s[i] == x;
  }

  // The median.

  /** `ComputeMedianAge`: 0 for no persons, else the age at index `n / 2` once sorted by age. */
  function MedianAge(s: seq<Person>): int
  {
    if s == [] then 0 else SortAges(Ages(s))[|s| / 2]
  }

  /** How many of `s` are below `v`, and how many at most `v`. */
  function CountBelow(s: seq<int>, v: int): nat
  {
    if s == [] then 0 else (if s[0] < v then 1 else 0) + CountBelow(s[1..], v)
  }

  function CountAtMost(s: seq<int>, v: int): nat
  {
    if s == [] then 0 else (if s[0] <= v then 1 else 0) + CountAtMost(s[1..], v)
  }

  lemma {:induction false} CountsAppend(a: seq<int>, b: seq<int>, v: int)
    ensures CountBelow(a + b, v) == CountBelow(a, v) + CountBelow(b, v)
    ensures CountAtMost(a + b, v) == CountAtMost(a, v) + CountAtMost(b, v)
  {
    if a == [] {
      assert a + b == b;
    } else {
      assert (a + b)[0] == a[0] && (a + b)[1..] == a[1..] + b;
      CountsAppend(a[1..], b, v);
    }
  }

  lemma {:induction false} CountsInsert(x: int, s: seq<int>, v: int)
    ensures CountBelow(InsertAge(x, s), v) == CountBelow(s, v) + (if x < v then 1 else 0)
    ensures CountAtMost(InsertAge(x, s), v) == CountAtMost(s, v) + (if x <= v then 1 else 0)
  {
    if s != [] && s[0] < x {
      CountsInsert(x, s[1..], v);
    }
  }

  lemma {:induction false} CountsSort(s: seq<int>, v: int)
    ensures CountBelow(SortAges(s), v) == CountBelow(s, v)
    ensures CountAtMost(SortAges(s), v) == CountAtMost(s, v)
  {
    if s != [] {
      CountsSort(s[1..], v);
      CountsInsert(s[0], SortAges(s[1..]), v);
    }
  }

  /** Only the first `k` can lie below `v` when none after them do. */
  lemma {:induction false} FewBelow(s: seq<int>, k: nat, v: int)
    requires k <= |s| && forall i :: k <= i < |s| ==> s[i] >= v
    ensures CountBelow(s, v) <= k
  {
    if s != [] {
      FewBelow(s[1..], if k == 0 then 0 else k - 1, v);
    }
  }

  /** All of the first `k` lie below `v`. */
  lemma {:induction false} ManyBelow(s: seq<int>, k: nat, v: int)
    requires k <= |s| && forall i :: 0 <= i < k ==> s[i] < v
    ensures CountBelow(s, v) >= k
  {
    if k > 0 {
      ManyBelow(s[1..], k - 1, v);
    }
  }

  /** Only the first `k` can lie at or below `v` when none after them do. */
  lemma {:induction false} FewAtMost(s: seq<int>, k: nat, v: int)
    requires k <= |s| && forall i :: k <= i < |s| ==> s[i] > v
    ensures CountAtMost(s, v) <= k
  {
    if s != [] {
      FewAtMost(s[1..], if k == 0 then 0 else k - 1, v);
    }
  }

  /** All of the first `k` lie at or below `v`. */
  lemma {:induction false} ManyAtMost(s: seq<int>, k: nat, v: int)
    requires k <= |s| && forall i :: 0 <= i < k ==> s[i] <= v
    ensures CountAtMost(s, v) >= k
  {
    if k > 0 {
      ManyAtMost(s[1..], k - 1, v);
    }
  }

  /** In ascending order, fewer than `k + 1` values lie below `s[k]` and more than `k` at or below it. */
  lemma AscendingCounts(s: seq<int>, k: nat)
    requires Ascending(s) && k < |s|
    ensures CountBelow(s, s[k]) <= k < CountAtMost(s, s[k])
  {
    FewBelow(s, k, s[k]);
    ManyAtMost(s, k + 1, s[k]);
  }

  /**
   * The median is what `nth_element` places at the middle: at most half of
   * the ages lie below it, and more than half lie at or below it.
   */
  lemma MedianIsOrderStatistic(s: seq<Person>)
    requires s != []
    ensures CountBelow(Ages(s), MedianAge(s)) <= |s| / 2 < CountAtMost(Ages(s), MedianAge(s))
    ensures MedianAge(s) in Ages(s)
  {
    var sorted := SortAges(Ages(s));
    SortAscending(Ages(s));
    AscendingCounts(sorted, |s| / 2);
    CountsSort(Ages(s), sorted[|s| / 2]);
    assert sorted[|s| / 2] in multiset(sorted);
  }

  /** In ascending order only `s[k]` has at most `k` values below it and more than `k` at or below it. */
  lemma OrderStatisticUnique(s: seq<int>, k: nat, v: int)
    requires Ascending(s) && k < |s|
    requires CountBelow(s, v) <= k < CountAtMost(s, v)
    ensures v == s[k]
  {
    if v < s[k] {
      FewAtMost(s, k, v);
    } else if v > s[k] {
      ManyBelow(s, k + 1, v);
    }
  }

  /**
   * What `nth_element` promises about the middle position characterises the
   * median: `v` is the median exactly when at most half of the ages lie
   * below `v` and more than half lie at or below it.
   */
  lemma MedianCharacterised(s: seq<Person>, v: int)
    requires s != []
    ensures v == MedianAge(s) <==> CountBelow(Ages(s), v) <= |s| / 2 < CountAtMost(Ages(s), v)
  {
    MedianIsOrderStatistic(s);
    if CountBelow(Ages(s), v) <= |s| / 2 < CountAtMost(Ages(s), v) {
      var sorted := SortAges(Ages(s));
      SortAscending(Ages(s));
      CountsSort(Ages(s), v);
      OrderStatisticUnique(sorted, |s| / 2, v);
    }
  }

  /** The median depends only on the multiset of the persons. */
  lemma MedianPermutation(a: seq<Person>, b: seq<Person>)
    requires multiset(a) == multiset(b)
    ensures MedianAge(a) == MedianAge(b)
  {
    AgesPermutation(a, b);
    SortAscending(Ages(a));
    SortAscending(Ages(b));
    AscendingUnique(SortAges(Ages(a)), SortAges(Ages(b)));
    assert |a| == |multiset(a)| == |b|;
  }

  // Partitioning in place.

  function IsFemale(p: Person): bool { p.gender == FEMALE }

  function IsMale(p: Person): bool { p.gender == MALE }

  function IsEmployed(p: Person): bool { p.isEmployed }

  function IsUnemployed(p: Person): bool { !p.isEmployed }

  /** `partition(first, last, p)` on `a[lo..hi]`: the passing elements first; returns where the others start. */
  method Partition(a: array<Person>, lo: nat, hi: nat, p: Person -> bool) returns (mid: nat)
    requires lo <= hi <= a.Length
    modifies a
    ensures lo <= mid <= hi
    ensures forall i :: lo <= i < mid ==> p(a[i])
    ensures forall i :: mid <= i < hi ==> !p(a[i])
    ensures multiset(a[lo..hi]) == multiset(old(a[lo..hi]))
    ensures a[..lo] == old(a[..lo]) && a[hi..] == old(a[hi..])
  {
    mid := lo;
    for i := lo to hi
      invariant lo <= mid <= i
      invariant forall k :: lo <= k < mid ==> p(a[k])
      invariant forall k :: mid <= k < i ==> !p(a[k])
      invariant multiset(a[lo..hi]) == multiset(old(a[lo..hi]))
      invariant a[..lo] == old(a[..lo]) && a[hi..] == old(a[hi..])
    {
      if p(a[i]) {
        ghost var before := a[..];
        a[mid], a[i] := a[i], a[mid];
        SwapMultiset(before, a[..], lo, hi, mid, i);
        mid := mid + 1;
      }
    }
  }

  /** Exchanging two elements inside a segment keeps the segment's multiset and everything outside. */
  lemma SwapMultiset(s: seq<Person>, t: seq<Person>, lo: nat, hi: nat, i: nat, j: nat)
    requires lo <= i <= j < hi <= |s| && |t| == |s|
    requires t == s[i := s[j]][j := s[i]]
    ensures multiset(t[lo..hi]) == multiset(s[lo..hi])
    ensures t[..lo] == s[..lo] && t[hi..] == s[hi..]
  {
    assert t[lo..hi] == s[lo..hi][i - lo := s[j]][j - lo := s[i]];
  }

  // The seven groups.

  function IsEmployedFemale(p: Person): bool { IsFemale(p) && IsEmployed(p) }

  function IsUnemployedFemale(p: Person): bool { IsFemale(p) && IsUnemployed(p) }

  function IsEmployedMale(p: Person): bool { IsMale(p) && IsEmployed(p) }

  function IsUnemployedMale(p: Person): bool { IsMale(p) && IsUnemployed(p) }

  /** The median ages `PrintStats` reports, in its order, by what each group is. */
  function Report(persons: seq<Person>): (r: seq<int>)
    ensures |r| == 7
  {
    [MedianAge(persons),
     MedianAge(Filter(persons, IsFemale)),
     MedianAge(Filter(persons, IsMale)),
     MedianAge(Filter(persons, IsEmployedFemale)),
     MedianAge(Filter(persons, IsUnemployedFemale)),
     MedianAge(Filter(persons, IsEmployedMale)),
     MedianAge(Filter(persons, IsUnemployedMale))]
  }

  /**
   * A rearrangement of `persons` in which exactly the segment `[lo, hi)`
   * passes `p` has there the persons of `persons` that pass `p`, so the
   * same median.
   */
  lemma SegmentMedian(arranged: seq<Person>, persons: seq<Person>, lo: nat, hi: nat, p: Person -> bool)
    requires multiset(arranged) == multiset(persons)
    requires lo <= hi <= |arranged|
    requires forall i :: lo <= i < hi ==> p(arranged[i])
    requires forall i :: 0 <= i < |arranged| && !(lo <= i < hi) ==> !p(arranged[i])
    ensures MedianAge(arranged[lo..hi]) == MedianAge(Filter(persons, p))
  {
    FilterSegment(arranged, lo, hi, p);
    FilterPermutation(arranged, persons, p);
    MedianPermutation(arranged[lo..hi], Filter(persons, p));
  }

  /** When exactly the segment `[lo, hi)` passes `p`, the filter keeps that segment. */
  lemma FilterSegment<T>(s: seq<T>, lo: nat, hi: nat, p: T -> bool)
    requires lo <= hi <= |s|
    requires forall i :: lo <= i < hi ==> p(s[i])
    requires forall i :: 0 <= i < |s| && !(lo <= i < hi) ==> !p(s[i])
    ensures Filter(s, p) == s[lo..hi]
  {
    Split3(s, lo, hi);
    FilterAppend(s[..lo], s[lo..hi] + s[hi..], p);
    FilterAppend(s[lo..hi], s[hi..], p);
    FilterOutside(s, lo, hi, p);
    FilterInside(s, lo, hi, p);
  }

  lemma FilterOutside<T>(s: seq<T>, lo: nat, hi: nat, p: T -> bool)
    requires lo <= hi <= |s|
    requires forall i :: 0 <= i < |s| && !(lo <= i < hi) ==> !p(s[i])
    ensures Filter(s[..lo], p) == [] && Filter(s[hi..], p) == []
  {
    var before, after := s[..lo], s[hi..];
    assert forall i :: 0 <= i < |before| ==> before[i] == s[i];
    FilterNone(before, p);
    assert forall i :: 0 <= i < |after| ==> after[i] == s[hi + i];
    FilterNone(after, p);
  }

  lemma FilterInside<T>(s: seq<T>, lo: nat, hi: nat, p: T -> bool)
    requires lo <= hi <= |s|
    requires forall i :: lo <= i < hi ==> p(s[i])
    ensures Filter(s[lo..hi], p) == s[lo..hi]
  {
    var inside := s[lo..hi];
    assert forall i :: 0 <= i < |inside| ==> inside[i] == s[lo + i];
    FilterEvery(inside, p);
  }

  lemma Split3<T>(s: seq<T>, lo: nat, hi: nat)
    requires lo <= hi <= |s|
    ensures s == s[..lo] + (s[lo..hi] + s[hi..])
  {
  }

  /**
   * `PrintStats`: partitions a copy of the persons into females then males,
   * each gender employed first, and returns the seven median ages it prints
   * (all, females, males, employed and unemployed females, employed and
   * unemployed males).
   */
  method ComputeStats(persons: seq<Person>) returns (stats: seq<int>)
    ensures stats == Report(persons)
  {
    var arranged, femaleEnd, employedFemaleEnd, employedMaleEnd := Arrange(persons);
    GenderMedians(persons, arranged, femaleEnd);
    FemaleMedians(persons, arranged, femaleEnd, employedFemaleEnd);
    MaleMedians(persons, arranged, femaleEnd, employedMaleEnd);
    stats := [MedianAge(arranged),
              MedianAge(arranged[..femaleEnd]),
              MedianAge(arranged[femaleEnd..]),
              MedianAge(arranged[..employedFemaleEnd]),
              MedianAge(arranged[employedFemaleEnd..femaleEnd]),
              MedianAge(arranged[femaleEnd..employedMaleEnd]),
              MedianAge(arranged[employedMaleEnd..])];
  }

  /**
   * The three partitions of `PrintStats` on a copy of the persons: females
   * employed, females unemployed, males employed, males unemployed.
   */
  method Arrange(persons: seq<Person>) returns (arranged: seq<Person>, femaleEnd: nat, employedFemaleEnd: nat, employedMaleEnd: nat)
    ensures multiset(arranged) == multiset(persons)
    ensures employedFemaleEnd <= femaleEnd <= employedMaleEnd <= |arranged|
    ensures forall i :: 0 <= i < femaleEnd ==> IsFemale(arranged[i])
    ensures forall i :: femaleEnd <= i < |arranged| ==> IsMale(arranged[i])
    ensures forall i :: 0 <= i < employedFemaleEnd ==> IsEmployed(arranged[i])
    ensures forall i :: employedFemaleEnd <= i < femaleEnd ==> !IsEmployed(arranged[i])
    ensures forall i :: femaleEnd <= i < employedMaleEnd ==> IsEmployed(arranged[i])
    ensures forall i :: employedMaleEnd <= i < |arranged| ==> !IsEmployed(arranged[i])
  {
    var a := new Person[|persons|](i requires 0 <= i < |persons| => persons[i]);
    assert a[0..a.Length] == a[..] == persons;
    femaleEnd := Partition(a, 0, a.Length, IsFemale);
    assert a[0..a.Length] == a[..];
    employedFemaleEnd, employedMaleEnd := PartitionByEmployment(a, femaleEnd);
    arranged := a[..];
  }

  /** The second and third partitions: employed first within each gender. */
  method PartitionByEmployment(a: array<Person>, femaleEnd: nat) returns (employedFemaleEnd: nat, employedMaleEnd: nat)
    requires femaleEnd <= a.Length
    requires forall i :: 0 <= i < femaleEnd ==> IsFemale(a[i])
    requires forall i :: femaleEnd <= i < a.Length ==> !IsFemale(a[i])
    modifies a
    ensures multiset(a[..]) == multiset(old(a[..]))
    ensures employedFemaleEnd <= femaleEnd <= employedMaleEnd <= a.Length
    ensures forall i :: 0 <= i < femaleEnd ==> IsFemale(a[i])
    ensures forall i :: femaleEnd <= i < a.Length ==> IsMale(a[i])
    ensures forall i :: 0 <= i < employedFemaleEnd ==> IsEmployed(a[i])
    ensures forall i :: employedFemaleEnd <= i < femaleEnd ==> !IsEmployed(a[i])
    ensures forall i :: femaleEnd <= i < employedMaleEnd ==> IsEmployed(a[i])
    ensures forall i :: employedMaleEnd <= i < a.Length ==> !IsEmployed(a[i])
  {
    ghost var byGender := a[..];
    employedFemaleEnd := Partition(a, 0, femaleEnd, IsEmployed);
    assert a[0..femaleEnd] == a[..femaleEnd];
    ghost var middle := a[..];
    employedMaleEnd := Partition(a, femaleEnd, a.Length, IsEmployed);
    assert a[femaleEnd..a.Length] == a[femaleEnd..];
    assert middle[femaleEnd..a.Length] == middle[femaleEnd..];
    assert byGender[0..femaleEnd] == byGender[..femaleEnd];
    GenderKept(byGender, middle, a[..], femaleEnd);
    FemalesKept(middle, a[..], femaleEnd, employedFemaleEnd);
  }

  /** Females first, then males: the whole, the female and the male medians. */
  lemma GenderMedians(persons: seq<Person>, arranged: seq<Person>, femaleEnd: nat)
    requires multiset(arranged) == multiset(persons) && femaleEnd <= |arranged|
    requires forall i :: 0 <= i < femaleEnd ==> IsFemale(arranged[i])
    requires forall i :: femaleEnd <= i < |arranged| ==> IsMale(arranged[i])
    ensures MedianAge(arranged) == MedianAge(persons)
    ensures MedianAge(arranged[..femaleEnd]) == MedianAge(Filter(persons, IsFemale))
    ensures MedianAge(arranged[femaleEnd..]) == MedianAge(Filter(persons, IsMale))
  {
    MedianPermutation(arranged, persons);
    assert arranged[..|arranged|] == arranged;
    SegmentMedian(arranged, persons, 0, femaleEnd, IsFemale);
    SegmentMedian(arranged, persons, femaleEnd, |arranged|, IsMale);
  }

  /** Among the females, employed first: the two female medians. */
  lemma FemaleMedians(persons: seq<Person>, arranged: seq<Person>, femaleEnd: nat, employedFemaleEnd: nat)
    requires multiset(arranged) == multiset(persons)
    requires employedFemaleEnd <= femaleEnd <= |arranged|
    requires forall i :: 0 <= i < femaleEnd ==> IsFemale(arranged[i])
    requires forall i :: femaleEnd <= i < |arranged| ==> IsMale(arranged[i])
    requires forall i :: 0 <= i < employedFemaleEnd ==> IsEmployed(arranged[i])
    requires forall i :: employedFemaleEnd <= i < femaleEnd ==> !IsEmployed(arranged[i])
    ensures MedianAge(arranged[..employedFemaleEnd]) == MedianAge(Filter(persons, IsEmployedFemale))
    ensures MedianAge(arranged[employedFemaleEnd..femaleEnd]) == MedianAge(Filter(persons, IsUnemployedFemale))
  {
    SegmentMedian(arranged, persons, 0, employedFemaleEnd, IsEmployedFemale);
    SegmentMedian(arranged, persons, employedFemaleEnd, femaleEnd, IsUnemployedFemale);
  }

  /** Among the males, employed first: the two male medians. */
  lemma MaleMedians(persons: seq<Person>, arranged: seq<Person>, femaleEnd: nat, employedMaleEnd: nat)
    requires multiset(arranged) == multiset(persons)
    requires femaleEnd <= employedMaleEnd <= |arranged|
    requires forall i :: 0 <= i < femaleEnd ==> IsFemale(arranged[i])
    requires forall i :: femaleEnd <= i < |arranged| ==> IsMale(arranged[i])
    requires forall i :: femaleEnd <= i < employedMaleEnd ==> IsEmployed(arranged[i])
    requires forall i :: employedMaleEnd <= i < |arranged| ==> !IsEmployed(arranged[i])
    ensures MedianAge(arranged[femaleEnd..employedMaleEnd]) == MedianAge(Filter(persons, IsEmployedMale))
    ensures MedianAge(arranged[employedMaleEnd..]) == MedianAge(Filter(persons, IsUnemployedMale))
  {
    SegmentMedian(arranged, persons, femaleEnd, employedMaleEnd, IsEmployedMale);
    assert arranged[employedMaleEnd..|arranged|] == arranged[employedMaleEnd..];
    SegmentMedian(arranged, persons, employedMaleEnd, |arranged|, IsUnemployedMale);
  }

  /**
   * The second and third partitions permute within the female and the male
   * segment left by the first, so the persons and their genders stay put.
   */
  lemma GenderKept(byGender: seq<Person>, middle: seq<Person>, arranged: seq<Person>, femaleEnd: nat)
    requires |byGender| == |middle| == |arranged| && femaleEnd <= |arranged|
    requires forall i :: 0 <= i < femaleEnd ==> IsFemale(byGender[i])
    requires forall i :: femaleEnd <= i < |byGender| ==> !IsFemale(byGender[i])
    requires multiset(middle[..femaleEnd]) == multiset(byGender[..femaleEnd])
    requires middle[femaleEnd..] == byGender[femaleEnd..]
    requires arranged[..femaleEnd] == middle[..femaleEnd]
    requires multiset(arranged[femaleEnd..]) == multiset(middle[femaleEnd..])
    ensures multiset(arranged) == multiset(byGender)
    ensures forall i :: 0 <= i < femaleEnd ==> IsFemale(arranged[i])
    ensures forall i :: femaleEnd <= i < |arranged| ==> IsMale(arranged[i])
  {
    assert byGender == byGender[..femaleEnd] + byGender[femaleEnd..];
    assert arranged == arranged[..femaleEnd] + arranged[femaleEnd..];
    forall i | 0 <= i < femaleEnd ensures IsFemale(arranged[i]) {
      assert arranged[i] == arranged[..femaleEnd][i];
      assert arranged[i] in multiset(byGender[..femaleEnd]);
    }
    forall i | femaleEnd <= i < |arranged| ensures IsMale(arranged[i]) {
      assert arranged[i] == arranged[femaleEnd..][i - femaleEnd];
      assert arranged[i] in multiset(byGender[femaleEnd..]);
    }
  }

  /** The third partition leaves the females, and their employment order, as the second left them. */
  lemma FemalesKept(middle: seq<Person>, arranged: seq<Person>, femaleEnd: nat, employedFemaleEnd: nat)
    requires employedFemaleEnd <= femaleEnd <= |middle| == |arranged|
    requires arranged[..femaleEnd] == middle[..femaleEnd]
    requires forall i :: 0 <= i < employedFemaleEnd ==> IsEmployed(middle[i])
    requires forall i :: employedFemaleEnd <= i < femaleEnd ==> !IsEmployed(middle[i])
    ensures forall i :: 0 <= i < employedFemaleEnd ==> IsEmployed(arranged[i])
    ensures forall i :: employedFemaleEnd <= i < femaleEnd ==> !IsEmployed(arranged[i])
  {
    assert forall i :: 0 <= i < femaleEnd ==> arranged[i] == arranged[..femaleEnd][i] == middle[i];
  }

  // The persons of the program's `main` and what it prints for them.

  const Sample: seq<Person> := [
    Person(31, MALE, false), Person(40, FEMALE, true), Person(24, MALE, true), Person(20, FEMALE, true),
    Person(80, FEMALE, false), Person(78, MALE, false), Person(10, FEMALE, false), Person(55, MALE, true)]

  /** A group's median from the counts of its ages around `v`. */
  lemma MedianFromCounts(group: seq<Person>, ages: seq<int>, v: int)
    requires group != [] && Ages(group) == ages
    requires CountBelow(ages, v) <= |group| / 2 < CountAtMost(ages, v)
    ensures MedianAge(group) == v
  {
    MedianCharacterised(group, v);
  }

  lemma SampleAllAges()
    ensures Ages(Sample) == [31, 40, 24, 20, 80, 78, 10, 55]
  {
    AgesIndex(Sample);
  }

  lemma SampleAllCounts()
    ensures CountBelow([31, 40, 24, 20, 80, 78, 10, 55], 40) == 4 && CountAtMost([31, 40, 24, 20, 80, 78, 10, 55], 40) == 5
  {
  }

  lemma SampleAll()
    ensures MedianAge(Sample) == 40
  {
    SampleAllAges();
    SampleAllCounts();
    MedianFromCounts(Sample, [31, 40, 24, 20, 80, 78, 10, 55], 40);
  }

  lemma SampleFemalesFiltered()
    ensures Filter(Sample, IsFemale) == [Sample[1], Sample[3], Sample[4], Sample[6]]
  {
  }

  lemma SampleFemalesAges()
    ensures Ages([Sample[1], Sample[3], Sample[4], Sample[6]]) == [40, 20, 80, 10]
  {
    AgesIndex([Sample[1], Sample[3], Sample[4], Sample[6]]);
  }

  lemma SampleFemalesCounts()
    ensures CountBelow([40, 20, 80, 10], 40) == 2 && CountAtMost([40, 20, 80, 10], 40) == 3
  {
  }

  lemma SampleFemales()
    ensures MedianAge(Filter(Sample, IsFemale)) == 40
  {
    SampleFemalesFiltered();
    SampleFemalesAges();
    SampleFemalesCounts();
    MedianFromCounts([Sample[1], Sample[3], Sample[4], Sample[6]], [40, 20, 80, 10], 40);
  }

  lemma SampleMalesFiltered()
    ensures Filter(Sample, IsMale) == [Sample[0], Sample[2], Sample[5], Sample[7]]
  {
  }

  lemma SampleMalesAges()
    ensures Ages([Sample[0], Sample[2], Sample[5], Sample[7]]) == [31, 24, 78, 55]
  {
    AgesIndex([Sample[0], Sample[2], Sample[5], Sample[7]]);
  }

  lemma SampleMalesCounts()
    ensures CountBelow([31, 24, 78, 55], 55) == 2 && CountAtMost([31, 24, 78, 55], 55) == 3
  {
  }

  lemma SampleMales()
    ensures MedianAge(Filter(Sample, IsMale)) == 55
  {
    SampleMalesFiltered();
    SampleMalesAges();
    SampleMalesCounts();
    MedianFromCounts([Sample[0], Sample[2], Sample[5], Sample[7]], [31, 24, 78, 55], 55);
  }

  lemma SampleEmployedFemalesFiltered()
    ensures Filter(Sample, IsEmployedFemale) == [Sample[1], Sample[3]]
  {
  }

  lemma SampleEmployedFemalesAges()
    ensures Ages([Sample[1], Sample[3]]) == [40, 20]
  {
    AgesIndex([Sample[1], Sample[3]]);
  }

  lemma SampleEmployedFemalesCounts()
    ensures CountBelow([40, 20], 40) == 1 && CountAtMost([40, 20], 40) == 2
  {
  }

  lemma SampleEmployedFemales()
    ensures MedianAge(Filter(Sample, IsEmployedFemale)) == 40
  {
    SampleEmployedFemalesFiltered();
    SampleEmployedFemalesAges();
    SampleEmployedFemalesCounts();
    MedianFromCounts([Sample[1], Sample[3]], [40, 20], 40);
  }

  lemma SampleUnemployedFemalesFiltered()
    ensures Filter(Sample, IsUnemployedFemale) == [Sample[4], Sample[6]]
  {
    assert Filter(Sample[6..], IsUnemployedFemale) == [Sample[6]];
  }

  lemma SampleUnemployedFemalesAges()
    ensures Ages([Sample[4], Sample[6]]) == [80, 10]
  {
    AgesIndex([Sample[4], Sample[6]]);
  }

  lemma SampleUnemployedFemalesCounts()
    ensures CountBelow([80, 10], 80) == 1 && CountAtMost([80, 10], 80) == 2
  {
  }

  lemma SampleUnemployedFemales()
    ensures MedianAge(Filter(Sample, IsUnemployedFemale)) == 80
  {
    SampleUnemployedFemalesFiltered();
    SampleUnemployedFemalesAges();
    SampleUnemployedFemalesCounts();
    MedianFromCounts([Sample[4], Sample[6]], [80, 10], 80);
  }

  lemma SampleEmployedMalesFiltered()
    ensures Filter(Sample, IsEmployedMale) == [Sample[2], Sample[7]]
  {
  }

  lemma SampleEmployedMalesAges()
    ensures Ages([Sample[2], Sample[7]]) == [24, 55]
  {
    AgesIndex([Sample[2], Sample[7]]);
  }

  lemma SampleEmployedMalesCounts()
    ensures CountBelow([24, 55], 55) == 1 && CountAtMost([24, 55], 55) == 2
  {
  }

  lemma SampleEmployedMales()
    ensures MedianAge(Filter(Sample, IsEmployedMale)) == 55
  {
    SampleEmployedMalesFiltered();
    SampleEmployedMalesAges();
    SampleEmployedMalesCounts();
    MedianFromCounts([Sample[2], Sample[7]], [24, 55], 55);
  }

  lemma SampleUnemployedMalesFiltered()
    ensures Filter(Sample, IsUnemployedMale) == [Sample[0], Sample[5]]
  {
  }

  lemma SampleUnemployedMalesAges()
    ensures Ages([Sample[0], Sample[5]]) == [31, 78]
  {
    AgesIndex([Sample[0], Sample[5]]);
  }

  lemma SampleUnemployedMalesCounts()
    ensures CountBelow([31, 78], 78) == 1 && CountAtMost([31, 78], 78) == 2
  {
  }

  lemma SampleUnemployedMales()
    ensures MedianAge(Filter(Sample, IsUnemployedMale)) == 78
  {
    SampleUnemployedMalesFiltered();
    SampleUnemployedMalesAges();
    SampleUnemployedMalesCounts();
    MedianFromCounts([Sample[0], Sample[5]], [31, 78], 78);
  }

  /** What the program prints for the persons of its `main`. */
  lemma SampleReport()
    ensures Report(Sample) == [40, 40, 55, 40, 80, 55, 78]
  {
    SampleAll();
    SampleFemales();
    SampleMales();
    SampleEmployedFemales();
    SampleUnemployedFemales();
    SampleEmployedMales();
    SampleUnemployedMales();
  }
}

/**
 * `std::lexicographical_compare` over sequences whose elements are ordered by
 * a strict total order, and the facts about it that sorted searches rely on.
 */
module Lexicographic {
  /** `less` is irreflexive, transitive and total on distinct elements. */
  ghost predicate StrictTotalOrder<T(!new)>(less: (T, T) -> bool)
  {
    (forall x :: !less(x, x)) &&
    (forall x, y, z :: less(x, y) && less(y, z) ==> less(x, z)) &&
    (forall x, y :: x == y || less(x, y) || less(y, x))
  }

  /**
   * The first position where the sequences differ decides; a proper prefix
   * comes first. (The library tests `less` both ways at each position; for a
   * strict total order "neither is less" means "equal".)
   */
  function LexLess<T(==)>(less: (T, T) -> bool, a: seq<T>, b: seq<T>): bool
  {
    if b == [] then false
    else if a == [] then true
    else if less(a[0], b[0]) then true
    else if a[0] == b[0] then LexLess(less, a[1..], b[1..])
    else false
  }

  predicate IsPrefix<T(==)>(k: seq<T>, c: seq<T>)
  {
    |k| <= |c| && c[..|k|] == k
  }

  lemma {:induction false} LexIrreflexive<T(!new)>(less: (T, T) -> bool, a: seq<T>)
    requires StrictTotalOrder(less)
    ensures !LexLess(less, a, a)
  {
    if a != [] {
      LexIrreflexive(less, a[1..]);
    }
  }

  lemma {:induction false} LexTransitive<T(!new)>(less: (T, T) -> bool, a: seq<T>, b: seq<T>, c: seq<T>)
    requires StrictTotalOrder(less)
    requires LexLess(less, a, b) && LexLess(less, b, c)
    ensures LexLess(less, a, c)
  {
    if a != [] && b != [] && c != [] && a[0] == b[0] && b[0] == c[0] {
      LexTransitive(less, a[1..], b[1..], c[1..]);
    }
  }

  lemma {:induction false} LexTotal<T(!new)>(less: (T, T) -> bool, a: seq<T>, b: seq<T>)
    requires StrictTotalOrder(less)
    ensures a == b || LexLess(less, a, b) || LexLess(less, b, a)
  {
    if a != [] && b != [] && a[0] == b[0] {
      LexTotal(less, a[1..], b[1..]);
      if a[1..] == b[1..] {
        assert a == [a[0]] + a[1..] && b == [b[0]] + b[1..];
      }
    }
  }

  /** The lexicographic order is again a strict total order. */
  lemma LexStrictTotalOrder<T(!new)>(less: (T, T) -> bool)
    requires StrictTotalOrder(less)
    ensures StrictTotalOrder((a: seq<T>, b: seq<T>) => LexLess(less, a, b))
  {
    forall a: seq<T> ensures !LexLess(less, a, a) {
      LexIrreflexive(less, a);
    }
    forall a: seq<T>, b: seq<T>, c: seq<T> | LexLess(less, a, b) && LexLess(less, b, c)
      ensures LexLess(less, a, c)
    {
      LexTransitive(less, a, b, c);
    }
    forall a: seq<T>, b: seq<T> ensures a == b || LexLess(less, a, b) || LexLess(less, b, a) {
      LexTotal(less, a, b);
    }
  }

  /** A prefix never comes after the sequences it starts. */
  lemma {:induction false} PrefixNotAfter<T(!new)>(less: (T, T) -> bool, k: seq<T>, c: seq<T>)
    requires StrictTotalOrder(less) && IsPrefix(k, c)
    ensures !LexLess(less, c, k)
  {
    if k != [] {
      assert c[0] == k[0] && c[1..][..|k| - 1] == k[1..];
      PrefixNotAfter(less, k[1..], c[1..]);
    }
  }

  /** Whatever lies between a sequence and one of its extensions extends it too. */
  lemma {:induction false} PrefixBetween<T(!new)>(less: (T, T) -> bool, k: seq<T>, p: seq<T>, c: seq<T>)
    requires StrictTotalOrder(less) && IsPrefix(k, c)
    requires !LexLess(less, p, k) && !LexLess(less, c, p)
    ensures IsPrefix(k, p)
  {
    if k != [] {
      assert c[0] == k[0] && c[1..][..|k| - 1] == k[1..];
      assert p != [];
      assert p[0] == k[0];
      PrefixBetween(less, k[1..], p[1..], c[1..]);
      assert p == [p[0]] + p[1..];
    }
  }

  /** The order on characters by code. */
  function CharLess(a: char, b: char): bool
  {
    a < b
  }

  /** `std::string`'s `<`. */
  function StringLess(a: string, b: string): bool
  {
    LexLess(CharLess, a, b)
  }

  lemma StringOrder()
    ensures StrictTotalOrder(StringLess)
  {
    assert StrictTotalOrder(CharLess);
    forall a: string ensures !StringLess(a, a) {
      LexIrreflexive(CharLess, a);
    }
    forall a: string, b: string, c: string | StringLess(a, b) && StringLess(b, c) ensures StringLess(a, c) {
      LexTransitive(CharLess, a, b, c);
    }
    forall a: string, b: string ensures a == b || StringLess(a, b) || StringLess(b, a) {
      LexTotal(CharLess, a, b);
    }
  }
}

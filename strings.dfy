/**
 * The `std::string_view::find` family on character sequences: the index of
 * the first occurrence, or `None` where the source gets `npos`; and the
 * reverse of a sequence, which several exercises build element by element.
 */
module Strings {
  import opened Wrappers

  /** `pat` occurs in `s` starting at index `i`. */
  predicate OccursAt(s: string, pat: string, i: nat)
  {
    i + |pat| <= |s| && s[i..i + |pat|] == pat
  }

  /** `s.find(c)`: the first index holding `c`. */
  function FindChar(s: string, c: char): (r: Option<nat>)
    ensures r.None? <==> c !in s
    ensures r.Some? ==> r.value < |s| && s[r.value] == c && c !in s[..r.value]
  {
    if |s| == 0 then None
    else if s[0] == c then Some(0)
    else match FindChar(s[1..], c)
      case None => None
      case Some(i) =>
        assert s[..i + 1] == [s[0]] + s[1..][..i];
        Some(i + 1)
  }

  /** `s.find_first_not_of(c)`: the first index not holding `c`. */
  function FindFirstNot(s: string, c: char): (r: Option<nat>)
    ensures r.None? <==> forall i :: 0 <= i < |s| ==> s[i] == c
    ensures r.Some? ==> r.value < |s| && s[r.value] != c && forall i :: 0 <= i < r.value ==> s[i] == c
  {
    if |s| == 0 then None
    else if s[0] != c then Some(0)
    else match FindFirstNot(s[1..], c)
      case None => None
      case Some(i) => Some(i + 1)
  }

  /** `s.find(pat)`: the first index where `pat` occurs. */
  function Find(s: string, pat: string): (r: Option<nat>)
    ensures r.None? <==> forall i: nat :: i <= |s| ==> !OccursAt(s, pat, i)
    ensures r.Some? ==> OccursAt(s, pat, r.value) && forall i: nat :: i < r.value ==> !OccursAt(s, pat, i)
    decreases |s|
  {
    if |pat| > |s| then None
    else if s[..|pat|] == pat then assert OccursAt(s, pat, 0); Some(0)
    else
      assert |s| > 0;
      match Find(s[1..], pat)
      case None =>
        assert forall i: nat :: 1 <= i <= |s| ==> (OccursAt(s, pat, i) <==> OccursAt(s[1..], pat, i - 1));
        None
      case Some(i) =>
        assert forall j: nat :: 1 <= j <= |s| ==> (OccursAt(s, pat, j) <==> OccursAt(s[1..], pat, j - 1));
        assert OccursAt(s, pat, i + 1);
        Some(i + 1)
  }

  /** `s` back to front: element `i` of the result is element `|s| - 1 - i` of `s`. */
  function Reverse<T>(s: seq<T>): (r: seq<T>)
    ensures |r| == |s| && forall i :: 0 <= i < |s| ==> r[i] == s[|s| - 1 - i]
  {
    if |s| == 0 then [] else Reverse(s[1..]) + [s[0]]
  }
}

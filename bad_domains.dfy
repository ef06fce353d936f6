/**
 * Checking domains against a list of banned ones: a domain is bad when it is
 * a banned domain or a subdomain of one. A `DomainChecker` keeps the banned
 * domains sorted by their reversed labels, without the ones another banned
 * domain already covers, and answers with one `upper_bound` search.
 */
module BadDomains {
  import opened Lexicographic
  import Strings
  import opened Wrappers

  // Labels.

  /** The labels of `s`, split at each `.`; a final `.` yields no empty label. */
  function Labels(s: string): seq<string>
    decreases |s|
  {
    if s == [] then []
    else match Strings.FindChar(s, '.')
      case None => [s]
      case Some(pos) => [s[..pos]] + Labels(s[pos + 1..])
  }

  /** The labels joined again with `.`. */
  function Join(labels: seq<string>): string
  {
    if labels == [] then ""
    else if |labels| == 1 then labels[0]
    else labels[0] + "." + Join(labels[1..])
  }

  /** `ReversedParts`: the labels of `s`, last first, collected with `emplace_front`. */
  method ReversedParts(s: string) returns (parts: seq<string>)
    ensures parts == Strings.Reverse(Labels(s))
  {
    var rest := s;
    parts := [];
    assert Strings.Reverse(Labels(rest)) + parts == Strings.Reverse(Labels(s));
    while rest != []
      invariant Strings.Reverse(Labels(rest)) + parts == Strings.Reverse(Labels(s))
      decreases |rest|
    {
      var pos := Strings.FindChar(rest, '.');
      if pos.None? {
        PartsLast(rest, parts);
        parts := [rest] + parts;
        rest := [];
      } else {
        PartsStep(rest, pos.value, parts);
        parts := [rest[..pos.value]] + parts;
        rest := rest[pos.value + 1..];
      }
    }
    assert Strings.Reverse(Labels(rest)) == [];
    assert [] + parts == parts;
  }

  /** Reading one more label before the first `.` keeps the reversed labels. */
  lemma PartsStep(rest: string, pos: nat, parts: seq<string>)
    requires Strings.FindChar(rest, '.') == Some(pos)
    ensures Strings.Reverse(Labels(rest)) + parts == Strings.Reverse(Labels(rest[pos + 1..])) + ([rest[..pos]] + parts)
  {
    ReverseCons(rest[..pos], Labels(rest[pos + 1..]), parts);
  }

  lemma ReverseCons<T>(x: T, s: seq<T>, tail: seq<T>)
    ensures Strings.Reverse([x] + s) + tail == Strings.Reverse(s) + ([x] + tail)
  {
    assert ([x] + s)[1..] == s;
  }

  /** The last label is all that is left when no `.` remains. */
  lemma PartsLast(rest: string, parts: seq<string>)
    requires rest != [] && Strings.FindChar(rest, '.').None?
    ensures Strings.Reverse(Labels(rest)) + parts == Strings.Reverse(Labels([])) + ([rest] + parts)
  {
    assert Labels(rest) == [rest];
    ReverseCons(rest, [], parts);
    assert [rest] + [] == [rest];
  }

  /** Joining the labels gives the text back, unless it ends with a `.`. */
  lemma {:induction false} JoinLabels(s: string)
    requires s == [] || s[|s| - 1] != '.'
    ensures Join(Labels(s)) == s
    decreases |s|
  {
    if s != [] {
      match Strings.FindChar(s, '.')
      case None =>
      case Some(pos) =>
        var rest := s[pos + 1..];
        assert rest != [];
        assert rest[|rest| - 1] == s[|s| - 1];
        JoinLabels(rest);
        assert Labels(rest) != [];
        assert s == s[..pos] + "." + rest;
    }
  }

  // Domains and their order.

  /** A domain, held as its labels from the top level down. */
  datatype Domain = Domain(reversedParts: seq<string>)

  /** `Domain(text)`. */
  function DomainOf(text: string): (d: Domain)
    ensures |d.reversedParts| == |Labels(text)|
  {
    Domain(Strings.Reverse(Labels(text)))
  }

  function PartCount(d: Domain): nat
  {
    |d.reversedParts|
  }

  /** `operator<`: the reversed labels compared lexicographically. */
  function Less(a: Domain, b: Domain): bool
  {
    LexLess(StringLess, a.reversedParts, b.reversedParts)
  }

  /** The free function `IsSubdomain(subdomain, domain)`: the labels of `domain` start those of `subdomain`. */
  predicate IsSubdomainOf(subdomain: Domain, domain: Domain)
  {
    PartCount(subdomain) >= PartCount(domain) &&
    subdomain.reversedParts[..PartCount(domain)] == domain.reversedParts
  }

  /** A domain is a subdomain of itself, and a subdomain of a subdomain is one as well. */
  lemma SubdomainOrder(a: Domain, b: Domain, c: Domain)
    ensures IsSubdomainOf(a, a)
    ensures IsSubdomainOf(a, b) && IsSubdomainOf(b, c) ==> IsSubdomainOf(a, c)
  {
    assert a.reversedParts[..PartCount(a)] == a.reversedParts;
    if IsSubdomainOf(a, b) && IsSubdomainOf(b, c) {
      assert a.reversedParts[..PartCount(c)] == a.reversedParts[..PartCount(b)][..PartCount(c)];
    }
  }

  lemma LabelsSingle(s: string)
    requires s != [] && '.' !in s
    ensures Labels(s) == [s]
  {
    assert Strings.FindChar(s, '.') == None;
  }

  /** A name of two labels, `a.b`, is stored as `[b, a]`. */
  lemma LabelsPair(a: string, b: string)
    requires a != [] && b != [] && '.' !in a && '.' !in b
    ensures DomainOf(a + "." + b).reversedParts == [b, a]
  {
    var s := a + "." + b;
    assert s[|a|] == '.';
    assert Strings.FindChar(s, '.') == Some(|a|);
    assert s[..|a|] == a && s[|a| + 1..] == b;
    LabelsSingle(b);
    assert Labels(s) == [a, b];
  }

  lemma LabelsMYaRu()
    ensures DomainOf("m.ya.ru").reversedParts == ["ru", "ya", "m"]
  {
    assert Strings.FindChar("m.ya.ru", '.') == Some(1);
    assert "m.ya.ru"[..1] == "m" && "m.ya.ru"[2..] == "ya.ru";
    YaRuLabels();
  }

  lemma YaRuLabels()
    ensures DomainOf("ya.ru").reversedParts == ["ru", "ya"]
  {
    LabelsPair("ya", "ru");
    assert "ya" + "." + "ru" == "ya.ru";
  }

  /** `m.ya.ru` lies under `ya.ru`. */
  lemma MYaRuUnderYaRu()
    ensures IsSubdomainOf(DomainOf("m.ya.ru"), DomainOf("ya.ru"))
  {
    YaRuLabels();
    LabelsMYaRu();
    PartsExamples();
  }

  /** `ya.ru` does not lie under `m.ya.ru`. */
  lemma YaRuNotUnderMYaRu()
    ensures !IsSubdomainOf(DomainOf("ya.ru"), DomainOf("m.ya.ru"))
  {
    YaRuLabels();
    LabelsMYaRu();
    PartsExamples();
  }

  /** `ya.com` does not lie under `ya.ru`. */
  lemma YaComNotUnderYaRu()
    ensures !IsSubdomainOf(DomainOf("ya.com"), DomainOf("ya.ru"))
  {
    YaRuLabels();
    LabelsPair("ya", "com");
    assert "ya" + "." + "com" == "ya.com";
    PartsExamples();
  }

  /** The subdomain relation among the labels of `m.ya.ru`, `ya.ru` and `ya.com`. */
  lemma PartsExamples()
    ensures IsSubdomainOf(Domain(["ru", "ya", "m"]), Domain(["ru", "ya"]))
    ensures !IsSubdomainOf(Domain(["ru", "ya"]), Domain(["ru", "ya", "m"]))
    ensures !IsSubdomainOf(Domain(["com", "ya"]), Domain(["ru", "ya"]))
  {
    var m, ya, com := Domain(["ru", "ya", "m"]), Domain(["ru", "ya"]), Domain(["com", "ya"]);
    assert m.reversedParts[..2] == ["ru", "ya"];
    assert "com"[0] != "ru"[0];
    assert com.reversedParts[..2][0] != ya.reversedParts[0];
  }

  /** Each domain comes no later than the ones after it. */
  ghost predicate Sorted(ds: seq<Domain>)
  {
    forall i, j :: 0 <= i < j < |ds| ==> !Less(ds[j], ds[i])
  }

  /** The order facts of `operator<` on domains, from those on strings. */
  lemma DomainOrder(a: Domain, b: Domain, c: Domain)
    ensures !Less(a, a)
    ensures Less(a, b) && Less(b, c) ==> Less(a, c)
    ensures a == b || Less(a, b) || Less(b, a)
  {
    StringOrder();
    LexIrreflexive(StringLess, a.reversedParts);
    if Less(a, b) && Less(b, c) {
      LexTransitive(StringLess, a.reversedParts, b.reversedParts, c.reversedParts);
    }
    LexTotal(StringLess, a.reversedParts, b.reversedParts);
  }

  // Sorting: the order `sort` leaves the banned domains in.

  function Insert(x: Domain, s: seq<Domain>): (r: seq<Domain>)
    ensures multiset(r) == multiset(s) + multiset{x} && |r| == |s| + 1
  {
    if s == [] then [x]
    else if Less(s[0], x) then
      assert s == [s[0]] + s[1..];
      [s[0]] + Insert(x, s[1..])
    else [x] + s
  }

  /** The domains in ascending order: the result of `sort`, unique for a total order. */
  function Sort(s: seq<Domain>): (r: seq<Domain>)
    ensures multiset(r) == multiset(s)
  {
    if s == [] then []
    else
      assert s == [s[0]] + s[1..];
      Insert(s[0], Sort(s[1..]))
  }

  lemma {:induction false} InsertSorted(x: Domain, s: seq<Domain>)
    requires Sorted(s)
    ensures Sorted(Insert(x, s))
  {
    if s != [] {
      var r := Insert(x, s);
      if Less(s[0], x) {
        InsertSorted(x, s[1..]);
        var tail := Insert(x, s[1..]);
        forall k | 0 <= k < |tail| ensures !Less(tail[k], s[0]) {
          assert tail[k] in multiset(tail);
          if tail[k] == x {
            DomainOrder(x, s[0], x);
          } else {
            assert tail[k] in multiset(s[1..]);
            var m :| 0 <= m < |s[1..]| && s[1..][m] == tail[k];
            assert s[m + 1] == tail[k];
          }
        }
        assert r == [s[0]] + tail;
      } else {
        forall k | 0 <= k < |s| ensures !Less(s[k], x) {
          DomainOrder(s[0], s[k], x);
        }
      }
    }
  }

  lemma {:induction false} SortSorted(s: seq<Domain>)
    ensures Sorted(Sort(s))
  {
    if s != [] {
      SortSorted(s[1..]);
      InsertSorted(s[0], Sort(s[1..]));
    }
  }

  // `AbsorbSubdomains`: `unique` with "is a subdomain of the last one kept".

  /** No kept domain is a subdomain of the one kept before it. */
  ghost predicate NoneAbsorbed(ds: seq<Domain>)
  {
    forall j :: 0 < j < |ds| ==> !IsSubdomainOf(ds[j], ds[j - 1])
  }

  lemma NoneAbsorbedSnoc(kept: seq<Domain>, x: Domain)
    requires NoneAbsorbed(kept) && (kept == [] || !IsSubdomainOf(x, kept[|kept| - 1]))
    ensures NoneAbsorbed(kept + [x])
  {
    var k := kept + [x];
    forall j | 0 < j < |k| ensures !IsSubdomainOf(k[j], k[j - 1]) {
      if j < |kept| {
        assert k[j] == kept[j] && k[j - 1] == kept[j - 1];
      }
    }
  }

  /** `kept` is drawn from `ds[..bound]` in order, `kept[j]` from position `pos[j]`. */
  ghost predicate Picks(ds: seq<Domain>, kept: seq<Domain>, pos: seq<nat>, bound: nat)
  {
    |pos| == |kept| &&
    (forall j :: 0 <= j < |kept| ==> pos[j] < bound && pos[j] < |ds| && kept[j] == ds[pos[j]]) &&
    (forall j, k :: 0 <= j < k < |kept| ==> pos[j] < pos[k])
  }

  /** Each of `ds[..|owner|]` is a subdomain of the kept domain `owner` names. */
  ghost predicate Covers(ds: seq<Domain>, kept: seq<Domain>, owner: seq<nat>)
  {
    |owner| <= |ds| &&
    forall m :: 0 <= m < |owner| ==> owner[m] < |kept| && IsSubdomainOf(ds[m], kept[owner[m]])
  }

  lemma PicksSnoc(ds: seq<Domain>, kept: seq<Domain>, pos: seq<nat>, i: nat)
    requires Picks(ds, kept, pos, i) && i < |ds|
    ensures Picks(ds, kept + [ds[i]], pos + [i], i + 1)
  {
  }

  lemma CoversSnoc(ds: seq<Domain>, kept: seq<Domain>, owner: seq<nat>, x: Domain)
    requires Covers(ds, kept, owner) && |owner| < |ds|
    requires kept != [] && IsSubdomainOf(ds[|owner|], kept[|kept| - 1])
    ensures Covers(ds, kept, owner + [|kept| - 1])
    ensures Covers(ds, kept + [x], owner + [|kept| - 1])
  {
    var k := kept + [x];
    forall m | 0 <= m < |owner| ensures IsSubdomainOf(ds[m], k[owner[m]]) {
      assert k[owner[m]] == kept[owner[m]];
    }
  }

  /**
   * Keeps a domain only when it is not a subdomain of the last domain kept.
   * `pos` tells where each kept domain came from, `owner` which kept domain
   * covers each input.
   */
  method AbsorbSubdomains(ds: seq<Domain>) returns (kept: seq<Domain>, ghost pos: seq<nat>, ghost owner: seq<nat>)
    ensures Picks(ds, kept, pos, |ds|) && Covers(ds, kept, owner) && |owner| == |ds|
    ensures NoneAbsorbed(kept)
  {
    kept, pos, owner := [], [], [];
    assert Picks(ds, kept, pos, 0) && Covers(ds, kept, owner) && NoneAbsorbed(kept);
    for i := 0 to |ds|
      invariant Picks(ds, kept, pos, i) && Covers(ds, kept, owner) && |owner| == i
      invariant NoneAbsorbed(kept)
    {
      kept, pos, owner := AbsorbTurn(ds, i, kept, pos, owner);
    }
  }

  /** One turn of that loop, on the domain `ds[i]`. */
  method AbsorbTurn(ds: seq<Domain>, i: nat, kept: seq<Domain>, ghost pos: seq<nat>, ghost owner: seq<nat>)
    returns (kept': seq<Domain>, ghost pos': seq<nat>, ghost owner': seq<nat>)
    requires i < |ds| && Picks(ds, kept, pos, i) && Covers(ds, kept, owner) && |owner| == i
    requires NoneAbsorbed(kept)
    ensures Picks(ds, kept', pos', i + 1) && Covers(ds, kept', owner') && |owner'| == i + 1
    ensures NoneAbsorbed(kept')
  {
    if kept == [] || !IsSubdomainOf(ds[i], kept[|kept| - 1]) {
      KeepStep(ds, i, kept, pos, owner);
      kept', pos' := kept + [ds[i]], pos + [i];
      owner' := owner + [|kept|];
    } else {
      SkipStep(ds, i, kept, pos, owner);
      kept', pos' := kept, pos;
      owner' := owner + [|kept| - 1];
    }
  }

  /** Keeping `ds[i]`: it covers itself and follows the kept domain it does not absorb into. */
  lemma KeepStep(ds: seq<Domain>, i: nat, kept: seq<Domain>, pos: seq<nat>, owner: seq<nat>)
    requires i < |ds| && Picks(ds, kept, pos, i) && Covers(ds, kept, owner) && |owner| == i
    requires NoneAbsorbed(kept) && (kept == [] || !IsSubdomainOf(ds[i], kept[|kept| - 1]))
    ensures Picks(ds, kept + [ds[i]], pos + [i], i + 1)
    ensures Covers(ds, kept + [ds[i]], owner + [|kept|])
    ensures NoneAbsorbed(kept + [ds[i]])
  {
    SubdomainOrder(ds[i], ds[i], ds[i]);
    NoneAbsorbedSnoc(kept, ds[i]);
    PicksSnoc(ds, kept, pos, i);
    CoversGrow(ds, kept, owner, ds[i]);
    CoversSnoc(ds, kept + [ds[i]], owner, ds[i]);
  }

  /** Skipping `ds[i]`: the last kept domain covers it. */
  lemma SkipStep(ds: seq<Domain>, i: nat, kept: seq<Domain>, pos: seq<nat>, owner: seq<nat>)
    requires i < |ds| && Picks(ds, kept, pos, i) && Covers(ds, kept, owner) && |owner| == i
    requires kept != [] && IsSubdomainOf(ds[i], kept[|kept| - 1])
    ensures Picks(ds, kept, pos, i + 1)
    ensures Covers(ds, kept, owner + [|kept| - 1])
  {
    CoversSnoc(ds, kept, owner, ds[i]);
  }

  lemma CoversGrow(ds: seq<Domain>, kept: seq<Domain>, owner: seq<nat>, x: Domain)
    requires Covers(ds, kept, owner)
    ensures Covers(ds, kept + [x], owner)
  {
    var k := kept + [x];
    forall m | 0 <= m < |owner| ensures IsSubdomainOf(ds[m], k[owner[m]]) {
      assert k[owner[m]] == kept[owner[m]];
    }
  }

  /** A subsequence of a sorted sequence is sorted. */
  lemma KeptSorted(ds: seq<Domain>, kept: seq<Domain>, pos: seq<nat>)
    requires Sorted(ds) && Picks(ds, kept, pos, |ds|)
    ensures Sorted(kept)
  {
    forall j, k | 0 <= j < k < |kept| ensures !Less(kept[k], kept[j]) {
      assert pos[j] < pos[k];
    }
  }

  /** In a sorted sequence where no domain absorbs its neighbour, no domain absorbs any later one. */
  lemma NoneNested(ds: seq<Domain>, j: nat, m: nat)
    requires Sorted(ds) && NoneAbsorbed(ds) && j < m < |ds|
    ensures !IsSubdomainOf(ds[m], ds[j])
  {
    if IsSubdomainOf(ds[m], ds[j]) {
      StringOrder();
      PrefixBetween(StringLess, ds[j].reversedParts, ds[j + 1].reversedParts, ds[m].reversedParts);
      assert false;
    }
  }

  /** `upper_bound` on a sorted range: the first domain that comes after `c`. */
  function UpperBound(ds: seq<Domain>, c: Domain): (r: nat)
    ensures r <= |ds|
    ensures forall i :: 0 <= i < r ==> !Less(c, ds[i])
    ensures r < |ds| ==> Less(c, ds[r])
  {
    if ds == [] || Less(c, ds[0]) then 0
    else
      var r := 1 + UpperBound(ds[1..], c);
      assert forall i :: 1 <= i < r ==> ds[i] == ds[1..][i - 1];
      r
  }

  /** `DomainChecker::IsSubdomain` over the kept domains: only the one before the bound can cover `c`. */
  function Covered(ds: seq<Domain>, c: Domain): bool
  {
    var ub := UpperBound(ds, c);
    ub != 0 && IsSubdomainOf(c, ds[ub - 1])
  }

  /**
   * What the checker keeps: sorted, none absorbing a neighbour, each kept
   * domain banned (`banned[origin[j]]`), each banned domain a subdomain of a
   * kept one (`ds[owner[i]]`).
   */
  ghost predicate Keeps(ds: seq<Domain>, banned: seq<Domain>, origin: seq<nat>, owner: seq<nat>)
  {
    Sorted(ds) && NoneAbsorbed(ds) && |origin| == |ds| && |owner| == |banned| &&
    (forall j :: 0 <= j < |ds| ==> origin[j] < |banned| && ds[j] == banned[origin[j]]) &&
    (forall i :: 0 <= i < |banned| ==> owner[i] < |ds| && IsSubdomainOf(banned[i], ds[owner[i]]))
  }

  /** A kept domain covering `c` lies before the bound. */
  lemma BeforeBound(ds: seq<Domain>, c: Domain, j: nat)
    requires Sorted(ds) && j < |ds| && IsSubdomainOf(c, ds[j])
    ensures j < UpperBound(ds, c)
  {
    var ub := UpperBound(ds, c);
    StringOrder();
    PrefixNotAfter(StringLess, ds[j].reversedParts, c.reversedParts);
    if j >= ub {
      if j > ub {
        DomainOrder(ds[ub], ds[j], ds[j]);
        DomainOrder(c, ds[ub], ds[j]);
      }
    }
  }

  /** If a kept domain covers `c`, the one just before the bound is that domain. */
  lemma CoveredComplete(ds: seq<Domain>, c: Domain, j: nat)
    requires Sorted(ds) && NoneAbsorbed(ds) && j < |ds| && IsSubdomainOf(c, ds[j])
    ensures Covered(ds, c)
  {
    BeforeBound(ds, c, j);
    var m := UpperBound(ds, c) - 1;
    if j < m {
      assert !Less(ds[m], ds[j]);
      assert !Less(c, ds[m]);
      StringOrder();
      PrefixBetween(StringLess, ds[j].reversedParts, ds[m].reversedParts, c.reversedParts);
      NoneNested(ds, j, m);
      assert false;
    }
  }

  /** `c` is one of `banned` or lies under one of them. */
  ghost predicate Banned(banned: seq<Domain>, c: Domain)
  {
    exists i :: 0 <= i < |banned| && IsSubdomainOf(c, banned[i])
  }

  /** The single search answers "is `c` a subdomain of some banned domain". */
  lemma CoveredIffBanned(ds: seq<Domain>, banned: seq<Domain>, origin: seq<nat>, owner: seq<nat>, c: Domain)
    requires Keeps(ds, banned, origin, owner)
    ensures Covered(ds, c) <==> Banned(banned, c)
  {
    if i :| 0 <= i < |banned| && IsSubdomainOf(c, banned[i]) {
      var j := owner[i];
      SubdomainOrder(c, banned[i], ds[j]);
      CoveredComplete(ds, c, j);
    }
    if Covered(ds, c) {
      var ub := UpperBound(ds, c);
      assert IsSubdomainOf(c, banned[origin[ub - 1]]);
    }
  }

  /** The first position of `x` in `s`. */
  function IndexOf(s: seq<Domain>, x: Domain): (i: nat)
    requires x in s
    ensures i < |s| && s[i] == x
  {
    if s[0] == x then 0 else 1 + IndexOf(s[1..], x)
  }

  /** Where each of `kept`, drawn from a reordering of `banned`, stands in `banned`. */
  lemma Origins(banned: seq<Domain>, sorted: seq<Domain>, kept: seq<Domain>, pos: seq<nat>)
      returns (origin: seq<nat>)
    requires multiset(sorted) == multiset(banned) && Picks(sorted, kept, pos, |sorted|)
    ensures |origin| == |kept|
    ensures forall j :: 0 <= j < |kept| ==> origin[j] < |banned| && kept[j] == banned[origin[j]]
  {
    origin := [];
    for j := 0 to |kept|
      invariant |origin| == j
      invariant forall k :: 0 <= k < j ==> origin[k] < |banned| && kept[k] == banned[origin[k]]
    {
      assert sorted[pos[j]] in multiset(sorted);
      origin := origin + [IndexOf(banned, kept[j])];
    }
  }

  /** Which of `kept` covers each of `banned`, given the same for a reordering of `banned`. */
  lemma Owners(banned: seq<Domain>, sorted: seq<Domain>, kept: seq<Domain>, owner: seq<nat>)
      returns (bannedOwner: seq<nat>)
    requires multiset(sorted) == multiset(banned) && Covers(sorted, kept, owner) && |owner| == |sorted|
    ensures |bannedOwner| == |banned|
    ensures forall i :: 0 <= i < |banned| ==> bannedOwner[i] < |kept| && IsSubdomainOf(banned[i], kept[bannedOwner[i]])
  {
    bannedOwner := [];
    for i := 0 to |banned|
      invariant |bannedOwner| == i
      invariant forall k :: 0 <= k < i ==> bannedOwner[k] < |kept| && IsSubdomainOf(banned[k], kept[bannedOwner[k]])
    {
      assert banned[i] in multiset(sorted);
      var m := IndexOf(sorted, banned[i]);
      bannedOwner := bannedOwner + [owner[m]];
    }
  }

  /** Sorting and then absorbing keeps what the checker needs. */
  lemma AbsorbedKeeps(banned: seq<Domain>, sorted: seq<Domain>, kept: seq<Domain>, pos: seq<nat>, owner: seq<nat>)
      returns (origin: seq<nat>, bannedOwner: seq<nat>)
    requires sorted == Sort(banned)
    requires Picks(sorted, kept, pos, |sorted|) && Covers(sorted, kept, owner) && |owner| == |sorted|
    requires NoneAbsorbed(kept)
    ensures Keeps(kept, banned, origin, bannedOwner)
  {
    SortSorted(banned);
    KeptSorted(sorted, kept, pos);
    origin := Origins(banned, sorted, kept, pos);
    bannedOwner := Owners(banned, sorted, kept, owner);
  }

  class DomainChecker {
    /** `domains_`. */
    var domains: seq<Domain>
    /** The banned domains the checker was built from. */
    ghost var banned: seq<Domain>
    /** Where each kept domain stands among the banned ones. */
    ghost var origin: seq<nat>
    /** Which kept domain covers each banned one. */
    ghost var owner: seq<nat>

    ghost predicate Valid()
      reads this
    {
      Keeps(domains, banned, origin, owner)
    }

    /** Sorts the banned domains, then absorbs the subdomains of the ones kept. */
    constructor (bannedDomains: seq<Domain>)
      ensures Valid() && banned == bannedDomains
    {
      var sorted := Sort(bannedDomains);
      var kept, pos, keptOwner := AbsorbSubdomains(sorted);
      var o, w := AbsorbedKeeps(bannedDomains, sorted, kept, pos, keptOwner);
      domains, origin, owner := kept, o, w;
      banned := bannedDomains;
    }

    /** `IsSubdomain(candidate)`: the candidate is, or lies under, a banned domain. */
    function IsSubdomain(candidate: Domain): (r: bool)
      reads this
      requires Valid()
      ensures r <==> Banned(banned, candidate)
    {
      CoveredIffBanned(domains, banned, origin, owner, candidate);
      Covered(domains, candidate)
    }
  }

  /** `CheckDomains`: "good" (true) for each candidate outside every banned domain, in input order. */
  method CheckDomains(checker: DomainChecker, candidates: seq<Domain>) returns (results: seq<bool>)
    requires checker.Valid()
    ensures |results| == |candidates|
    ensures forall i :: 0 <= i < |candidates| ==> results[i] == !Banned(checker.banned, candidates[i])
  {
    results := [];
    for i := 0 to |candidates|
      invariant |results| == i
      invariant forall k :: 0 <= k < i ==> results[k] == !Banned(checker.banned, candidates[k])
    {
      var bad := checker.IsSubdomain(candidates[i]);
      results := results + [!bad];
    }
  }
}

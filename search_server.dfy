/**
 * A document search server: an inverted index from words to posting lists
 * over a base of documents (one per input line), and queries answered with
 * the five documents of highest hit count. The two versions of the server
 * differ in how the index is built (`Add` per document, or one constructor
 * over all lines) and in how the ranked head is written (`continue` or
 * `break` at the first zero hit count); both are modelled here.
 */
module SearchServer {
  import opened Wrappers
  import Strings
  import Decimal
  import ExploreKeyWords

  // Splitting into words.

  /** The number of non-space characters `s` starts with. */
  function RunLength(s: string): (n: nat)
    ensures n <= |s|
  {
    if s == [] || s[0] == ' ' then 0 else 1 + RunLength(s[1..])
  }

  /** The maximal runs of non-space characters of `line`, in order. */
  function Words(line: string): seq<string>
  {
    if line == [] then []
    else if line[0] == ' ' then Words(line[1..])
    else [line[..RunLength(line)]] + Words(line[RunLength(line)..])
  }

  /** A run of `n` non-space characters ended by a space or the end of `s` has length `n`. */
  lemma {:induction false} RunLengthIs(s: string, n: nat)
    requires n <= |s| && (forall i :: 0 <= i < n ==> s[i] != ' ') && (n < |s| ==> s[n] == ' ')
    ensures RunLength(s) == n
  {
    if n > 0 {
      RunLengthIs(s[1..], n - 1);
    }
  }

  /** Leading spaces make no words. */
  lemma {:induction false} WordsAfterSpaces(line: string, k: nat)
    requires k <= |line| && forall i :: 0 <= i < k ==> line[i] == ' '
    ensures Words(line) == Words(line[k..])
  {
    if k > 0 {
      WordsAfterSpaces(line[1..], k - 1);
      assert line[1..][k - 1..] == line[k..];
    }
  }

  /**
   * One step of `SplitIntoWords`: the first word starts at the first
   * non-space and ends at the next space or the end of the line.
   */
  lemma WordsStep(line: string, start: nat, end: nat)
    requires start < end <= |line|
    requires forall i :: 0 <= i < start ==> line[i] == ' '
    requires forall i :: start <= i < end ==> line[i] != ' '
    requires end < |line| ==> line[end] == ' '
    ensures Words(line) == [line[start..end]] + Words(line[end..])
  {
    var rest, n := line[start..], end - start;
    assert Words(line) == Words(rest) by {
      WordsAfterSpaces(line, start);
    }
    assert RunLength(rest) == n by {
      assert forall i :: 0 <= i < |rest| ==> rest[i] == line[start + i];
      RunLengthIs(rest, n);
    }
    SliceOfSlice(line, start, end);
    WordsRun(rest);
  }

  /** Slices of a suffix are slices of the whole. */
  lemma SliceOfSlice<T>(s: seq<T>, a: nat, b: nat)
    requires a <= b <= |s|
    ensures s[a..][..b - a] == s[a..b] && s[a..][b - a..] == s[b..]
  {
  }

  /** A line that starts with a non-space starts with the word of its run. */
  lemma WordsRun(s: string)
    requires s != [] && s[0] != ' '
    ensures Words(s) == [s[..RunLength(s)]] + Words(s[RunLength(s)..])
  {
  }

  /** The word found after the leading spaces by the search for the next space. */
  lemma WordFound(line: string, start: nat, found: Option<nat>)
    requires start < |line| && line[start] != ' ' && forall i :: 0 <= i < start ==> line[i] == ' '
    requires found.None? <==> ' ' !in line[start..]
    requires found.Some? ==> found.value < |line[start..]| && line[start..][found.value] == ' ' && ' ' !in line[start..][..found.value]
    ensures var end := if found.None? then |line| else start + found.value;
      start < end <= |line| && Words(line) == [line[start..end]] + Words(line[end..])
  {
    var end := if found.None? then |line| else start + found.value;
    assert forall i :: start <= i < end ==> line[i] == line[start..][i - start];
    WordsStep(line, start, end);
  }

  /** Concatenation regroups. */
  lemma Appended<T>(a: seq<T>, b: seq<T>, c: seq<T>)
    ensures (a + b) + c == a + (b + c)
  {
  }

  /** `SplitIntoWords`: the loop over a `string_view` that drops a prefix up to each space found. */
  method SplitIntoWords(line: string) returns (result: seq<string>)
    ensures result == Words(line)
  {
    result := [];
    var rest := line;
    while |rest| > 0
      invariant result + Words(rest) == Words(line)
      decreases |rest|
    {
      var start := Strings.FindFirstNot(rest, ' ');
      if start.None? {
        WordsAfterSpaces(rest, |rest|);
        break;
      }
      var found := Strings.FindChar(rest[start.value..], ' ');
      var end := if found.None? then |rest| else start.value + found.value;
      WordFound(rest, start.value, found);
      Appended(result, [rest[start.value..end]], Words(rest[end..]));
      result := result + [rest[start.value..end]];
      if end >= |rest| {
        break;
      }
      rest := rest[end..];
    }
  }

  /** Every word is a non-empty run without spaces. */
  lemma {:induction false} WordsShape(line: string)
    ensures forall i :: 0 <= i < |Words(line)| ==> Words(line)[i] != [] && ' ' !in Words(line)[i]
    decreases |line|
  {
    if line != [] {
      if line[0] == ' ' {
        WordsShape(line[1..]);
      } else {
        var n := RunLength(line);
        RunShape(line);
        WordsShape(line[n..]);
      }
    }
  }

  /** The run a line starts with holds no space, and is not empty when the line starts with a non-space. */
  lemma {:induction false} RunShape(s: string)
    ensures ' ' !in s[..RunLength(s)]
    ensures s != [] && s[0] != ' ' ==> RunLength(s) > 0
  {
    if s != [] && s[0] != ' ' {
      RunShape(s[1..]);
      assert s[..RunLength(s)] == [s[0]] + s[1..][..RunLength(s[1..])];
    }
  }

  /** Splitting words joined with single spaces gives the words back. */
  lemma {:induction false} WordsUnwords(ws: seq<string>)
    requires forall i :: 0 <= i < |ws| ==> ws[i] != [] && ' ' !in ws[i]
    ensures Words(ExploreKeyWords.Unwords(ws)) == ws
  {
    if ws != [] {
      var w := ws[0];
      var s := ExploreKeyWords.Unwords(ws);
      if |ws| == 1 {
        assert s == w;
        WordsStep(s, 0, |s|);
        assert s[|s|..] == [];
        assert s[0..|s|] == w;
      } else {
        var t := ExploreKeyWords.Unwords(ws[1..]);
        assert s == w + [' '] + t;
        assert s[..|w|] == w && s[|w|] == ' ';
        WordsStep(s, 0, |w|);
        assert s[|w|..] == [' '] + t;
        assert ([' '] + t)[1..] == t;
        assert Words(s[|w|..]) == Words(t);
        WordsUnwords(ws[1..]);
        assert ws == [w] + ws[1..];
      }
    }
  }

  // Posting lists.

  /** A posting: a document and how often the word occurs in it. */
  datatype Posting = Posting(docid: nat, count: nat)

  /** The number of times `w` occurs in `ws`. */
  function Count(ws: seq<string>, w: string): nat
  {
    if ws == [] then 0 else Count(ws[..|ws| - 1], w) + (if ws[|ws| - 1] == w then 1 else 0)
  }

  /** A word is counted exactly when it occurs. */
  lemma {:induction false} CountMember(ws: seq<string>, w: string)
    ensures Count(ws, w) > 0 <==> w in ws
  {
    if ws != [] {
      var init := ws[..|ws| - 1];
      CountMember(init, w);
      assert ws == init + [ws[|ws| - 1]];
    }
  }

  /** The number of times `w` occurs as a word of `document`. */
  function Occurrences(document: string, w: string): nat
  {
    Count(Words(document), w)
  }

  /** The posting of document `docid` for a word occurring `count` times in it: none when it does not occur. */
  function Tail(docid: nat, count: nat): seq<Posting>
  {
    if count > 0 then [Posting(docid, count)] else []
  }

  /** The posting list of `w` over `docs`: one posting per document holding `w`, by ascending id. */
  function Postings(docs: seq<string>, w: string): seq<Posting>
  {
    if docs == [] then []
    else Postings(docs[..|docs| - 1], w) + Tail(|docs| - 1, Occurrences(docs[|docs| - 1], w))
  }

  /**
   * The postings of `w` name documents by strictly ascending id, each with
   * the positive number of times it holds `w`, and every document holding
   * `w` has one.
   */
  lemma PostingsMeaning(docs: seq<string>, w: string)
    ensures var ps := Postings(docs, w);
      (forall i :: 0 <= i < |ps| ==> ps[i].docid < |docs| && 0 < ps[i].count == Occurrences(docs[ps[i].docid], w)) &&
      (forall i, j :: 0 <= i < j < |ps| ==> ps[i].docid < ps[j].docid) &&
      (forall d :: 0 <= d < |docs| && Occurrences(docs[d], w) > 0 ==> Posting(d, Occurrences(docs[d], w)) in ps)
  {
    PostingsSound(docs, w);
    PostingsComplete(docs, w);
  }

  /** Every posting of `ps` names a document of `docs` holding `w` that many times, in ascending order of ids. */
  predicate SoundPostings(docs: seq<string>, w: string, ps: seq<Posting>)
  {
    (forall i :: 0 <= i < |ps| ==> ps[i].docid < |docs| && 0 < ps[i].count == Occurrences(docs[ps[i].docid], w)) &&
    (forall i, j :: 0 <= i < j < |ps| ==> ps[i].docid < ps[j].docid)
  }

  lemma {:induction false} PostingsSound(docs: seq<string>, w: string)
    ensures SoundPostings(docs, w, Postings(docs, w))
    decreases |docs|
  {
    if docs != [] {
      var n := |docs| - 1;
      var init := docs[..n];
      PostingsSound(init, w);
      var front := Postings(init, w);
      var ps := front + Tail(n, Occurrences(docs[n], w));
      assert Postings(docs, w) == ps;
      forall i | 0 <= i < |ps|
        ensures ps[i].docid < |docs| && 0 < ps[i].count == Occurrences(docs[ps[i].docid], w)
      {
        if i < |front| {
          assert ps[i] == front[i];
          assert front[i].docid < |init|;
          assert init[front[i].docid] == docs[front[i].docid];
        }
      }
      forall i, j | 0 <= i < j < |ps|
        ensures ps[i].docid < ps[j].docid
      {
        if j < |front| {
          assert ps[i] == front[i] && ps[j] == front[j];
        } else {
          assert ps[i] == front[i];
          assert front[i].docid < |init|;
        }
      }
    }
  }

  lemma {:induction false} PostingsComplete(docs: seq<string>, w: string)
    ensures forall d :: 0 <= d < |docs| && Occurrences(docs[d], w) > 0 ==> Posting(d, Occurrences(docs[d], w)) in Postings(docs, w)
    decreases |docs|
  {
    if docs != [] {
      var init := docs[..|docs| - 1];
      PostingsComplete(init, w);
      assert forall d :: 0 <= d < |init| ==> init[d] == docs[d];
    }
  }

  /** A word no document holds has no postings. */
  lemma {:induction false} UnknownWord(docs: seq<string>, w: string)
    requires forall d :: 0 <= d < |docs| ==> w !in Words(docs[d])
    ensures Postings(docs, w) == []
    decreases |docs|
  {
    if docs != [] {
      var init := docs[..|docs| - 1];
      assert forall d :: 0 <= d < |init| ==> init[d] == docs[d];
      UnknownWord(init, w);
      CountMember(Words(docs[|docs| - 1]), w);
    }
  }

  /** The sum of the counts `ps` gives document `d`. */
  function CountFor(ps: seq<Posting>, d: nat): nat
  {
    if ps == [] then 0
    else CountFor(ps[..|ps| - 1], d) + (if ps[|ps| - 1].docid == d then ps[|ps| - 1].count else 0)
  }

  /** Over the postings of `w`, document `d` is counted as often as it holds `w`. */
  lemma {:induction false} CountForPostings(docs: seq<string>, w: string, d: nat)
    requires d < |docs|
    ensures CountFor(Postings(docs, w), d) == Occurrences(docs[d], w)
    decreases |docs|
  {
    var n := |docs| - 1;
    var init := docs[..n];
    var front := Postings(init, w);
    var tail := Tail(n, Occurrences(docs[n], w));
    var ps := front + tail;
    assert Postings(docs, w) == ps;
    if tail != [] {
      assert ps[..|ps| - 1] == front && ps[|ps| - 1] == Posting(n, Occurrences(docs[n], w));
    } else {
      assert ps == front;
    }
    if d < n {
      CountForPostings(init, w, d);
      assert init[d] == docs[d];
    } else {
      PostingsSound(init, w);
      CountForNone(front, d);
    }
  }

  /** Postings all for other documents count nothing for `d`. */
  lemma {:induction false} CountForNone(ps: seq<Posting>, d: nat)
    requires forall i :: 0 <= i < |ps| ==> ps[i].docid < d
    ensures CountFor(ps, d) == 0
    decreases |ps|
  {
    if ps != [] {
      CountForNone(ps[..|ps| - 1], d);
    }
  }

  /** The posting list `index` holds for `w`: none for a word never seen. */
  function PostingList(index: map<string, seq<Posting>>, w: string): seq<Posting>
  {
    if w in index then index[w] else []
  }

  /**
   * The loop of `Add` over the words of document `docid`: a word whose last
   * posting is already for this document has it counted up, any other
   * word gets a new posting with count 1.
   */
  method AddWords(index: map<string, seq<Posting>>, docid: nat, words: seq<string>)
    returns (r: map<string, seq<Posting>>)
    requires forall w, i :: 0 <= i < |PostingList(index, w)| ==> PostingList(index, w)[i].docid < docid
    ensures forall w :: PostingList(r, w) == PostingList(index, w) + Tail(docid, Count(words, w))
  {
    r := index;
    for k := 0 to |words|
      invariant forall w :: PostingList(r, w) == PostingList(index, w) + Tail(docid, Count(words[..k], w))
    {
      r := AddWord(index, r, docid, words[..k], words[k]);
      assert words[..k + 1] == words[..k] + [words[k]];
    }
    assert words[..|words|] == words;
  }

  /** Counting one more occurrence of `word` in the posting it gets. */
  /**
   * One word of the document: its last posting counted up when it is the
   * document's own, otherwise a new posting with a count of one.
   */
  method AddWord(index: map<string, seq<Posting>>, r: map<string, seq<Posting>>, docid: nat, counted: seq<string>, word: string)
    returns (r': map<string, seq<Posting>>)
    requires forall w, i :: 0 <= i < |PostingList(index, w)| ==> PostingList(index, w)[i].docid < docid
    requires forall w :: PostingList(r, w) == PostingList(index, w) + Tail(docid, Count(counted, w))
    ensures forall w :: PostingList(r', w) == PostingList(index, w) + Tail(docid, Count(counted + [word], w))
  {
    var list := if word in r then r[word] else [];
    LastPosting(PostingList(index, word), docid, Count(counted, word), list);
    if list != [] && list[|list| - 1].docid == docid {
      r' := r[word := list[..|list| - 1] + [Posting(docid, list[|list| - 1].count + 1)]];
    } else {
      r' := r[word := list + [Posting(docid, 1)]];
    }
    AddWordStep(index, r, r', docid, counted, word);
  }

  lemma AddWordStep(index: map<string, seq<Posting>>, r0: map<string, seq<Posting>>, r: map<string, seq<Posting>>,
                    docid: nat, counted: seq<string>, word: string)
    requires forall w :: PostingList(r0, w) == PostingList(index, w) + Tail(docid, Count(counted, w))
    requires word in r && r == r0[word := r[word]]
    requires r[word] == PostingList(index, word) + Tail(docid, Count(counted, word) + 1)
    ensures forall w :: PostingList(r, w) == PostingList(index, w) + Tail(docid, Count(counted + [word], w))
  {
    assert (counted + [word])[..|counted|] == counted;
  }

  /**
   * A list of earlier documents' postings followed by this document's
   * posting, if any: the last posting is this document's exactly when it has one.
   */
  lemma LastPosting(base: seq<Posting>, docid: nat, c: nat, list: seq<Posting>)
    requires forall i :: 0 <= i < |base| ==> base[i].docid < docid
    requires list == base + Tail(docid, c)
    ensures list != [] && list[|list| - 1].docid == docid ==>
              list[..|list| - 1] + [Posting(docid, list[|list| - 1].count + 1)] == base + Tail(docid, c + 1)
    ensures !(list != [] && list[|list| - 1].docid == docid) ==> list + [Posting(docid, 1)] == base + Tail(docid, c + 1)
  {
    if c == 0 {
      assert list == base;
    } else {
      assert list[..|list| - 1] == base;
    }
  }

  /** Every posting over `docs` is for one of them. */
  lemma PostingsBelow(docs: seq<string>)
    ensures forall w, i :: 0 <= i < |Postings(docs, w)| ==> Postings(docs, w)[i].docid < |docs|
  {
    forall w, i | 0 <= i < |Postings(docs, w)|
      ensures Postings(docs, w)[i].docid < |docs|
    {
      PostingsMeaning(docs, w);
    }
  }

  /**
   * `InvertedIndex`: the documents and the posting list of each word seen.
   * Document `k` is the `k`-th line added.
   */
  class InvertedIndex {
    var index: map<string, seq<Posting>>
    var docs: seq<string>

    /** Each word's posting list is the one its documents call for. */
    ghost predicate Valid()
      reads this
    {
      forall w :: Lookup(w) == Postings(docs, w)
    }

    /** An empty index. */
    constructor Empty()
      ensures Valid() && docs == []
    {
      index, docs := map[], [];
    }

    /** `InvertedIndex(document_input)`: every line of the input, in turn, as a document. */
    constructor (lines: seq<string>)
      ensures Valid() && docs == lines
    {
      index, docs := map[], [];
      new;
      for i := 0 to |lines|
        invariant Valid() && docs == lines[..i]
      {
        Add(lines[i]);
        assert lines[..i + 1] == lines[..i] + [lines[i]];
      }
      assert lines[..|lines|] == lines;
    }

    /** `Lookup`: the posting list of `w`, empty for a word never seen. */
    function Lookup(w: string): seq<Posting>
      reads this
    {
      PostingList(index, w)
    }

    /**
     * `Add`: the document gets the next id; each of its words gets a
     * posting for it, counted up on every further occurrence.
     */
    method Add(document: string)
      requires Valid()
      modifies this
      ensures Valid() && docs == old(docs) + [document]
    {
      ghost var before := docs;
      PostingsBelow(before);
      docs := docs + [document];
      var docid := |docs| - 1;
      var words := SplitIntoWords(docs[docid]);
      assert forall w :: PostingList(index, w) == Postings(before, w);
      index := AddWords(index, docid, words);
      assert docs[..|docs| - 1] == before;
    }
  }

  /** After `Add`, every word of the document ends with a posting for it holding its count there. */
  lemma AddedLast(docs: seq<string>, w: string)
    requires docs != [] && w in Words(docs[|docs| - 1])
    ensures var ps := Postings(docs, w);
      ps != [] && ps[|ps| - 1] == Posting(|docs| - 1, Occurrences(docs[|docs| - 1], w))
  {
    CountMember(Words(docs[|docs| - 1]), w);
  }

  // Ranking.

  /** The number of hits of document `d` for the query words: each word's occurrences, counted per query word. */
  function HitCount(docs: seq<string>, words: seq<string>, d: nat): nat
    requires d < |docs|
  {
    if words == [] then 0
    else HitCount(docs, words[..|words| - 1], d) + Occurrences(docs[d], words[|words| - 1])
  }

  /** The entry `search_results[d]` holds: `(d, hits)`, or `(0, 0)` while nothing was found. */
  function Entry(d: nat, hits: nat): Posting
  {
    if hits > 0 then Posting(d, hits) else Posting(0, 0)
  }

  /** The comparator: more hits first, then the lower id. */
  predicate Before(a: Posting, b: Posting)
  {
    a.count > b.count || (a.count == b.count && a.docid < b.docid)
  }

  /**
   * `top` is the answer to a query: at most five documents with a positive
   * hit count, each with its hit count, strictly in comparator order, and
   * any other document with hits is ranked after all five.
   */
  predicate Ranked(docs: seq<string>, words: seq<string>, top: seq<Posting>)
  {
    |top| <= 5 &&
    (forall i :: 0 <= i < |top| ==> top[i].docid < |docs| && 0 < top[i].count == HitCount(docs, words, top[i].docid)) &&
    (forall i, j :: 0 <= i < j < |top| ==> Before(top[i], top[j])) &&
    (forall d :: 0 <= d < |docs| && HitCount(docs, words, d) > 0 && Posting(d, HitCount(docs, words, d)) !in top ==>
       |top| == 5 && forall i :: 0 <= i < 5 ==> Before(top[i], Posting(d, HitCount(docs, words, d))))
  }

  /**
   * `partial_sort` of the first `m` positions: the result is a permutation
   * whose first `m` entries are in comparator order and come before the rest.
   */
  method PartialSort(s: seq<Posting>, m: nat) returns (r: seq<Posting>)
    requires m <= |s|
    ensures |r| == |s| && multiset(r) == multiset(s)
    ensures forall i, j :: 0 <= i < j < m ==> !Before(r[j], r[i])
    ensures forall i, j :: 0 <= i < m <= j < |r| ==> !Before(r[j], r[i])
  {
    r := s;
    for i := 0 to m
      invariant |r| == |s| && multiset(r) == multiset(s)
      invariant forall a, b :: 0 <= a < b < i ==> !Before(r[b], r[a])
      invariant forall a, b :: 0 <= a < i <= b < |r| ==> !Before(r[b], r[a])
    {
      var best := Best(r, i);
      SwapInto(r, i, best);
      r := r[i := r[best]][best := r[i]];
    }
  }

  /** The position of an entry of `r[i..]` that no other entry of `r[i..]` comes before. */
  method Best(r: seq<Posting>, i: nat) returns (best: nat)
    requires i < |r|
    ensures i <= best < |r| && forall b :: i <= b < |r| ==> !Before(r[b], r[best])
  {
    best := i;
    for j := i + 1 to |r|
      invariant i <= best < |r|
      invariant forall b :: i <= b < j ==> !Before(r[b], r[best])
    {
      if Before(r[j], r[best]) {
        best := j;
      }
    }
  }

  /**
   * Swapping the best remaining entry into position `i` keeps the entries
   * and extends the ordered prefix by one.
   */
  lemma SwapInto(r: seq<Posting>, i: nat, best: nat)
    requires i <= best < |r|
    requires forall a, b :: 0 <= a < b < i ==> !Before(r[b], r[a])
    requires forall a, b :: 0 <= a < i <= b < |r| ==> !Before(r[b], r[a])
    requires forall b :: i <= b < |r| ==> !Before(r[b], r[best])
    ensures var t := r[i := r[best]][best := r[i]];
      |t| == |r| && multiset(t) == multiset(r) &&
      (forall a, b :: 0 <= a < b < i + 1 ==> !Before(t[b], t[a])) &&
      (forall a, b :: 0 <= a < i + 1 <= b < |t| ==> !Before(t[b], t[a]))
  {
    var t := r[i := r[best]][best := r[i]];
    SwapAt(r, i, best);
    forall a, b | 0 <= a < b < i + 1
      ensures !Before(t[b], t[a])
    {
      if b < i {
        assert t[a] == r[a] && t[b] == r[b];
      } else {
        assert t[a] == r[a] && t[b] == r[best];
      }
    }
    forall a, b | 0 <= a < i + 1 <= b < |t|
      ensures !Before(t[b], t[a])
    {
      var x := if b == best then i else b;
      assert t[b] == r[x] && i <= x;
    }
  }

  /** What a swap leaves at each position, and that it keeps the entries. */
  lemma SwapAt(r: seq<Posting>, i: nat, best: nat)
    requires i <= best < |r|
    ensures var t := r[i := r[best]][best := r[i]];
      |t| == |r| && multiset(t) == multiset(r) &&
      forall k :: 0 <= k < |t| ==> t[k] == if k == i then r[best] else if k == best then r[i] else r[k]
  {
  }

  /** The non-zero entries of the head, in order: what the first version writes (`continue`). */
  function NonZero(head: seq<Posting>): (r: seq<Posting>)
    ensures |r| <= |head|
  {
    if head == [] then []
    else (if head[0].count == 0 then [] else [head[0]]) + NonZero(head[1..])
  }

  /** The head up to its first zero entry: what the second version writes (`break`). */
  function UntilZero(head: seq<Posting>): seq<Posting>
  {
    if head == [] || head[0].count == 0 then [] else [head[0]] + UntilZero(head[1..])
  }

  /** The entries kept are exactly the non-zero ones. */
  lemma {:induction false} NonZeroMembers(head: seq<Posting>)
    ensures forall x :: x in NonZero(head) <==> x in head && x.count > 0
  {
    if head != [] {
      NonZeroMembers(head[1..]);
      assert head == [head[0]] + head[1..];
    }
  }

  /** On a head in comparator order the zero entries come last, so `continue` and `break` write the same. */
  lemma {:induction false} NonZeroUntilZero(head: seq<Posting>)
    requires forall i, j :: 0 <= i < j < |head| ==> !Before(head[j], head[i])
    ensures NonZero(head) == UntilZero(head)
  {
    if head != [] {
      if head[0].count == 0 {
        forall j | 0 <= j < |head[1..]|
          ensures head[1..][j].count == 0
        {
          assert !Before(head[j + 1], head[0]);
        }
        NonZeroNone(head[1..]);
      } else {
        NonZeroUntilZero(head[1..]);
      }
    }
  }

  /** A head of zero entries writes nothing. */
  lemma {:induction false} NonZeroNone(head: seq<Posting>)
    requires forall i :: 0 <= i < |head| ==> head[i].count == 0
    ensures NonZero(head) == []
  {
    if head != [] {
      NonZeroNone(head[1..]);
    }
  }

  /** A head whose entries are all non-zero is kept whole. */
  lemma {:induction false} NonZeroAll(head: seq<Posting>)
    requires forall i :: 0 <= i < |head| ==> head[i].count > 0
    ensures NonZero(head) == head
  {
    if head != [] {
      NonZeroAll(head[1..]);
    }
  }

  /** Non-zero entries that are distinct and in comparator order stay strictly ordered. */
  lemma {:induction false} NonZeroStrict(head: seq<Posting>)
    requires forall i, j :: 0 <= i < j < |head| ==> !Before(head[j], head[i])
    requires forall i, j :: 0 <= i < j < |head| && head[i].count > 0 ==> head[i] != head[j]
    ensures forall i, j :: 0 <= i < j < |NonZero(head)| ==> Before(NonZero(head)[i], NonZero(head)[j])
  {
    if head != [] {
      var rest := head[1..];
      NonZeroStrict(rest);
      NonZeroMembers(rest);
      if head[0].count > 0 {
        forall y | y in NonZero(rest)
          ensures Before(head[0], y)
        {
          var j :| 0 <= j < |rest| && rest[j] == y;
          assert head[j + 1] == y;
        }
      }
    }
  }

  /** In a sequence whose non-zero entries are pairwise distinct, each occurs at most once. */
  lemma {:induction false} AtMostOnce(s: seq<Posting>, x: Posting)
    requires x.count > 0
    requires forall i, j :: 0 <= i < j < |s| && s[i].count > 0 ==> s[i] != s[j]
    ensures multiset(s)[x] <= 1
  {
    if s != [] {
      var rest := s[1..];
      AtMostOnce(rest, x);
      assert s == [s[0]] + rest;
      if s[0] == x {
        assert x !in rest;
      }
    }
  }

  /** A value at two positions occurs at least twice. */
  lemma TwoOccurrences(s: seq<Posting>, i: nat, j: nat)
    requires i < j < |s| && s[i] == s[j]
    ensures multiset(s)[s[i]] >= 2
  {
    assert s == s[..i] + [s[i]] + s[i + 1..j] + [s[j]] + s[j + 1..];
  }

  /** Pairwise distinct non-zero entries stay so under permutation. */
  lemma DistinctPermutation(s: seq<Posting>, t: seq<Posting>)
    requires multiset(s) == multiset(t)
    requires forall i, j :: 0 <= i < j < |s| && s[i].count > 0 ==> s[i] != s[j]
    ensures forall i, j :: 0 <= i < j < |t| && t[i].count > 0 ==> t[i] != t[j]
  {
    forall i, j | 0 <= i < j < |t| && t[i].count > 0
      ensures t[i] != t[j]
    {
      if t[i] == t[j] {
        TwoOccurrences(t, i, j);
        AtMostOnce(s, t[i]);
      }
    }
  }

  /** The accumulated results: entry `d` is document `d` with its hit count, or `(0, 0)`. */
  predicate Accumulated(docs: seq<string>, words: seq<string>, results: seq<Posting>)
  {
    |results| == |docs| && forall d :: 0 <= d < |docs| ==> results[d] == Entry(d, HitCount(docs, words, d))
  }

  /** The non-zero accumulated entries are pairwise distinct. */
  lemma AccumulatedDistinct(docs: seq<string>, words: seq<string>, results: seq<Posting>)
    requires Accumulated(docs, words, results)
    ensures forall i, j :: 0 <= i < j < |results| && results[i].count > 0 ==> results[i] != results[j]
  {
  }

  /**
   * Sorting the first `min(5, n)` accumulated entries and keeping the
   * non-zero ones answers the query.
   */
  lemma RankedHead(docs: seq<string>, words: seq<string>, results: seq<Posting>, sorted: seq<Posting>, m: nat)
    requires Accumulated(docs, words, results)
    requires m == if |results| < 5 then |results| else 5
    requires |sorted| == |results| && multiset(sorted) == multiset(results)
    requires forall i, j :: 0 <= i < j < m ==> !Before(sorted[j], sorted[i])
    requires forall i, j :: 0 <= i < m <= j < |sorted| ==> !Before(sorted[j], sorted[i])
    ensures Ranked(docs, words, NonZero(sorted[..m]))
  {
    var head := sorted[..m];
    assert sorted == head + sorted[m..];
    AccumulatedDistinct(docs, words, results);
    DistinctPermutation(results, sorted);
    NonZeroStrict(head);
    HeadEntries(docs, words, results, head);
    HeadComplete(docs, words, results, sorted, m);
  }

  /** The non-zero entries of a head drawn from the accumulated results are documents with their hit counts. */
  lemma HeadEntries(docs: seq<string>, words: seq<string>, results: seq<Posting>, head: seq<Posting>)
    requires Accumulated(docs, words, results)
    requires multiset(head) <= multiset(results)
    ensures var top := NonZero(head);
      forall i :: 0 <= i < |top| ==> top[i].docid < |docs| && 0 < top[i].count == HitCount(docs, words, top[i].docid)
  {
    var top := NonZero(head);
    NonZeroMembers(head);
    forall i | 0 <= i < |top|
      ensures top[i].docid < |docs| && 0 < top[i].count == HitCount(docs, words, top[i].docid)
    {
      assert top[i] in head;
      assert top[i] in multiset(head);
      assert top[i] in multiset(results);
      var d :| 0 <= d < |results| && results[d] == top[i];
    }
  }

  /** A document with hits left out of the head comes after all five entries of a full head. */
  lemma HeadComplete(docs: seq<string>, words: seq<string>, results: seq<Posting>, sorted: seq<Posting>, m: nat)
    requires Accumulated(docs, words, results)
    requires m == if |results| < 5 then |results| else 5
    requires |sorted| == |results| && multiset(sorted) == multiset(results)
    requires forall i, j :: 0 <= i < m <= j < |sorted| ==> !Before(sorted[j], sorted[i])
    ensures var top := NonZero(sorted[..m]);
      forall d :: 0 <= d < |docs| && HitCount(docs, words, d) > 0 && Posting(d, HitCount(docs, words, d)) !in top ==>
        |top| == 5 && forall i :: 0 <= i < 5 ==> Before(top[i], Posting(d, HitCount(docs, words, d)))
  {
    var top := NonZero(sorted[..m]);
    forall d | 0 <= d < |docs| && HitCount(docs, words, d) > 0 && Posting(d, HitCount(docs, words, d)) !in top
      ensures |top| == 5 && forall i :: 0 <= i < 5 ==> Before(top[i], Posting(d, HitCount(docs, words, d)))
    {
      var e := Posting(d, HitCount(docs, words, d));
      assert results[d] == e;
      Permuted(results, sorted, d);
      HeadCompleteAt(sorted, m, e);
    }
  }

  /** An entry of a permutation of `results` sits at some position of `sorted`. */
  lemma Permuted(results: seq<Posting>, sorted: seq<Posting>, d: nat)
    requires d < |results| && multiset(sorted) == multiset(results)
    ensures results[d] in sorted
  {
    assert results[d] in multiset(results);
  }

  /** A non-zero entry past the sorted head comes after all of a full head's entries, which are then all non-zero. */
  lemma HeadCompleteAt(sorted: seq<Posting>, m: nat, e: Posting)
    requires m <= |sorted| && (m == 5 || m == |sorted|)
    requires forall i, j :: 0 <= i < m <= j < |sorted| ==> !Before(sorted[j], sorted[i])
    requires e in sorted && e.count > 0 && e !in NonZero(sorted[..m])
    ensures var top := NonZero(sorted[..m]);
      |top| == 5 && forall i :: 0 <= i < 5 ==> Before(top[i], e)
  {
    var head := sorted[..m];
    var p :| 0 <= p < |sorted| && sorted[p] == e;
    NonZeroMembers(head);
    assert e !in head;
    assert p >= m by {
      assert forall k :: 0 <= k < m ==> head[k] == sorted[k];
    }
    NonZeroAll(head);
  }

  // Writing the results.

  /** One result as written: ` {docid: D, hitcount: H}`. */
  function EntryText(p: Posting): string
  {
    " {docid: " + Decimal.NatToString(p.docid) + ", hitcount: " + Decimal.NatToString(p.count) + "}"
  }

  function EntriesText(ps: seq<Posting>): string
  {
    if ps == [] then "" else EntryText(ps[0]) + EntriesText(ps[1..])
  }

  /** The output line for a query: the query, a colon, the results written, and the end of line. */
  function ResultLine(query: string, top: seq<Posting>): string
  {
    query + ":" + EntriesText(top) + "\n"
  }

  lemma EntriesTextSnoc(ps: seq<Posting>, p: Posting)
    ensures EntriesText(ps + [p]) == EntriesText(ps) + EntryText(p)
  {
    if ps != [] {
      assert (ps + [p])[1..] == ps[1..] + [p];
      EntriesTextSnoc(ps[1..], p);
    } else {
      assert [p][1..] == [];
    }
  }

  /** The first version's output loop: every non-zero entry of the head (`continue`). */
  /** Writing entry `i` of the head, or skipping it when zero, writes the non-zero entries of one more position. */
  lemma WrittenStep(head: seq<Posting>, i: nat)
    requires i < |head|
    ensures head[i].count == 0 ==> EntriesText(NonZero(head[..i + 1])) == EntriesText(NonZero(head[..i]))
    ensures head[i].count != 0 ==> EntriesText(NonZero(head[..i + 1])) == EntriesText(NonZero(head[..i])) + EntryText(head[i])
  {
    NonZeroSnoc(head, i);
    if head[i].count != 0 {
      EntriesTextSnoc(NonZero(head[..i]), head[i]);
    } else {
      assert NonZero(head[..i]) + [] == NonZero(head[..i]);
    }
  }

  method WriteNonZero(query: string, head: seq<Posting>) returns (line: string)
    ensures line == ResultLine(query, NonZero(head))
  {
    line := query + ":";
    for i := 0 to |head|
      invariant line == query + ":" + EntriesText(NonZero(head[..i]))
    {
      WrittenStep(head, i);
      if head[i].count == 0 {
        continue;
      }
      Appended(query + ":", EntriesText(NonZero(head[..i])), EntryText(head[i]));
      line := line + EntryText(head[i]);
    }
    assert head[..|head|] == head;
    line := line + "\n";
  }

  lemma {:induction false} NonZeroAppend(a: seq<Posting>, b: seq<Posting>)
    ensures NonZero(a + b) == NonZero(a) + NonZero(b)
  {
    if a != [] {
      assert (a + b)[1..] == a[1..] + b;
      NonZeroAppend(a[1..], b);
    } else {
      assert a + b == b;
    }
  }

  lemma NonZeroSnoc(head: seq<Posting>, i: nat)
    requires i < |head|
    ensures NonZero(head[..i + 1]) == NonZero(head[..i]) + (if head[i].count == 0 then [] else [head[i]])
  {
    assert head[..i + 1] == head[..i] + [head[i]];
    NonZeroAppend(head[..i], [head[i]]);
    assert [head[i]][1..] == [];
  }

  /** The second version's output loop: the entries of the head up to the first zero (`break`). */
  method WriteUntilZero(query: string, head: seq<Posting>) returns (line: string)
    ensures line == ResultLine(query, UntilZero(head))
  {
    line := query + ":";
    var i := 0;
    while i < |head|
      invariant 0 <= i <= |head|
      invariant line + EntriesText(UntilZero(head[i..])) == query + ":" + EntriesText(UntilZero(head))
    {
      if head[i].count == 0 {
        break;
      }
      assert UntilZero(head[i..]) == [head[i]] + UntilZero(head[i + 1..]) by {
        assert head[i..][1..] == head[i + 1..];
      }
      line := line + EntryText(head[i]);
      i := i + 1;
    }
    assert head[|head|..] == [];
    line := line + "\n";
  }

  /** The accumulated results and the postings of the next word meet what adding its counts needs. */
  lemma AddCountsReady(docs: seq<string>, words: seq<string>, results: seq<Posting>, w: string, postings: seq<Posting>)
    requires Accumulated(docs, words, results) && postings == Postings(docs, w)
    ensures (forall i :: 0 <= i < |postings| ==> postings[i].docid < |results| && postings[i].count > 0) &&
      (forall d :: 0 <= d < |results| ==> results[d] == Entry(d, results[d].count))
  {
    PostingsSound(docs, w);
  }

  /** Adding the counts of the next word's postings accumulates one more word. */
  lemma AccumulatedStep(docs: seq<string>, words: seq<string>, k: nat, results: seq<Posting>, added: seq<Posting>)
    requires k < |words| && Accumulated(docs, words[..k], results)
    requires |added| == |results|
    requires forall d :: 0 <= d < |added| ==> added[d] == Entry(d, results[d].count + CountFor(Postings(docs, words[k]), d))
    ensures Accumulated(docs, words[..k + 1], added)
  {
    var next := words[..k + 1];
    assert next[..k] == words[..k] && next[k] == words[k];
    forall d | 0 <= d < |docs|
      ensures added[d] == Entry(d, HitCount(docs, next, d))
    {
      HitCountStep(docs, next, d);
      CountForPostings(docs, words[k], d);
      assert results[d] == Entry(d, HitCount(docs, words[..k], d));
    }
  }

  /** The hits of one more word add that word's occurrences. */
  lemma HitCountStep(docs: seq<string>, words: seq<string>, d: nat)
    requires d < |docs| && words != []
    ensures HitCount(docs, words, d) == HitCount(docs, words[..|words| - 1], d) + Occurrences(docs[d], words[|words| - 1])
  {
  }

  /**
   * The inner loop over one word's postings: each posting's document gets
   * its entry set to it and the posting's count added.
   */
  method AddCounts(results: seq<Posting>, postings: seq<Posting>) returns (r: seq<Posting>)
    requires forall i :: 0 <= i < |postings| ==> postings[i].docid < |results| && postings[i].count > 0
    requires forall d :: 0 <= d < |results| ==> results[d] == Entry(d, results[d].count)
    ensures |r| == |results|
    ensures forall d :: 0 <= d < |r| ==> r[d] == Entry(d, results[d].count + CountFor(postings, d))
  {
    r := results;
    for j := 0 to |postings|
      invariant |r| == |results|
      invariant forall d :: 0 <= d < |r| ==> r[d] == Entry(d, results[d].count + CountFor(postings[..j], d))
    {
      var p := postings[j];
      assert postings[..j + 1][..j] == postings[..j];
      r := r[p.docid := Posting(p.docid, r[p.docid].count + p.count)];
    }
    assert postings[..|postings|] == postings;
  }

  /** `line` is the answer to `query`: the query, a colon and the ranked entries of its words. */
  ghost predicate Answered(docs: seq<string>, query: string, line: string)
  {
    exists top :: Ranked(docs, Words(query), top) && line == ResultLine(query, top)
  }

  // The server.

  /** `SearchServer`: one inverted index, replaced as a whole on an update. */
  class SearchServer {
    var index: InvertedIndex

    ghost predicate Valid()
      reads this, index
    {
      index.Valid()
    }

    /** `SearchServer(document_input)`: the index of the input lines. */
    constructor (lines: seq<string>)
      ensures Valid() && index.docs == lines
    {
      index := new InvertedIndex.Empty();
      new;
      UpdateDocumentBase(lines);
    }

    /** The first version's `UpdateDocumentBase`: a new index, each line added, replacing the old one. */
    method UpdateDocumentBase(lines: seq<string>)
      modifies this
      ensures Valid() && fresh(index) && index.docs == lines
    {
      var newIndex := new InvertedIndex.Empty();
      for i := 0 to |lines|
        invariant fresh(newIndex) && newIndex.Valid() && newIndex.docs == lines[..i]
      {
        newIndex.Add(lines[i]);
        assert lines[..i + 1] == lines[..i] + [lines[i]];
      }
      assert lines[..|lines|] == lines;
      index := newIndex;
    }

    /** The second version's `UpdateDocumentBaseSingleThread`: the index built from the input, swapped in. */
    method UpdateDocumentBaseSingleThread(lines: seq<string>)
      modifies this
      ensures Valid() && fresh(index) && index.docs == lines
    {
      var newIndex := new InvertedIndex(lines);
      index := newIndex;
    }

    /**
     * The hit counts of one query: `search_results` reset to `(0, 0)` per
     * document, then for each query word and each of its postings the
     * document's entry set to it and its count added.
     */
    method Accumulate(words: seq<string>) returns (results: seq<Posting>)
      requires Valid()
      ensures Accumulated(index.docs, words, results)
    {
      results := seq(|index.docs|, _ => Posting(0, 0));
      for k := 0 to |words|
        invariant Accumulated(index.docs, words[..k], results)
      {
        results := AddWordCounts(words, k, results);
      }
      assert words[..|words|] == words;
    }

    /** One query word: the counts of its postings added to the results. */
    method AddWordCounts(words: seq<string>, k: nat, results: seq<Posting>) returns (added: seq<Posting>)
      requires Valid() && k < |words| && Accumulated(index.docs, words[..k], results)
      ensures Accumulated(index.docs, words[..k + 1], added)
    {
      var postings := index.Lookup(words[k]);
      AddCountsReady(index.docs, words[..k], results, words[k], postings);
      added := AddCounts(results, postings);
      AccumulatedStep(index.docs, words, k, results, added);
    }

    /** The first version's answer to one query: the head sorted, then its non-zero entries written. */
    method Answer(query: string) returns (line: string, ghost top: seq<Posting>)
      requires Valid()
      ensures Ranked(index.docs, Words(query), top) && line == ResultLine(query, top)
    {
      var words := SplitIntoWords(query);
      var results := Accumulate(words);
      var m := if |results| < 5 then |results| else 5;
      var sorted := PartialSort(results, m);
      RankedHead(index.docs, words, results, sorted, m);
      top := NonZero(sorted[..m]);
      line := WriteNonZero(query, sorted[..m]);
    }

    /** The second version's answer to one query: the head sorted, then written up to its first zero entry. */
    method AnswerSingleThread(query: string) returns (line: string, ghost top: seq<Posting>)
      requires Valid()
      ensures Ranked(index.docs, Words(query), top) && line == ResultLine(query, top)
    {
      var words := SplitIntoWords(query);
      var results := Accumulate(words);
      var m := if |results| < 5 then |results| else 5;
      var sorted := PartialSort(results, m);
      RankedHead(index.docs, words, results, sorted, m);
      NonZeroUntilZero(sorted[..m]);
      top := UntilZero(sorted[..m]);
      line := WriteUntilZero(query, sorted[..m]);
    }

    /** The first version's `AddQueriesStream`: one output line per query line. */
    method AddQueriesStream(queries: seq<string>) returns (output: seq<string>)
      requires Valid()
      ensures |output| == |queries|
      ensures forall i :: 0 <= i < |queries| ==> Answered(index.docs, queries[i], output[i])
    {
      output := [];
      for i := 0 to |queries|
        invariant |output| == i
        invariant forall k :: 0 <= k < i ==> Answered(index.docs, queries[k], output[k])
      {
        var line, top := Answer(queries[i]);
        assert Answered(index.docs, queries[i], line) by {
          assert Ranked(index.docs, Words(queries[i]), top) && line == ResultLine(queries[i], top);
        }
        output := output + [line];
      }
    }

    /** The second version's `AddQueriesStreamSingleThread`: one output line per query line. */
    method AddQueriesStreamSingleThread(queries: seq<string>) returns (output: seq<string>)
      requires Valid()
      ensures |output| == |queries|
      ensures forall i :: 0 <= i < |queries| ==> Answered(index.docs, queries[i], output[i])
    {
      output := [];
      for i := 0 to |queries|
        invariant |output| == i
        invariant forall k :: 0 <= k < i ==> Answered(index.docs, queries[k], output[k])
      {
        var line, top := AnswerSingleThread(queries[i]);
        assert Answered(index.docs, queries[i], line) by {
          assert Ranked(index.docs, Words(queries[i]), top) && line == ResultLine(queries[i], top);
        }
        output := output + [line];
      }
    }
  }
}

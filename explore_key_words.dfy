/**
 * Keyword statistics: how often each key word occurs as a space-separated
 * token of a text, counted line by line and summed with `Stats::operator+=`.
 */
module ExploreKeyWords {
  import Strings
  import opened Wrappers

  type Counts = map<string, int>

  /** `m[w]` as `operator[]` reads it: a missing word counts 0. */
  function Get(m: Counts, w: string): int
  {
    if w in m then m[w] else 0
  }

  /** The pointwise sum `+=` leaves behind: every word of either side, counts added. */
  function Merge(a: Counts, b: Counts): (r: Counts)
    ensures r.Keys == a.Keys + b.Keys
    ensures forall w :: Get(r, w) == Get(a, w) + Get(b, w)
  {
    map w | w in a.Keys + b.Keys :: Get(a, w) + Get(b, w)
  }

  lemma MergeCommutative(a: Counts, b: Counts)
    ensures Merge(a, b) == Merge(b, a)
  {
    forall w | w in Merge(a, b) ensures Merge(a, b)[w] == Merge(b, a)[w] {
      assert Get(Merge(a, b), w) == Get(Merge(b, a), w);
    }
  }

  lemma MergeAssociative(a: Counts, b: Counts, c: Counts)
    ensures Merge(Merge(a, b), c) == Merge(a, Merge(b, c))
  {
    var l, r := Merge(Merge(a, b), c), Merge(a, Merge(b, c));
    forall w | w in l ensures l[w] == r[w] {
      assert Get(l, w) == Get(r, w);
    }
  }

  lemma MergeEmpty(a: Counts)
    ensures Merge(a, map[]) == a
  {
    forall w | w in a ensures Merge(a, map[])[w] == a[w] {
      assert Get(Merge(a, map[]), w) == Get(a, w);
    }
  }

  class Stats {
    var wordFrequences: Counts

    constructor ()
      ensures wordFrequences == map[]
    {
      wordFrequences := map[];
    }

    /** `operator+=`: adds the counts of `other`, word by word. */
    method AddAssign(other: Stats)
      modifies this
      ensures wordFrequences == Merge(old(wordFrequences), old(other.wordFrequences))
    {
      var source := other.wordFrequences;
      var todo := source.Keys;
      while todo != {}
        invariant todo <= source.Keys
        invariant wordFrequences.Keys == old(wordFrequences).Keys + (source.Keys - todo)
        invariant forall w :: Get(wordFrequences, w) == Get(old(wordFrequences), w) + (if w in todo then 0 else Get(source, w))
        decreases todo
      {
        var word :| word in todo;
        wordFrequences := wordFrequences[word := Get(wordFrequences, word) + source[word]];
        todo := todo - {word};
      }
      var merged := Merge(old(wordFrequences), source);
      forall w | w in merged ensures merged[w] == wordFrequences[w] {
        assert Get(merged, w) == Get(wordFrequences, w);
      }
    }
  }

  // Tokens of a line.

  /** The pieces of `s` between single spaces; a final space yields no empty piece. */
  function Fields(s: string): seq<string>
    decreases |s|
  {
    if s == [] then []
    else match Strings.FindChar(s, ' ')
      case None => [s]
      case Some(pos) => [s[..pos]] + Fields(s[pos + 1..])
  }

  /** The tokens `ExploreLine` looks at: the fields after the leading spaces. */
  function Tokens(line: string): seq<string>
  {
    match Strings.FindFirstNot(line, ' ')
    case None => []
    case Some(start) => Fields(line[start..])
  }

  /** One more occurrence of `word`, when it is a key word. */
  function Bump(keyWords: set<string>, m: Counts, word: string): Counts
  {
    if word in keyWords then m[word := Get(m, word) + 1] else m
  }

  /** `acc` with the key words among `words` counted in. */
  function Tally(keyWords: set<string>, acc: Counts, words: seq<string>): Counts
    decreases |words|
  {
    if words == [] then acc else Tally(keyWords, Bump(keyWords, acc, words[0]), words[1..])
  }

  /** Exactly the key words among `words` are added, each as often as it occurs. */
  lemma {:induction false} TallyMeaning(keyWords: set<string>, acc: Counts, words: seq<string>)
    ensures Tally(keyWords, acc, words).Keys == acc.Keys + (set w | w in words && w in keyWords)
    ensures forall w :: Get(Tally(keyWords, acc, words), w) ==
                        Get(acc, w) + (if w in keyWords then multiset(words)[w] else 0)
    decreases |words|
  {
    if words != [] {
      assert words == [words[0]] + words[1..];
      TallyMeaning(keyWords, Bump(keyWords, acc, words[0]), words[1..]);
    }
  }

  /** The field starting `s` and the fields after it. */
  lemma FieldsStep(s: string, word: string, end: Option<nat>)
    requires s != [] && end == Strings.FindChar(s, ' ')
    requires word == if end.None? then s else s[..end.value]
    ensures end.None? ==> Fields(s) == [word]
    ensures end.Some? ==> Fields(s) == [word] + Fields(s[end.value + 1..])
  {
    if end.Some? {
      FieldsAt(s, end.value);
    }
  }

  lemma FieldsAt(s: string, pos: nat)
    requires Strings.FindChar(s, ' ') == Some(pos)
    ensures Fields(s) == [s[..pos]] + Fields(s[pos + 1..])
  {
  }

  /** Counting the fields of `s` is counting its first field, then the fields after it. */
  lemma TallyStep(keyWords: set<string>, acc: Counts, s: string, word: string, end: Option<nat>)
    requires s != [] && end == Strings.FindChar(s, ' ')
    requires word == if end.None? then s else s[..end.value]
    ensures end.None? ==> Tally(keyWords, acc, Fields(s)) == Bump(keyWords, acc, word)
    ensures end.Some? ==>
      Tally(keyWords, acc, Fields(s)) == Tally(keyWords, Bump(keyWords, acc, word), Fields(s[end.value + 1..]))
  {
    FieldsStep(s, word, end);
    var later := if end.None? then [] else Fields(s[end.value + 1..]);
    assert ([word] + later)[1..] == later;
  }

  /** What `ExploreLine` counts in one line. */
  function LineStats(keyWords: set<string>, line: string): Counts
  {
    Tally(keyWords, map[], Tokens(line))
  }

  /** Only key words are counted, each as often as it occurs as a token, and never 0 times. */
  lemma LineStatsMeaning(keyWords: set<string>, line: string)
    ensures LineStats(keyWords, line).Keys <= keyWords
    ensures forall w :: w in LineStats(keyWords, line) ==> LineStats(keyWords, line)[w] >= 1
    ensures forall w :: w in keyWords ==> Get(LineStats(keyWords, line), w) == multiset(Tokens(line))[w]
  {
    var r := LineStats(keyWords, line);
    TallyMeaning(keyWords, map[], Tokens(line));
    forall w | w in r ensures r[w] >= 1 {
      assert Get(r, w) == multiset(Tokens(line))[w];
    }
  }

  /** `ExploreLine`: walks the line from token start to token start. */
  method ExploreLine(keyWords: set<string>, line: string) returns (result: Stats)
    ensures fresh(result) && result.wordFrequences == LineStats(keyWords, line)
  {
    result := new Stats();
    var counts := CountTokens(keyWords, line);
    result.wordFrequences := counts;
  }

  /** The loop of `ExploreLine`, on the map `result.word_frequences`. */
  method CountTokens(keyWords: set<string>, line: string) returns (counts: Counts)
    ensures counts == LineStats(keyWords, line)
  {
    counts := map[];
    var first := Strings.FindFirstNot(line, ' ');
    if first.None? {
      return;
    }
    // `rest` is the part of the line from `start` on.
    var rest := line[first.value..];
    while rest != []
      invariant Tally(keyWords, counts, Fields(rest)) == LineStats(keyWords, line)
      decreases |rest|
    {
      var end := Strings.FindChar(rest, ' ');
      var word := if end.None? then rest else rest[..end.value];
      TallyStep(keyWords, counts, rest, word, end);
      counts := Bump(keyWords, counts, word);
      if end.None? {
        return;
      }
      rest := rest[end.value + 1..];
    }
  }

  /** The `+=`-sum of the line statistics of `lines`, first line first. */
  function Explored(keyWords: set<string>, lines: seq<string>): Counts
  {
    if lines == [] then map[]
    else Merge(Explored(keyWords, lines[..|lines| - 1]), LineStats(keyWords, lines[|lines| - 1]))
  }

  /** `ExploreKeyWordsSingleThread` over the lines of the input. */
  method ExploreKeyWordsSingleThread(keyWords: set<string>, lines: seq<string>) returns (result: Stats)
    ensures fresh(result) && result.wordFrequences == Explored(keyWords, lines)
  {
    result := new Stats();
    for i := 0 to |lines|
      invariant fresh(result)
      invariant result.wordFrequences == Explored(keyWords, lines[..i])
    {
      var lineStats := ExploreLine(keyWords, lines[i]);
      result.AddAssign(lineStats);
      assert lines[..i + 1][..i] == lines[..i];
    }
    assert lines[..|lines|] == lines;
  }

  /** Statistics of a text split in two are the sum of the statistics of the halves. */
  lemma {:induction false} ExploredAppend(keyWords: set<string>, a: seq<string>, b: seq<string>)
    ensures Explored(keyWords, a + b) == Merge(Explored(keyWords, a), Explored(keyWords, b))
    decreases |b|
  {
    if b == [] {
      assert a + b == a;
      MergeEmpty(Explored(keyWords, a));
    } else {
      var b' := b[..|b| - 1];
      assert (a + b)[..|a + b| - 1] == a + b';
      ExploredAppend(keyWords, a, b');
      MergeAssociative(Explored(keyWords, a), Explored(keyWords, b'), LineStats(keyWords, b[|b| - 1]));
    }
  }

  /** The tokens of all lines, first line first. */
  function AllTokens(lines: seq<string>): seq<string>
  {
    if lines == [] then [] else AllTokens(lines[..|lines| - 1]) + Tokens(lines[|lines| - 1])
  }

  /**
   * Every counted word is a key word, no count is negative, and each key
   * word's count is its number of token occurrences over all lines.
   */
  lemma {:induction false} ExploredMeaning(keyWords: set<string>, lines: seq<string>)
    ensures Explored(keyWords, lines).Keys <= keyWords
    ensures forall w :: Get(Explored(keyWords, lines), w) >= 0
    ensures forall w :: w in keyWords ==> Get(Explored(keyWords, lines), w) == multiset(AllTokens(lines))[w]
    decreases |lines|
  {
    if lines != [] {
      ExploredMeaning(keyWords, lines[..|lines| - 1]);
      LineStatsMeaning(keyWords, lines[|lines| - 1]);
    }
  }

  // The test text.

  /** Words joined with single spaces. */
  function Unwords(words: seq<string>): string
  {
    if words == [] then ""
    else if |words| == 1 then words[0]
    else words[0] + " " + Unwords(words[1..])
  }

  /** Splitting at spaces undoes joining with spaces, when no word holds a space and the last is not empty. */
  lemma {:induction false} FieldsUnwords(words: seq<string>)
    requires forall i :: 0 <= i < |words| ==> ' ' !in words[i]
    requires words != [] ==> words[|words| - 1] != ""
    ensures Fields(Unwords(words)) == words
  {
    if |words| == 1 {
      assert Strings.FindChar(words[0], ' ') == None;
    } else if |words| > 1 {
      var s := Unwords(words);
      var w := words[0];
      assert s == w + " " + Unwords(words[1..]);
      assert s[|w|] == ' ' && s[..|w|] == w;
      assert Strings.FindChar(s, ' ') == Some(|w|);
      assert s[|w| + 1..] == Unwords(words[1..]);
      FieldsUnwords(words[1..]);
    }
  }

  lemma LineTokens(words: seq<string>)
    requires forall i :: 0 <= i < |words| ==> ' ' !in words[i]
    requires words != [] ==> words[0] != "" && words[|words| - 1] != ""
    ensures Tokens(Unwords(words)) == words
  {
    FieldsUnwords(words);
    if words != [] {
      assert Unwords(words)[0] == words[0][0];
      assert Unwords(words)[0..] == Unwords(words);
    }
  }

  const TestKeyWords: set<string> := {"yangle", "rocks", "sucks", "all"}

  /** The length and first letter tell the test key words apart from the other test words. */
  predicate KeyShaped(w: string)
  {
    (|w| == 6 && w[0] == 'y') || (|w| == 5 && (w[0] == 'r' || w[0] == 's')) || (|w| == 3 && w[0] == 'a')
  }

  lemma TallyOther(acc: Counts, w: string, rest: seq<string>)
    requires w != [] && !KeyShaped(w)
    ensures Tally(TestKeyWords, acc, [w] + rest) == Tally(TestKeyWords, acc, rest)
  {
    assert w !in TestKeyWords;
    assert ([w] + rest)[1..] == rest;
  }

  lemma TallyKey(acc: Counts, w: string, rest: seq<string>)
    requires w in TestKeyWords
    ensures Tally(TestKeyWords, acc, [w] + rest) == Tally(TestKeyWords, acc[w := Get(acc, w) + 1], rest)
  {
    assert ([w] + rest)[1..] == rest;
  }

  /** The test text, one line of words joined by single spaces each. */
  const Line1 := ["this", "new", "yangle", "service", "really", "rocks"]
  const Line2 := ["It", "sucks", "when", "yangle", "isn't", "available"]
  const Line3 := ["10", "reasons", "why", "yangle", "is", "the", "best", "IT", "company"]
  const Line4 := ["yangle", "rocks", "others", "suck"]
  const Line5 := ["Goondex", "really", "sucks,", "but", "yangle", "rocks.", "Use", "yangle"]

  lemma TallyLine1()
    ensures Tally(TestKeyWords, map[], Line1) == map["yangle" := 1, "rocks" := 1]
  {
    var ws := Line1;
    TallyOther(map[], "this", ws[1..]);
    TallyOther(map[], "new", ws[2..]);
    TallyKey(map[], "yangle", ws[3..]);
    TallyOther(map["yangle" := 1], "service", ws[4..]);
    TallyOther(map["yangle" := 1], "really", ws[5..]);
    TallyKey(map["yangle" := 1], "rocks", []);
  }
  lemma TestLine1()
    ensures LineStats(TestKeyWords, Unwords(Line1)) == map["yangle" := 1, "rocks" := 1]
  {
    LineTokens(Line1);
    TallyLine1();
  }


  lemma TallyLine2()
    ensures Tally(TestKeyWords, map[], Line2) == map["sucks" := 1, "yangle" := 1]
  {
    var ws := Line2;
    TallyOther(map[], "It", ws[1..]);
    TallyKey(map[], "sucks", ws[2..]);
    TallyOther(map["sucks" := 1], "when", ws[3..]);
    TallyKey(map["sucks" := 1], "yangle", ws[4..]);
    TallyOther(map["sucks" := 1, "yangle" := 1], "isn't", ws[5..]);
    TallyOther(map["sucks" := 1, "yangle" := 1], "available", []);
  }
  lemma TestLine2()
    ensures LineStats(TestKeyWords, Unwords(Line2)) == map["sucks" := 1, "yangle" := 1]
  {
    LineTokens(Line2);
    TallyLine2();
  }


  lemma TallyLine3()
    ensures Tally(TestKeyWords, map[], Line3) == map["yangle" := 1]
  {
    var ws := Line3;
    TallyOther(map[], "10", ws[1..]);
    TallyOther(map[], "reasons", ws[2..]);
    TallyOther(map[], "why", ws[3..]);
    TallyKey(map[], "yangle", ws[4..]);
    var m := map["yangle" := 1];
    TallyOther(m, "is", ws[5..]);
    TallyOther(m, "the", ws[6..]);
    TallyOther(m, "best", ws[7..]);
    TallyOther(m, "IT", ws[8..]);
    TallyOther(m, "company", []);
  }
  lemma TestLine3()
    ensures LineStats(TestKeyWords, Unwords(Line3)) == map["yangle" := 1]
  {
    LineTokens(Line3);
    TallyLine3();
  }


  lemma TallyLine4()
    ensures Tally(TestKeyWords, map[], Line4) == map["yangle" := 1, "rocks" := 1]
  {
    var ws := Line4;
    TallyKey(map[], "yangle", ws[1..]);
    TallyKey(map["yangle" := 1], "rocks", ws[2..]);
    TallyOther(map["yangle" := 1, "rocks" := 1], "others", ws[3..]);
    TallyOther(map["yangle" := 1, "rocks" := 1], "suck", []);
  }
  lemma TestLine4()
    ensures LineStats(TestKeyWords, Unwords(Line4)) == map["yangle" := 1, "rocks" := 1]
  {
    LineTokens(Line4);
    TallyLine4();
  }


  lemma TallyLine5()
    ensures Tally(TestKeyWords, map[], Line5) == map["yangle" := 2]
  {
    var ws := Line5;
    TallyOther(map[], "Goondex", ws[1..]);
    TallyOther(map[], "really", ws[2..]);
    TallyOther(map[], "sucks,", ws[3..]);
    TallyOther(map[], "but", ws[4..]);
    TallyKey(map[], "yangle", ws[5..]);
    TallyOther(map["yangle" := 1], "rocks.", ws[6..]);
    TallyOther(map["yangle" := 1], "Use", ws[7..]);
    TallyKey(map["yangle" := 1], "yangle", []);
  }
  /** `sucks,` and `rocks.` carry punctuation and are not counted. */
  lemma TestLine5()
    ensures LineStats(TestKeyWords, Unwords(Line5)) == map["yangle" := 2]
  {
    LineTokens(Line5);
    TallyLine5();
  }


  lemma ExploredSnoc(keyWords: set<string>, lines: seq<string>, line: string)
    ensures Explored(keyWords, lines + [line]) == Merge(Explored(keyWords, lines), LineStats(keyWords, line))
  {
    assert (lines + [line])[..|lines|] == lines;
  }

  /** `r` is the pointwise sum of `a` and `b`. */
  lemma MergeIs(a: Counts, b: Counts, r: Counts)
    requires r.Keys == a.Keys + b.Keys
    requires forall w :: w in r ==> r[w] == Get(a, w) + Get(b, w)
    ensures Merge(a, b) == r
  {
    forall w | w in r ensures Merge(a, b)[w] == r[w] {
      assert Get(Merge(a, b), w) == Get(a, w) + Get(b, w);
    }
  }

  lemma KeysDiffer()
    ensures "yangle" != "rocks" && "yangle" != "sucks" && "rocks" != "sucks"
  {
    assert |"yangle"| != |"rocks"| && |"yangle"| != |"sucks"| && "rocks"[0] != "sucks"[0];
  }

  /** One more line of a text adds its counts. */
  lemma SumStep(keyWords: set<string>, text: seq<string>, k: nat, before: Counts, line: Counts, after: Counts)
    requires 0 < k <= |text|
    requires Explored(keyWords, text[..k - 1]) == before && LineStats(keyWords, text[k - 1]) == line
    requires Merge(before, line) == after
    ensures Explored(keyWords, text[..k]) == after
  {
    ExploredSnoc(keyWords, text[..k - 1], text[k - 1]);
    assert text[..k] == text[..k - 1] + [text[k - 1]];
  }

  // The running totals over the test text.

  lemma TestTotal1()
    ensures Merge(map[], map["yangle" := 1, "rocks" := 1]) == map["yangle" := 1, "rocks" := 1]
  {
    KeysDiffer();
    MergeIs(map[], map["yangle" := 1, "rocks" := 1], map["yangle" := 1, "rocks" := 1]);
  }

  lemma TestTotal2()
    ensures Merge(map["yangle" := 1, "rocks" := 1], map["sucks" := 1, "yangle" := 1]) == map["yangle" := 2, "rocks" := 1, "sucks" := 1]
  {
    KeysDiffer();
    MergeIs(map["yangle" := 1, "rocks" := 1], map["sucks" := 1, "yangle" := 1], map["yangle" := 2, "rocks" := 1, "sucks" := 1]);
  }

  lemma TestTotal3()
    ensures Merge(map["yangle" := 2, "rocks" := 1, "sucks" := 1], map["yangle" := 1]) == map["yangle" := 3, "rocks" := 1, "sucks" := 1]
  {
    KeysDiffer();
    MergeIs(map["yangle" := 2, "rocks" := 1, "sucks" := 1], map["yangle" := 1], map["yangle" := 3, "rocks" := 1, "sucks" := 1]);
  }

  lemma TestTotal4()
    ensures Merge(map["yangle" := 3, "rocks" := 1, "sucks" := 1], map["yangle" := 1, "rocks" := 1]) == map["yangle" := 4, "rocks" := 2, "sucks" := 1]
  {
    KeysDiffer();
    MergeIs(map["yangle" := 3, "rocks" := 1, "sucks" := 1], map["yangle" := 1, "rocks" := 1], map["yangle" := 4, "rocks" := 2, "sucks" := 1]);
  }

  lemma TestTotal5()
    ensures Merge(map["yangle" := 4, "rocks" := 2, "sucks" := 1], map["yangle" := 2]) == map["yangle" := 6, "rocks" := 2, "sucks" := 1]
  {
    KeysDiffer();
    MergeIs(map["yangle" := 4, "rocks" := 2, "sucks" := 1], map["yangle" := 2], map["yangle" := 6, "rocks" := 2, "sucks" := 1]);
  }

  /** Summing the counts of five lines with the test text's line counts. */
  lemma TestSum(keyWords: set<string>, text: seq<string>)
    requires |text| == 5
    requires LineStats(keyWords, text[0]) == map["yangle" := 1, "rocks" := 1]
    requires LineStats(keyWords, text[1]) == map["sucks" := 1, "yangle" := 1]
    requires LineStats(keyWords, text[2]) == map["yangle" := 1]
    requires LineStats(keyWords, text[3]) == map["yangle" := 1, "rocks" := 1]
    requires LineStats(keyWords, text[4]) == map["yangle" := 2]
    ensures Explored(keyWords, text) == map["yangle" := 6, "rocks" := 2, "sucks" := 1]
  {
    assert text[..0] == [];
    TestTotal1();
    SumStep(keyWords, text, 1, map[], map["yangle" := 1, "rocks" := 1], map["yangle" := 1, "rocks" := 1]);
    TestTotal2();
    SumStep(keyWords, text, 2, map["yangle" := 1, "rocks" := 1], map["sucks" := 1, "yangle" := 1], map["yangle" := 2, "rocks" := 1, "sucks" := 1]);
    TestTotal3();
    SumStep(keyWords, text, 3, map["yangle" := 2, "rocks" := 1, "sucks" := 1], map["yangle" := 1], map["yangle" := 3, "rocks" := 1, "sucks" := 1]);
    TestTotal4();
    SumStep(keyWords, text, 4, map["yangle" := 3, "rocks" := 1, "sucks" := 1], map["yangle" := 1, "rocks" := 1], map["yangle" := 4, "rocks" := 2, "sucks" := 1]);
    TestTotal5();
    SumStep(keyWords, text, 5, map["yangle" := 4, "rocks" := 2, "sucks" := 1], map["yangle" := 2], map["yangle" := 6, "rocks" := 2, "sucks" := 1]);
    assert text[..5] == text;
  }

  /** The whole test text: yangle 6 times, rocks twice, sucks once, all never. */
  lemma TestBasic()
    ensures Explored(TestKeyWords, [Unwords(Line1), Unwords(Line2), Unwords(Line3), Unwords(Line4), Unwords(Line5)])
         == map["yangle" := 6, "rocks" := 2, "sucks" := 1]
  {
    TestLine1();
    TestLine2();
    TestLine3();
    TestLine4();
    TestLine5();
    TestSum(TestKeyWords, [Unwords(Line1), Unwords(Line2), Unwords(Line3), Unwords(Line4), Unwords(Line5)]);
  }
}

/**
 * `Ini::Load`: reads an INI document line by line into named sections of
 * key/value pairs. The input stream is modelled as its sequence of lines.
 */
module Ini {
  import opened Wrappers
  import Strings

  type Section = map<string, string>

  /** The exception `GetSection` lets escape from `map::at`. */
  datatype Exception = OutOfRange

  class Document {
    var sections: map<string, Section>

    constructor ()
      ensures sections == map[]
    {
      sections := map[];
    }

    /** `AddSection(name) = section`: creates or replaces the section called `name`. */
    method AddSection(name: string, section: Section)
      modifies this
      ensures sections == old(sections)[name := section]
    {
      sections := sections[name := section];
    }

    /** The section called `name`; `at` throws for a missing one. */
    method GetSection(name: string) returns (r: Result<Section, Exception>)
      ensures name in sections <==> r.Ok?
      ensures r.Ok? ==> r.value == sections[name]
    {
      if name !in sections {
        return Err(OutOfRange);
      }
      return Ok(sections[name]);
    }

    function SectionCount(): (n: nat)
      reads this
      ensures n == |sections.Keys|
    {
      |sections|
    }
  }

  /** `find_last_not_of(' ')`: the index of the last character that is not a space. */
  function LastNotSpace(s: string): (r: Option<nat>)
    ensures r.None? <==> forall i :: 0 <= i < |s| ==> s[i] == ' '
    ensures r.Some? ==> r.value < |s| && s[r.value] != ' ' && forall i :: r.value < i < |s| ==> s[i] == ' '
  {
    if s == [] then None
    else if s[|s| - 1] != ' ' then Some(|s| - 1)
    else LastNotSpace(s[..|s| - 1])
  }

  /** The locals of `Load`: the document so far, the current section's name and its pairs. */
  datatype LoadState = LoadState(doc: map<string, Section>, name: string, section: Section)

  const Start := LoadState(map[], "", map[])

  /**
   * Splits a pair line at its first `=`. Without one, `substr(0, npos)` is the
   * whole line and `substr(npos + 1)` wraps round to the whole line as well.
   */
  function SplitPair(line: string): (string, string)
  {
    match Strings.FindChar(line, '=')
    case None => (line, line)
    case Some(pos) => (line[..pos], line[pos + 1..])
  }

  /** One turn of the loop of `Load`. */
  function Step(st: LoadState, raw: string): LoadState
  {
    match LastNotSpace(raw)
    case None => st
    case Some(last) =>
      var line := raw[..last + 1];
      if line[0] == '[' && line[|line| - 1] == ']' then
        var stored := if st.name != "" then LoadState(st.doc[st.name := st.section], "", map[]) else st;
        stored.(name := line[1..|line| - 1])
      else
        var (key, value) := SplitPair(line);
        st.(section := st.section[key := value])
  }

  function Steps(st: LoadState, lines: seq<string>): LoadState
    decreases |lines|
  {
    if lines == [] then st else Steps(Step(st, lines[0]), lines[1..])
  }

  /** After the last line, a named section still pending is stored. */
  function Finish(st: LoadState): map<string, Section>
  {
    if st.name != "" then st.doc[st.name := st.section] else st.doc
  }

  lemma {:induction false} StepsSnoc(st: LoadState, lines: seq<string>, line: string)
    ensures Steps(st, lines + [line]) == Step(Steps(st, lines), line)
    decreases |lines|
  {
    if lines != [] {
      assert (lines + [line])[1..] == lines[1..] + [line];
      StepsSnoc(Step(st, lines[0]), lines[1..], line);
    }
  }

  lemma {:induction false} StepsAppend(st: LoadState, a: seq<string>, b: seq<string>)
    ensures Steps(st, a + b) == Steps(Steps(st, a), b)
    decreases |a|
  {
    if a != [] {
      assert (a + b)[0] == a[0] && (a + b)[1..] == a[1..] + b;
      StepsAppend(Step(st, a[0]), a[1..], b);
    } else {
      assert a + b == b;
    }
  }

  /** `Load(input)`, reading `lines` one after the other. */
  method Load(lines: seq<string>) returns (doc: Document)
    ensures fresh(doc) && doc.sections == Finish(Steps(Start, lines))
  {
    doc := new Document();
    var name: string := "";
    var section: Section := map[];
    for i := 0 to |lines|
      invariant Steps(Start, lines[..i]) == LoadState(doc.sections, name, section)
    {
      assert lines[..i + 1] == lines[..i] + [lines[i]];
      StepsSnoc(Start, lines[..i], lines[i]);
      var line := lines[i];
      var last := LastNotSpace(line);
      if last.None? {
        continue;
      }
      line := line[..last.value + 1];
      if line[0] == '[' && line[|line| - 1] == ']' {
        if name != "" {
          doc.AddSection(name, section);
          name := "";
          section := map[];
        }
        name := line[1..|line| - 1];
      } else {
        var (key, value) := SplitPair(line);
        section := section[key := value];
      }
    }
    assert lines[..|lines|] == lines;
    if name != "" {
      doc.AddSection(name, section);
    }
  }

  // The lines an INI file is written with, and what `Load` makes of them.

  /** A key line `key=value` that reads back as written. */
  predicate GoodPair(key: string, value: string)
  {
    '=' !in key && (key == [] || key[0] != '[') && (value == [] || value[|value| - 1] != ' ')
  }

  datatype SectionText = SectionText(name: string, pairs: seq<(string, string)>)

  predicate GoodSection(s: SectionText)
  {
    s.name != "" && forall i :: 0 <= i < |s.pairs| ==> GoodPair(s.pairs[i].0, s.pairs[i].1)
  }

  function PairLines(pairs: seq<(string, string)>): (lines: seq<string>)
    ensures |lines| == |pairs|
  {
    if pairs == [] then [] else [pairs[0].0 + "=" + pairs[0].1] + PairLines(pairs[1..])
  }

  function Render(secs: seq<SectionText>): seq<string>
  {
    if secs == [] then [] else ["[" + secs[0].name + "]"] + PairLines(secs[0].pairs) + Render(secs[1..])
  }

  /** The pairs of a section, a later key overriding an earlier one. */
  function PairsMap(m: Section, pairs: seq<(string, string)>): Section
    decreases |pairs|
  {
    if pairs == [] then m else PairsMap(m[pairs[0].0 := pairs[0].1], pairs[1..])
  }

  /** The sections written, a later section of the same name replacing an earlier one. */
  function Sections(doc: map<string, Section>, secs: seq<SectionText>): map<string, Section>
    decreases |secs|
  {
    if secs == [] then doc else Sections(doc[secs[0].name := PairsMap(map[], secs[0].pairs)], secs[1..])
  }

  lemma PairLine(key: string, value: string, st: LoadState)
    requires GoodPair(key, value)
    ensures Step(st, key + "=" + value) == st.(section := st.section[key := value])
  {
    var line := key + "=" + value;
    assert line[|key|] == '=';
    if value == [] {
      assert line[|line| - 1] == '=';
    } else {
      assert line[|line| - 1] == value[|value| - 1];
    }
    assert LastNotSpace(line) == Some(|line| - 1);
    assert line[..|line|] == line;
    assert line[..|key|] == key;
    assert Strings.FindChar(line, '=') == Some(|key|) by {
      assert '=' !in line[..|key|];
    }
    assert line[|key| + 1..] == value;
    if key == [] {
      assert line[0] == '=';
    } else {
      assert line[0] == key[0];
    }
  }

  lemma {:induction false} PairLinesLoad(st: LoadState, pairs: seq<(string, string)>)
    requires forall i :: 0 <= i < |pairs| ==> GoodPair(pairs[i].0, pairs[i].1)
    ensures Steps(st, PairLines(pairs)) == st.(section := PairsMap(st.section, pairs))
    decreases |pairs|
  {
    if pairs != [] {
      PairLine(pairs[0].0, pairs[0].1, st);
      PairLinesLoad(st.(section := st.section[pairs[0].0 := pairs[0].1]), pairs[1..]);
    }
  }

  lemma HeaderLine(name: string, st: LoadState)
    requires name != ""
    ensures Step(st, "[" + name + "]") ==
      (if st.name != "" then LoadState(st.doc[st.name := st.section], name, map[]) else st.(name := name))
  {
    var line := "[" + name + "]";
    assert LastNotSpace(line) == Some(|line| - 1);
    assert line[..|line|] == line && line[1..|line| - 1] == name;
  }

  /**
   * Loading a rendering of well-formed sections gives exactly those sections,
   * from a state whose pending section (if named) is stored first.
   */
  lemma {:induction false} RenderLoadFrom(st: LoadState, secs: seq<SectionText>)
    requires st.name != "" && forall i :: 0 <= i < |secs| ==> GoodSection(secs[i])
    ensures Finish(Steps(st, Render(secs))) == Sections(st.doc[st.name := st.section], secs)
    decreases |secs|
  {
    if secs != [] {
      var s := secs[0];
      var header := "[" + s.name + "]";
      assert Render(secs) == [header] + (PairLines(s.pairs) + Render(secs[1..]));
      HeaderLine(s.name, st);
      var st1 := LoadState(st.doc[st.name := st.section], s.name, map[]);
      StepsAppend(st1, PairLines(s.pairs), Render(secs[1..]));
      PairLinesLoad(st1, s.pairs);
      RenderLoadFrom(st1.(section := PairsMap(map[], s.pairs)), secs[1..]);
    }
  }

  /** `Load` reads back every document written as well-formed sections. */
  lemma RenderLoad(secs: seq<SectionText>)
    requires forall i :: 0 <= i < |secs| ==> GoodSection(secs[i])
    ensures Finish(Steps(Start, Render(secs))) == Sections(map[], secs)
  {
    if secs != [] {
      var s := secs[0];
      var header := "[" + s.name + "]";
      assert Render(secs) == [header] + (PairLines(s.pairs) + Render(secs[1..]));
      HeaderLine(s.name, Start);
      var st1 := LoadState(map[], s.name, map[]);
      StepsAppend(st1, PairLines(s.pairs), Render(secs[1..]));
      PairLinesLoad(st1, s.pairs);
      RenderLoadFrom(st1.(section := PairsMap(map[], s.pairs)), secs[1..]);
    }
  }

  /** Blank lines, and lines of spaces only, change nothing. */
  lemma BlankLine(st: LoadState, spaces: string)
    requires forall i :: 0 <= i < |spaces| ==> spaces[i] == ' '
    ensures Step(st, spaces) == st
  {
  }

  /** Trailing spaces are ignored. */
  lemma TrailingSpaces(st: LoadState, line: string, spaces: string)
    requires line != [] && line[|line| - 1] != ' '
    requires forall i :: 0 <= i < |spaces| ==> spaces[i] == ' '
    ensures Step(st, line + spaces) == Step(st, line)
  {
    var s := line + spaces;
    assert s[|line| - 1] == line[|line| - 1];
    assert LastNotSpace(s) == Some(|line| - 1);
    assert LastNotSpace(line) == Some(|line| - 1);
    assert s[..|line|] == line == line[..|line|];
  }

  /** Pairs before the first header are not cleared: they belong to the first named section. */
  lemma PairsBeforeHeader()
    ensures Finish(Steps(Start, ["a=1", "[s]", "b=2"])) == map["s" := map["a" := "1", "b" := "2"]]
  {
    PairLine("a", "1", Start);
    var st1 := LoadState(map[], "", map["a" := "1"]);
    HeaderLine("s", st1);
    var st2 := LoadState(map[], "s", map["a" := "1"]);
    PairLine("b", "2", st2);
    assert "a=1" == "a" + "=" + "1" && "[s]" == "[" + "s" + "]" && "b=2" == "b" + "=" + "2";
  }
}

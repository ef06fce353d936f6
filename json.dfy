/**
 * The JSON reader of the transit guide: a node is read from a character
 * stream by `LoadNode`, which dispatches on the first non-space character.
 * The stream is modelled by what remains of it; `input >> c` skips spaces
 * and takes one character, and `putback` returns that character (the spaces
 * skipped before it stay consumed).
 */
module Json {
  import opened Wrappers
  import Decimal
  import Strings

  datatype Node =
    | Array(items: seq<Node>)
    | Dict(entries: map<string, Node>)
    | Int(i: int)
    | Double(d: real)
    | Bool(b: bool)
    | Str(s: string)

  /**
   * Why reading stops without a node: the input ends where a node should
   * start (reading an unset character in the source), `stoi`/`stod` throw
   * `invalid_argument` or `out_of_range`, or the array loop makes no
   * progress and would run forever.
   */
  datatype Error = EndOfInput | InvalidNumber | NumberOutOfRange | Diverges

  const INT_MIN: int := -0x8000_0000
  const INT_MAX: int := 0x7fff_ffff

  // Characters.

  /** `isspace` in the "C" locale. */
  predicate IsSpace(c: char)
  {
    c == ' ' || c == '\t' || c == '\n' || c == '\r' || c == '\U{000B}' || c == '\U{000C}'
  }

  /** `isalpha` in the "C" locale. */
  predicate IsAlpha(c: char)
  {
    'a' <= c <= 'z' || 'A' <= c <= 'Z'
  }

  /** What `LoadNumber` collects: digits, `-` and `.`. */
  predicate IsNumberChar(c: char)
  {
    Decimal.IsDigit(c) || c == '-' || c == '.'
  }

  /** The input after the spaces `>>` skips. */
  function SkipSpace(s: seq<char>): (r: seq<char>)
    ensures |r| <= |s|
  {
    if s != [] && IsSpace(s[0]) then SkipSpace(s[1..]) else s
  }

  /** `input >> c`: the first character after the spaces and what follows it, or `None` at the end. */
  function ReadChar(s: seq<char>): (r: Option<(char, seq<char>)>)
    ensures r.Some? ==> |r.value.1| < |s|
  {
    var t := SkipSpace(s);
    if t == [] then None else Some((t[0], t[1..]))
  }

  lemma ReadCharSkipped(s: seq<char>, t: seq<char>)
    requires t == SkipSpace(s)
    ensures ReadChar(s) == if t == [] then None else Some((t[0], t[1..]))
  {
  }

  /** What remains after `input >> c`, whether it read a character or failed. */
  function AfterRead(s: seq<char>): (r: seq<char>)
    ensures |r| <= |s|
  {
    match ReadChar(s)
    case None => []
    case Some((_, rest)) => rest
  }

  // Strings, numbers and booleans.

  /** `LoadString`: everything up to the next `"`, which is consumed; no escapes. */
  function ParseString(s: seq<char>): (r: (string, seq<char>))
    ensures '"' !in r.0
    ensures '"' in s ==> s == r.0 + ['"'] + r.1
    ensures '"' !in s ==> r.0 == s && r.1 == []
  {
    match Strings.FindChar(s, '"')
    case None => (s, [])
    case Some(k) =>
      assert s == s[..k] + ['"'] + s[k + 1..];
      (s[..k], s[k + 1..])
  }

  /** The characters `LoadNumber`'s loop collects after `text`, and where it stops. */
  function NumberText(s: seq<char>, text: seq<char>): (r: (seq<char>, seq<char>))
    ensures |r.1| <= |s|
    decreases |s|
  {
    match ReadChar(s)
    case None => (text, [])
    case Some((c, rest)) =>
      if IsNumberChar(c) then NumberText(rest, text + [c]) else (text, [c] + rest)
  }

  /** The characters `LoadBool`'s loop collects after `word`, and where it stops. */
  function Word(s: seq<char>, word: seq<char>): (r: (seq<char>, seq<char>))
    ensures |r.1| <= |s|
    decreases |s|
  {
    match ReadChar(s)
    case None => (word, [])
    case Some((c, rest)) =>
      if IsAlpha(c) then Word(rest, word + [c]) else (word, [c] + rest)
  }

  /** The longest prefix of decimal digits. */
  function DigitPrefix(s: seq<char>): (r: seq<char>)
    ensures Decimal.AllDigits(r) && |r| <= |s|
  {
    if s != [] && Decimal.IsDigit(s[0]) then [s[0]] + DigitPrefix(s[1..]) else []
  }

  /** `DigitPrefix` is a prefix, and the longest one of digits. */
  lemma {:induction false} DigitPrefixLongest(s: seq<char>)
    ensures DigitPrefix(s) <= s
    ensures |DigitPrefix(s)| < |s| ==> !Decimal.IsDigit(s[|DigitPrefix(s)|])
    decreases |s|
  {
    if s != [] && Decimal.IsDigit(s[0]) {
      DigitPrefixLongest(s[1..]);
    }
  }

  /**
   * `stoi`: an optional `-` and the longest run of digits after it; no
   * digits throws `invalid_argument`, a value outside `int` `out_of_range`.
   */
  function ToInt(text: seq<char>): (r: Result<int, Error>)
    ensures r.Ok? ==> INT_MIN <= r.value <= INT_MAX
  {
    var negative := text != [] && text[0] == '-';
    var digits := DigitPrefix(if negative then text[1..] else text);
    if digits == [] then Err(InvalidNumber)
    else InRange(Signed(negative, digits))
  }

  /** The value of `digits`, negated when `negative`. */
  function Signed(negative: bool, digits: seq<char>): int
    requires Decimal.AllDigits(digits)
  {
    if negative then 0 - Decimal.DigitsValue(digits) else Decimal.DigitsValue(digits)
  }

  /** An `int` value, or `out_of_range` outside 32 bits. */
  function InRange(v: int): (r: Result<int, Error>)
    ensures r.Ok? ==> INT_MIN <= r.value <= INT_MAX
  {
    if v < INT_MIN || v > INT_MAX then Err(NumberOutOfRange) else Ok(v)
  }

  function Pow10(k: nat): (r: nat)
    ensures r > 0
  {
    if k == 0 then 1 else 10 * Pow10(k - 1)
  }

  /**
   * `stod`: an optional `-`, digits, and optionally `.` and more digits, at
   * least one digit in all; none throws `invalid_argument`. The value is the
   * exact decimal one, before rounding to a double.
   */
  function ToDouble(text: seq<char>): (r: Result<real, Error>)
    ensures r.Err? ==> r.error == InvalidNumber
  {
    var negative := text != [] && text[0] == '-';
    var body := if negative then text[1..] else text;
    var whole := DigitPrefix(body);
    var after := body[|whole|..];
    var fraction := if after != [] && after[0] == '.' then DigitPrefix(after[1..]) else [];
    if whole == [] && fraction == [] then Err(InvalidNumber)
    else
      var v := Decimal.DigitsValue(whole) as real + Decimal.DigitsValue(fraction) as real / Pow10(|fraction|) as real;
      Ok(if negative then -v else v)
  }

  /** `LoadNumber`: a double exactly when the collected characters hold a `.`. */
  function ParseNumber(s: seq<char>): (r: Result<(Node, seq<char>), Error>)
    ensures r.Ok? ==> |r.value.1| <= |s|
  {
    var (text, rest) := NumberText(s, []);
    if '.' in text then
      match ToDouble(text)
      case Err(e) => Err(e)
      case Ok(d) => Ok((Double(d), rest))
    else
      match ToInt(text)
      case Err(e) => Err(e)
      case Ok(i) => Ok((Int(i), rest))
  }

  /** `LoadBool`: true exactly when the letters read spell `true`. */
  function ParseBool(s: seq<char>): (r: (Node, seq<char>))
    ensures |r.1| <= |s|
  {
    var (word, rest) := Word(s, []);
    (Bool(word == "true"), rest)
  }

  // Nodes, arrays and dictionaries.

  /** `LoadNode`. */
  function ParseNode(s: seq<char>): (r: Result<(Node, seq<char>), Error>)
    ensures r.Ok? ==> |r.value.1| <= |s|
    decreases |s|, 0
  {
    match ReadChar(s)
    case None => Err(EndOfInput)
    case Some((c, rest)) =>
      if c == '[' then ParseArray(rest, [])
      else if c == '{' then ParseDict(rest, map[])
      else if c == '"' then var (line, after) := ParseString(rest); Ok((Str(line), after))
      else if Decimal.IsDigit(c) || c == '-' then ParseNumber([c] + rest)
      else Ok(ParseBool([c] + rest))
  }

  /**
   * `LoadArray`'s loop, with `items` read so far: it ends at `]` or at the
   * end of the input, skips one `,` before an element, and otherwise puts
   * the character back for `LoadNode`. An iteration that consumes nothing
   * would repeat forever.
   */
  function ParseArray(s: seq<char>, items: seq<Node>): (r: Result<(Node, seq<char>), Error>)
    ensures r.Ok? ==> |r.value.1| <= |s|
    decreases |s|, 1
  {
    match ReadChar(s)
    case None => Ok((Array(items), []))
    case Some((c, rest)) =>
      if c == ']' then Ok((Array(items), rest))
      else
        match ParseNode(if c != ',' then [c] + rest else rest)
        case Err(e) => Err(e)
        case Ok((n, after)) =>
          if |after| == |s| then Err(Diverges) else ParseArray(after, items + [n])
  }

  /**
   * One entry of `LoadDict`: the key up to `"`, one character (the colon)
   * and the value.
   */
  function ParseEntry(s: seq<char>): (r: Result<(string, Node, seq<char>), Error>)
    ensures r.Ok? ==> |r.value.2| <= |s|
    decreases |s|, 1
  {
    var (key, afterKey) := ParseString(s);
    match ParseNode(AfterRead(afterKey))
    case Err(e) => Err(e)
    case Ok((n, after)) => Ok((key, n, after))
  }

  /**
   * `LoadDict`'s loop, with `entries` read so far: it ends at `}` or at the
   * end of the input; after a `,` it reads one more character (the opening
   * quote) before the entry. `emplace` keeps the first value of a repeated key.
   */
  function ParseDict(s: seq<char>, entries: map<string, Node>): (r: Result<(Node, seq<char>), Error>)
    ensures r.Ok? ==> |r.value.1| <= |s|
    decreases |s|, 1
  {
    match ReadChar(s)
    case None => Ok((Dict(entries), []))
    case Some((c, rest)) =>
      if c == '}' then Ok((Dict(entries), rest))
      else
        match ParseEntry(if c == ',' then AfterRead(rest) else rest)
        case Err(e) => Err(e)
        case Ok((key, n, after)) => ParseDict(after, Emplace(entries, key, n))
  }

  /** `emplace`: adds `key` with `n` unless `key` is already there. */
  function Emplace(entries: map<string, Node>, key: string, n: Node): (r: map<string, Node>)
    ensures r.Keys == entries.Keys + {key}
    ensures forall k :: k in entries ==> r[k] == entries[k]
    ensures key !in entries ==> r[key] == n
  {
    if key in entries then entries else entries[key := n]
  }

  /** `Load`: the document's root node. */
  function Load(s: seq<char>): (r: Result<Node, Error>)
  {
    match ParseNode(s)
    case Err(e) => Err(e)
    case Ok((n, _)) => Ok(n)
  }

  // Properties of the reader.

  /** A number is a `double` exactly when the characters read hold a `.`, and an `int` otherwise. */
  lemma NumberKind(s: seq<char>)
    requires ParseNumber(s).Ok?
    ensures ParseNumber(s).value.0.Double? <==> '.' in NumberText(s, []).0
    ensures ParseNumber(s).value.0.Int? <==> '.' !in NumberText(s, []).0
  {
  }

  /** An array read after `items` is an array that starts with them. */
  lemma {:induction false} ArrayKeepsItems(s: seq<char>, items: seq<Node>)
    requires ParseArray(s, items).Ok?
    ensures ParseArray(s, items).value.0.Array? && items <= ParseArray(s, items).value.0.items
    decreases |s|
  {
    match ReadChar(s)
    case None =>
    case Some((c, rest)) =>
      if c != ']' {
        var (n, after) := ParseNode(if c != ',' then [c] + rest else rest).value;
        ArrayKeepsItems(after, items + [n]);
      }
  }

  /** A dictionary read after `entries` keeps each of their keys with its first value. */
  lemma {:induction false} DictKeepsFirst(s: seq<char>, entries: map<string, Node>)
    requires ParseDict(s, entries).Ok?
    ensures ParseDict(s, entries).value.0.Dict?
    ensures entries.Keys <= ParseDict(s, entries).value.0.entries.Keys
    ensures forall key :: key in entries ==> ParseDict(s, entries).value.0.entries[key] == entries[key]
    decreases |s|
  {
    match ReadChar(s)
    case None =>
    case Some((c, rest)) =>
      if c != '}' {
        var (key, n, after) := ParseEntry(if c == ',' then AfterRead(rest) else rest).value;
        DictKeepsFirst(after, Emplace(entries, key, n));
      }
  }

  /** The kind of node read follows from the first character after the spaces. */
  lemma NodeKind(s: seq<char>, c: char, rest: seq<char>)
    requires ReadChar(s) == Some((c, rest)) && ParseNode(s).Ok?
    ensures c == '[' ==> ParseNode(s).value.0.Array?
    ensures c == '{' ==> ParseNode(s).value.0.Dict?
    ensures c == '"' ==> ParseNode(s).value.0.Str?
    ensures Decimal.IsDigit(c) || c == '-' ==> ParseNode(s).value.0.Int? || ParseNode(s).value.0.Double?
    ensures !(c in "[{\"-" || Decimal.IsDigit(c)) ==> ParseNode(s).value.0.Bool?
  {
    if c == '[' {
      assert ParseNode(s) == ParseArray(rest, []);
      ArrayKeepsItems(rest, []);
    } else if c == '{' {
      assert ParseNode(s) == ParseDict(rest, map[]);
      DictKeepsFirst(rest, map[]);
    } else if Decimal.IsDigit(c) || c == '-' {
      assert ParseNode(s) == ParseNumber([c] + rest);
      NumberKind([c] + rest);
    }
  }

  lemma ReadCharDirect(s: seq<char>)
    requires s != [] && !IsSpace(s[0])
    ensures ReadChar(s) == Some((s[0], s[1..]))
  {
  }

  /** `[]` is the empty array. */
  lemma EmptyArray()
    ensures ParseNode("[]") == Ok((Array([]), []))
  {
    ReadCharDirect("[]");
    assert "[]"[1..] == "]";
    ReadCharDirect("]");
  }

  /**
   * A character that starts no node inside an array makes no progress:
   * `LoadArray` would read and put it back forever.
   */
  lemma ArrayDiverges()
    ensures ParseNode("[?") == Err(Diverges)
  {
    ReadCharDirect("[?");
    assert "[?"[1..] == "?";
    ReadCharDirect("?");
    WordEnd("?", []);
  }

  /** Text after a rendered node that ends it: nothing, or a character that is no space, letter or number character. */
  predicate Delimits(rest: seq<char>)
  {
    rest == [] || (!IsSpace(rest[0]) && !IsAlpha(rest[0]) && !IsNumberChar(rest[0]))
  }

  lemma {:induction false} NumberTextOf(t: seq<char>, rest: seq<char>, text: seq<char>)
    requires forall i :: 0 <= i < |t| ==> IsNumberChar(t[i])
    requires Delimits(rest)
    ensures NumberText(t + rest, text) == (text + t, rest)
    decreases |t|
  {
    if t == [] {
      assert t + rest == rest && text + t == text;
      NumberTextEnd(rest, text);
    } else {
      assert text + [t[0]] + t[1..] == text + t;
      calc {
        NumberText(t + rest, text);
        { NumberTextStep(t, rest, text); }
        NumberText(t[1..] + rest, text + [t[0]]);
        { NumberTextOf(t[1..], rest, text + [t[0]]); }
        (text + t, rest);
      }
    }
  }

  lemma NumberTextStep(t: seq<char>, rest: seq<char>, text: seq<char>)
    requires t != [] && IsNumberChar(t[0])
    ensures NumberText(t + rest, text) == NumberText(t[1..] + rest, text + [t[0]])
  {
    ReadCharDirect(t + rest);
    assert (t + rest)[1..] == t[1..] + rest;
  }

  lemma NumberTextEnd(rest: seq<char>, text: seq<char>)
    requires Delimits(rest)
    ensures NumberText(rest, text) == (text, rest)
  {
    if rest != [] {
      ReadCharDirect(rest);
      assert [rest[0]] + rest[1..] == rest;
    }
  }

  lemma {:induction false} WordOf(t: seq<char>, rest: seq<char>, word: seq<char>)
    requires forall i :: 0 <= i < |t| ==> IsAlpha(t[i])
    requires Delimits(rest)
    ensures Word(t + rest, word) == (word + t, rest)
    decreases |t|
  {
    if t == [] {
      assert t + rest == rest && word + t == word;
      WordEnd(rest, word);
    } else {
      assert word + [t[0]] + t[1..] == word + t;
      calc {
        Word(t + rest, word);
        { WordStep(t, rest, word); }
        Word(t[1..] + rest, word + [t[0]]);
        { WordOf(t[1..], rest, word + [t[0]]); }
        (word + t, rest);
      }
    }
  }

  lemma WordStep(t: seq<char>, rest: seq<char>, word: seq<char>)
    requires t != [] && IsAlpha(t[0])
    ensures Word(t + rest, word) == Word(t[1..] + rest, word + [t[0]])
  {
    ReadCharDirect(t + rest);
    assert (t + rest)[1..] == t[1..] + rest;
  }

  lemma WordEnd(rest: seq<char>, word: seq<char>)
    requires Delimits(rest)
    ensures Word(rest, word) == (word, rest)
  {
    if rest != [] {
      ReadCharDirect(rest);
      assert [rest[0]] + rest[1..] == rest;
    }
  }

  lemma {:induction false} DigitPrefixAll(d: seq<char>)
    requires Decimal.AllDigits(d)
    ensures DigitPrefix(d) == d
    decreases |d|
  {
    if d != [] {
      DigitPrefixAll(d[1..]);
    }
  }

  /** `stoi` on digits. */
  lemma ToIntOfDigits(d: seq<char>)
    requires Decimal.AllDigits(d) && d != []
    ensures ToInt(d) == InRange(Signed(false, d))
  {
    assert d[0] != '-';
    DigitPrefixAll(d);
  }

  /** `stoi` on `-` and digits. */
  lemma ToIntOfNegative(d: seq<char>)
    requires Decimal.AllDigits(d) && d != []
    ensures ToInt("-" + d) == InRange(Signed(true, d))
  {
    var t := "-" + d;
    assert t[1..] == d;
    DigitPrefixAll(d);
    assert DigitPrefix(t[1..]) == d;
  }

  /** `stoi` reads back every `int` in decimal. */
  lemma ToIntOfString(i: int)
    requires INT_MIN <= i <= INT_MAX
    ensures ToInt(Decimal.IntToString(i)) == Ok(i)
  {
    var m: nat := if i < 0 then -i else i;
    Decimal.NatToStringDigits(m);
    if i < 0 {
      ToIntOfNegative(Decimal.NatToString(m));
    } else {
      ToIntOfDigits(Decimal.NatToString(m));
    }
  }

  /**
   * The nodes a rendering can spell back: `int`s, booleans, strings without
   * `"`, and arrays and dictionaries of them whose keys have no `"`.
   */
  predicate Renderable(n: Node)
    decreases n
  {
    match n
    case Int(i) => INT_MIN <= i <= INT_MAX
    case Bool(_) => true
    case Str(s) => '"' !in s
    case Array(items) => forall k :: 0 <= k < |items| ==> Renderable(items[k])
    case Dict(entries) => forall key :: key in entries ==> '"' !in key && Renderable(entries[key])
    case Double(_) => false
  }

  /** The keys of a dictionary in the order its rendering writes them: each once, in some fixed order. */
  ghost function KeyOrder(keys: set<string>): (r: seq<string>)
    ensures |r| == |keys| && forall key :: key in r <==> key in keys
    ensures forall i, j :: 0 <= i < j < |r| ==> r[i] != r[j]
    decreases |keys|
  {
    if keys == {} then [] else var key :| key in keys; [key] + KeyOrder(keys - {key})
  }

  /** The keys of dictionary `n` in the order its rendering writes them. */
  ghost function DictKeys(n: Node): (r: seq<string>)
    requires n.Dict?
    ensures forall key :: key in r <==> key in n.entries
    ensures forall i, j :: 0 <= i < j < |r| ==> r[i] != r[j]
  {
    KeyOrder(n.entries.Keys)
  }

  /**
   * A node written as text: `[`, the items separated by `,`, `]` for an
   * array, and `{`, the entries `"key":value` separated by `,`, `}` for a
   * dictionary.
   */
  ghost function Render(n: Node): (r: string)
    requires Renderable(n)
    decreases n, 1
  {
    match n
    case Int(i) => Decimal.IntToString(i)
    case Bool(b) => if b then "true" else "false"
    case Str(s) => "\"" + s + "\""
    case Array(items) => "[" + RenderItems(n, 0)
    case Dict(entries) => "{" + RenderEntries(n, 0)
  }

  /** The items of array `n` from the `k`-th on, each after a `,` but the first, then `]`. */
  ghost function RenderItems(n: Node, k: nat): (r: string)
    requires n.Array? && Renderable(n) && k <= |n.items|
    ensures r != [] && r[0] == (if k == |n.items| then ']' else if k > 0 then ',' else Render(n.items[k])[0])
    decreases n, 0, |n.items| - k
  {
    if k == |n.items| then "]"
    else (if k > 0 then "," else "") + Render(n.items[k]) + RenderItems(n, k + 1)
  }

  /** The entries of dictionary `n` from the `k`-th key on, each after a `,` but the first, then `}`. */
  ghost function RenderEntries(n: Node, k: nat): (r: string)
    requires n.Dict? && Renderable(n) && k <= |DictKeys(n)|
    ensures r != [] && r[0] == (if k == |DictKeys(n)| then '}' else if k > 0 then ',' else '"')
    decreases n, 0, |DictKeys(n)| - k
  {
    var keys := DictKeys(n);
    if k == |keys| then "}"
    else
      assert keys[k] in n.entries;
      (if k > 0 then "," else "") + "\"" + keys[k] + "\":" + Render(n.entries[keys[k]]) + RenderEntries(n, k + 1)
  }

  /** The entries a dictionary's reading holds after its first `k` keys. */
  ghost function EntriesBefore(n: Node, k: nat): (r: map<string, Node>)
    requires n.Dict? && k <= |DictKeys(n)|
    ensures r.Keys <= n.entries.Keys
  {
    Restrict(n.entries, DictKeys(n)[..k])
  }

  /** The entries of `m` whose keys are listed in `keys`. */
  function Restrict(m: map<string, Node>, keys: seq<string>): (r: map<string, Node>)
    ensures forall key :: key in r <==> key in m && key in keys
    ensures forall key :: key in r ==> r[key] == m[key]
  {
    map key | key in keys && key in m :: m[key]
  }

  /** Emplacing one more key not listed before adds its entry. */
  lemma RestrictSnoc(m: map<string, Node>, keys: seq<string>, key: string)
    requires key in m && key !in keys
    ensures Emplace(Restrict(m, keys), key, m[key]) == Restrict(m, keys + [key])
  {
    assert Restrict(m, keys + [key]) == Restrict(m, keys)[key := m[key]];
  }

  /** Every rendering starts with `[`, `{`, `"`, a digit, `-`, `t` or `f`. */
  lemma RenderStart(n: Node)
    requires Renderable(n)
    ensures Render(n) != [] && (Render(n)[0] in "[{\"-tf" || Decimal.IsDigit(Render(n)[0]))
  {
    if n.Int? {
      Decimal.NatToStringDigits(if n.i < 0 then -n.i else n.i);
    }
  }

  lemma ParseNodeNumber(s: seq<char>)
    requires s != [] && (Decimal.IsDigit(s[0]) || s[0] == '-')
    ensures ParseNode(s) == ParseNumber(s)
  {
    calc {
      ParseNode(s);
      { ReadCharDirect(s); }
      ParseNumber([s[0]] + s[1..]);
      { assert [s[0]] + s[1..] == s; }
      ParseNumber(s);
    }
  }

  lemma ParseNodeBool(s: seq<char>)
    requires s != [] && IsAlpha(s[0])
    ensures ParseNode(s) == Ok(ParseBool(s))
  {
    calc {
      ParseNode(s);
      { ReadCharDirect(s); }
      Ok(ParseBool([s[0]] + s[1..]));
      { assert [s[0]] + s[1..] == s; }
      Ok(ParseBool(s));
    }
  }

  lemma ParseNodeString(s: seq<char>)
    requires s != [] && s[0] == '"'
    ensures ParseNode(s) == Ok((Str(ParseString(s[1..]).0), ParseString(s[1..]).1))
  {
    ReadCharDirect(s);
  }

  lemma ParseNodeArray(s: seq<char>)
    requires s != [] && s[0] == '['
    ensures ParseNode(s) == ParseArray(s[1..], [])
  {
    ReadCharDirect(s);
  }

  lemma ParseArrayClose(s: seq<char>, items: seq<Node>)
    requires s != [] && s[0] == ']'
    ensures ParseArray(s, items) == Ok((Array(items), s[1..]))
  {
    ReadCharDirect(s);
  }

  /** One element of an array: after a `,`, or put back when it is the element's first character. */
  lemma ParseArrayItem(s: seq<char>, items: seq<Node>, n: Node, after: seq<char>)
    requires s != [] && !IsSpace(s[0]) && s[0] != ']'
    requires ParseNode(if s[0] == ',' then s[1..] else s) == Ok((n, after)) && |after| < |s|
    ensures ParseArray(s, items) == ParseArray(after, items + [n])
  {
    ReadCharDirect(s);
    assert [s[0]] + s[1..] == s;
  }

  lemma IntRoundTrip(i: int, rest: seq<char>)
    requires INT_MIN <= i <= INT_MAX && Delimits(rest)
    ensures ParseNode(Decimal.IntToString(i) + rest) == Ok((Int(i), rest))
  {
    var t := Decimal.IntToString(i);
    Decimal.NatToStringDigits(if i < 0 then -i else i);
    assert forall j :: 0 <= j < |t| ==> IsNumberChar(t[j]) by {
      if i < 0 {
        assert forall j :: 1 <= j < |t| ==> t[j] == Decimal.NatToString(-i)[j - 1];
      }
    }
    assert '.' !in t;
    calc {
      ParseNode(t + rest);
      { ParseNodeNumber(t + rest); }
      ParseNumber(t + rest);
      { NumberTextOf(t, rest, []); assert [] + t == t; ToIntOfString(i); }
      Ok((Int(i), rest));
    }
  }

  lemma BoolRoundTrip(b: bool, rest: seq<char>)
    requires Delimits(rest)
    ensures ParseNode((if b then "true" else "false") + rest) == Ok((Bool(b), rest))
  {
    var t: string := if b then "true" else "false";
    assert forall i :: 0 <= i < |t| ==> IsAlpha(t[i]);
    assert t[0] == (if b then 't' else 'f');
    calc {
      ParseNode(t + rest);
      { ParseNodeBool(t + rest); }
      Ok(ParseBool(t + rest));
      { ParseBoolOf(t, rest); }
      Ok((Bool(t == "true"), rest));
    }
  }

  lemma ParseBoolOf(t: seq<char>, rest: seq<char>)
    requires forall i :: 0 <= i < |t| ==> IsAlpha(t[i])
    requires Delimits(rest)
    ensures ParseBool(t + rest) == (Bool(t == "true"), rest)
  {
    WordOf(t, rest, []);
    assert [] + t == t;
  }

  lemma StrRoundTrip(str: string, rest: seq<char>)
    requires '"' !in str
    ensures ParseNode("\"" + str + "\"" + rest) == Ok((Str(str), rest))
  {
    var s := "\"" + str + "\"" + rest;
    assert s[1..] == str + ['"'] + rest;
    QuoteSplitUnique(s[1..], ParseString(s[1..]).0, ParseString(s[1..]).1, str, rest);
    ParseNodeString(s);
  }

  /** Reading a rendered node gives the node back and stops right after it. */
  lemma {:induction false} RenderRoundTrip(n: Node, rest: seq<char>)
    requires Renderable(n) && Delimits(rest)
    ensures ParseNode(Render(n) + rest) == Ok((n, rest))
    decreases n, 1
  {
    match n
    case Int(i) => IntRoundTrip(i, rest);
    case Bool(b) => BoolRoundTrip(b, rest);
    case Str(str) => StrRoundTrip(str, rest);
    case Array(items) =>
      var s := Render(n) + rest;
      assert s[1..] == RenderItems(n, 0) + rest;
      assert items[..0] == [];
      calc {
        ParseNode(s);
        { ParseNodeArray(s); }
        ParseArray(RenderItems(n, 0) + rest, items[..0]);
        { ItemsRoundTrip(n, 0, rest); }
        Ok((n, rest));
      }
    case Dict(_) => DictRoundTrip(n, rest);
    case Double(_) =>
  }

  lemma {:induction false} DictRoundTrip(n: Node, rest: seq<char>)
    requires n.Dict? && Renderable(n) && Delimits(rest)
    ensures ParseNode(Render(n) + rest) == Ok((n, rest))
    decreases n, 0, |DictKeys(n)| + 1
  {
    var s := Render(n) + rest;
    assert s == "{" + (RenderEntries(n, 0) + rest);
    assert s[1..] == RenderEntries(n, 0) + rest;
    assert EntriesBefore(n, 0) == map[];
    ParseNodeDict(s);
    EntriesRoundTrip(n, 0, rest);
  }

  lemma {:induction false} ItemsRoundTrip(n: Node, k: nat, rest: seq<char>)
    requires n.Array? && Renderable(n) && k <= |n.items|
    ensures ParseArray(RenderItems(n, k) + rest, n.items[..k]) == Ok((n, rest))
    decreases n, 0, |n.items| - k, 1
  {
    if k == |n.items| {
      assert n.items[..k] == n.items;
      ParseArrayClose(RenderItems(n, k) + rest, n.items[..k]);
    } else {
      calc {
        ParseArray(RenderItems(n, k) + rest, n.items[..k]);
        { ItemStep(n, k, rest); }
        ParseArray(RenderItems(n, k + 1) + rest, n.items[..k + 1]);
        { ItemsRoundTrip(n, k + 1, rest); }
        Ok((n, rest));
      }
    }
  }

  /** How the text of the `k`-th item of a rendered array starts and ends. */
  lemma ItemText(n: Node, k: nat, rest: seq<char>)
    requires n.Array? && Renderable(n) && k < |n.items|
    ensures var s, after := RenderItems(n, k) + rest, RenderItems(n, k + 1) + rest;
      s != [] && !IsSpace(s[0]) && s[0] != ']' && |after| < |s| && Delimits(after) &&
      (if s[0] == ',' then s[1..] else s) == Render(n.items[k]) + after
  {
    var sep: string := if k > 0 then "," else "";
    var after := RenderItems(n, k + 1) + rest;
    assert RenderItems(n, k) + rest == sep + Render(n.items[k]) + after;
    RenderStart(n.items[k]);
    SeparatedText(sep, Render(n.items[k]), after);
  }

  lemma SeparatedText(sep: string, text: string, after: seq<char>)
    requires sep == "" || sep == ","
    requires text != [] && (text[0] in "[{\"-tf" || Decimal.IsDigit(text[0]))
    requires after != [] && (after[0] == ',' || after[0] == ']')
    ensures var s := sep + text + after;
      s != [] && !IsSpace(s[0]) && s[0] != ']' && |after| < |s| && Delimits(after) &&
      (if s[0] == ',' then s[1..] else s) == text + after
  {
    var s := sep + text + after;
    if sep == "," {
      assert s[1..] == text + after;
    } else {
      assert s == text + after;
    }
  }

  lemma TakeOneMore<T>(s: seq<T>, k: nat)
    requires k < |s|
    ensures s[..k] + [s[k]] == s[..k + 1]
  {
  }

  /** Reading the `k`-th item of a rendered array. */
  lemma {:induction false} ItemStep(n: Node, k: nat, rest: seq<char>)
    requires n.Array? && Renderable(n) && k < |n.items|
    ensures ParseArray(RenderItems(n, k) + rest, n.items[..k]) == ParseArray(RenderItems(n, k + 1) + rest, n.items[..k + 1])
    decreases n, 0, |n.items| - k, 0
  {
    var item := n.items[k];
    var s := RenderItems(n, k) + rest;
    var after := RenderItems(n, k + 1) + rest;
    ItemText(n, k, rest);
    RenderRoundTrip(item, after);
    ParseArrayItem(s, n.items[..k], item, after);
    TakeOneMore(n.items, k);
  }

  lemma ParseNodeDict(s: seq<char>)
    requires s != [] && s[0] == '{'
    ensures ParseNode(s) == ParseDict(s[1..], map[])
  {
    ReadCharDirect(s);
  }

  lemma ParseDictClose(s: seq<char>, entries: map<string, Node>)
    requires s != [] && s[0] == '}'
    ensures ParseDict(s, entries) == Ok((Dict(entries), s[1..]))
  {
    ReadCharDirect(s);
  }

  /** One entry of a dictionary, the first one or one after a `,`. */
  lemma ParseDictEntry(s: seq<char>, entries: map<string, Node>, key: string, n: Node, after: seq<char>)
    requires s != [] && !IsSpace(s[0]) && s[0] != '}'
    requires ParseEntry(if s[0] == ',' then AfterRead(s[1..]) else s[1..]) == Ok((key, n, after))
    ensures ParseDict(s, entries) == ParseDict(after, Emplace(entries, key, n))
  {
    ReadCharDirect(s);
  }

  lemma ParseEntryOf(s: seq<char>, key: string, afterKey: seq<char>, n: Node, after: seq<char>)
    requires ParseString(s) == (key, afterKey) && ParseNode(AfterRead(afterKey)) == Ok((n, after))
    ensures ParseEntry(s) == Ok((key, n, after))
  {
  }

  /** An entry `key":` and a rendered value reads back as that key and value. */
  lemma EntryRoundTrip(key: string, n: Node, rest: seq<char>)
    requires '"' !in key && Renderable(n) && Delimits(rest)
    ensures ParseEntry(key + "\":" + Render(n) + rest) == Ok((key, n, rest))
    decreases n, 2
  {
    var s := key + "\":" + Render(n) + rest;
    var afterKey := ":" + (Render(n) + rest);
    assert ParseString(s) == (key, afterKey) by {
      assert s == key + ['"'] + afterKey;
      QuoteSplitUnique(s, ParseString(s).0, ParseString(s).1, key, afterKey);
    }
    assert AfterRead(afterKey) == Render(n) + rest by {
      ReadCharDirect(afterKey);
    }
    RenderRoundTrip(n, rest);
    ParseEntryOf(s, key, afterKey, n, rest);
  }

  lemma {:induction false} EntriesRoundTrip(n: Node, k: nat, rest: seq<char>)
    requires n.Dict? && Renderable(n) && k <= |DictKeys(n)| && Delimits(rest)
    ensures ParseDict(RenderEntries(n, k) + rest, EntriesBefore(n, k)) == Ok((n, rest))
    decreases n, 0, |DictKeys(n)| - k, 1
  {
    var keys := DictKeys(n);
    if k == |keys| {
      AllEntries(n);
      ParseDictClose(RenderEntries(n, k) + rest, EntriesBefore(n, k));
    } else {
      calc {
        ParseDict(RenderEntries(n, k) + rest, EntriesBefore(n, k));
        { EntryStep(n, k, rest); }
        ParseDict(RenderEntries(n, k + 1) + rest, EntriesBefore(n, k + 1));
        { EntriesRoundTrip(n, k + 1, rest); }
        Ok((n, rest));
      }
    }
  }

  /** After all its keys, the reading holds the whole dictionary. */
  lemma AllEntries(n: Node)
    requires n.Dict?
    ensures EntriesBefore(n, |DictKeys(n)|) == n.entries
  {
    var keys := DictKeys(n);
    assert keys[..|keys|] == keys;
    RestrictAll(n.entries, keys);
  }

  /** Restricting a map to a list of all its keys keeps it whole. */
  lemma RestrictAll(m: map<string, Node>, keys: seq<string>)
    requires forall key :: key in m ==> key in keys
    ensures Restrict(m, keys) == m
  {
  }

  /** Reading the entry of the `k`-th key of a rendered dictionary adds that key with its value. */
  lemma {:induction false} EntryStep(n: Node, k: nat, rest: seq<char>)
    requires n.Dict? && Renderable(n) && k < |DictKeys(n)|
    ensures ParseDict(RenderEntries(n, k) + rest, EntriesBefore(n, k)) ==
            ParseDict(RenderEntries(n, k + 1) + rest, EntriesBefore(n, k + 1))
    decreases n, 0, |DictKeys(n)| - k, 0
  {
    var key := DictKeys(n)[k];
    var v := n.entries[key];
    var s := RenderEntries(n, k) + rest;
    var after := RenderEntries(n, k + 1) + rest;
    EntryText(n, k, rest);
    EntryRoundTrip(key, v, after);
    ParseDictEntry(s, EntriesBefore(n, k), key, v, after);
    EntriesAdded(n, k);
  }

  /** How the text of the `k`-th entry of a rendered dictionary starts, and what the entry reader is given. */
  lemma EntryText(n: Node, k: nat, rest: seq<char>)
    requires n.Dict? && Renderable(n) && k < |DictKeys(n)|
    ensures var key := DictKeys(n)[k];
      key in n.entries && '"' !in key && Renderable(n.entries[key]) &&
      var s, after := RenderEntries(n, k) + rest, RenderEntries(n, k + 1) + rest;
      s != [] && !IsSpace(s[0]) && s[0] != '}' && Delimits(after) &&
      (if s[0] == ',' then AfterRead(s[1..]) else s[1..]) == key + "\":" + Render(n.entries[key]) + after
  {
    var key := DictKeys(n)[k];
    assert key in n.entries;
    var sep: string := if k > 0 then "," else "";
    var text := Render(n.entries[key]);
    var after := RenderEntries(n, k + 1) + rest;
    assert RenderEntries(n, k) + rest == sep + "\"" + key + "\":" + text + after;
    SeparatedEntry(sep, key, text, after);
  }

  lemma SeparatedEntry(sep: string, key: string, text: string, after: seq<char>)
    requires sep == "" || sep == ","
    requires after != [] && (after[0] == ',' || after[0] == '}')
    ensures var s := sep + "\"" + key + "\":" + text + after;
      s != [] && !IsSpace(s[0]) && s[0] != '}' && Delimits(after) &&
      (if s[0] == ',' then AfterRead(s[1..]) else s[1..]) == key + "\":" + text + after
  {
    var entry := key + "\":" + text + after;
    var s := sep + "\"" + key + "\":" + text + after;
    if sep == "," {
      assert s == [','] + (['"'] + entry);
      ReadCharDirect(['"'] + entry);
    } else {
      assert s == ['"'] + entry;
    }
  }

  /** The `k`-th key is not among the earlier ones, so `emplace` adds it with its value. */
  lemma EntriesAdded(n: Node, k: nat)
    requires n.Dict? && k < |DictKeys(n)|
    ensures var key := DictKeys(n)[k];
      key in n.entries && Emplace(EntriesBefore(n, k), key, n.entries[key]) == EntriesBefore(n, k + 1)
  {
    var keys := DictKeys(n);
    assert keys[k] in n.entries;
    assert keys[k] !in keys[..k] by {
      forall i | 0 <= i < k ensures keys[..k][i] != keys[k] {
        assert keys[..k][i] == keys[i];
      }
    }
    assert keys[..k + 1] == keys[..k] + [keys[k]];
    RestrictSnoc(n.entries, keys[..k], keys[k]);
  }

  /** `Load` reads back every renderable document. */
  lemma LoadRender(n: Node)
    requires Renderable(n)
    ensures Load(Render(n)) == Ok(n)
  {
    RenderRoundTrip(n, []);
    assert Render(n) + [] == Render(n);
  }

  // The stream and the loading methods.

  /** An input stream: the text and how much of it has been consumed. */
  class Input {
    const text: seq<char>
    var pos: nat

    ghost predicate Valid()
      reads this
    {
      pos <= |text|
    }

    /** What the stream has still to give. */
    function Rest(): seq<char>
      requires Valid()
      reads this
    {
      text[pos..]
    }

    constructor (s: seq<char>)
      ensures Valid() && Rest() == s
    {
      text, pos := s, 0;
    }

    /** The spaces `>>` skips before a character. */
    method SkipSpaces()
      requires Valid()
      modifies this
      ensures Valid() && pos >= old(pos) && Rest() == SkipSpace(old(Rest()))
    {
      while pos < |text| && IsSpace(text[pos])
        invariant Valid() && pos >= old(pos)
        invariant SkipSpace(old(Rest())) == SkipSpace(Rest())
      {
        assert Rest() == [text[pos]] + text[pos + 1..];
        pos := pos + 1;
      }
    }

    /** `input >> c`: `ok` is false, and the stream at its end, when only spaces were left. */
    method Read() returns (ok: bool, c: char)
      requires Valid()
      modifies this
      ensures Valid() && pos >= old(pos)
      ensures ok <==> ReadChar(old(Rest())).Some?
      ensures !ok ==> Rest() == []
      ensures ok ==> ReadChar(old(Rest())) == Some((c, Rest())) && text[pos - 1] == c
    {
      ghost var before := old(Rest());
      SkipSpaces();
      ReadCharSkipped(before, Rest());
      if pos == |text| {
        return false, ' ';
      }
      ok, c := true, text[pos];
      assert Rest() == [c] + text[pos + 1..];
      pos := pos + 1;
    }

    /** `putback`: returns the character just read to the stream. */
    method PutBack()
      requires Valid() && pos > 0
      modifies this
      ensures Valid() && Rest() == [text[old(pos) - 1]] + old(Rest())
    {
      pos := pos - 1;
      assert Rest() == [text[pos]] + text[pos + 1..];
    }
  }

  /** A loading method's result together with what remains of the stream. */
  function Outcome(r: Result<Node, Error>, rest: seq<char>): Result<(Node, seq<char>), Error>
  {
    match r
    case Ok(n) => Ok((n, rest))
    case Err(e) => Err(e)
  }

  /** A string splits at most one way around its first `"`. */
  lemma QuoteSplitUnique(s: seq<char>, a: string, b: seq<char>, c: string, d: seq<char>)
    requires '"' !in a && '"' !in c
    requires s == a + ['"'] + b && s == c + ['"'] + d
    ensures a == c && b == d
  {
    assert s[|a|] == '"' && s[|c|] == '"';
    assert forall i :: 0 <= i < |a| ==> s[i] == a[i] != '"';
    assert forall i :: 0 <= i < |c| ==> s[i] == c[i] != '"';
    assert |a| == |c|;
    assert a == s[..|a|] == c;
    assert b == s[|a| + 1..] == d;
  }

  /** `LoadString`: `getline` up to `"`. */
  method LoadString(input: Input) returns (n: Node)
    requires input.Valid()
    modifies input
    ensures input.Valid()
    ensures (n, input.Rest()) == (Str(ParseString(old(input.Rest())).0), ParseString(old(input.Rest())).1)
  {
    ghost var start := input.pos;
    var line := "";
    while input.pos < |input.text| && input.text[input.pos] != '"'
      invariant start <= input.pos <= |input.text|
      invariant line == input.text[start..input.pos] && '"' !in line
      decreases |input.text| - input.pos
    {
      line := line + [input.text[input.pos]];
      input.pos := input.pos + 1;
    }
    ghost var s := input.text[start..];
    assert old(input.Rest()) == s;
    if input.pos < |input.text| {
      assert s == line + ['"'] + input.text[input.pos + 1..];
      QuoteSplitUnique(s, ParseString(s).0, ParseString(s).1, line, input.text[input.pos + 1..]);
      input.pos := input.pos + 1;
      assert input.Rest() == ParseString(s).1;
    } else {
      assert s == line && '"' !in s;
      assert input.Rest() == [];
    }
    n := Str(line);
  }

  /** `LoadNumber`: collects digits, `-` and `.`, then converts with `stod` or `stoi`. */
  method LoadNumber(input: Input) returns (r: Result<Node, Error>)
    requires input.Valid()
    modifies input
    ensures input.Valid()
    ensures Outcome(r, input.Rest()) == ParseNumber(old(input.Rest()))
  {
    var text: seq<char> := [];
    var isDouble := false;
    var done := false;
    while !done
      invariant input.Valid()
      invariant isDouble <==> '.' in text
      invariant !done ==> NumberText(old(input.Rest()), []) == NumberText(input.Rest(), text)
      invariant done ==> NumberText(old(input.Rest()), []) == (text, input.Rest())
      decreases !done, |input.Rest()|
    {
      var ok, c := input.Read();
      if !ok {
        done := true;
      } else if IsNumberChar(c) {
        isDouble := isDouble || c == '.';
        text := text + [c];
      } else {
        input.PutBack();
        done := true;
      }
    }
    if isDouble {
      var d := ToDouble(text);
      r := if d.Ok? then Ok(Double(d.value)) else Err(d.error);
    } else {
      var i := ToInt(text);
      r := if i.Ok? then Ok(Int(i.value)) else Err(i.error);
    }
  }

  /** `LoadBool`: collects letters; true exactly for `true`. */
  method LoadBool(input: Input) returns (n: Node)
    requires input.Valid()
    modifies input
    ensures input.Valid()
    ensures (n, input.Rest()) == ParseBool(old(input.Rest()))
  {
    var word: seq<char> := [];
    var done := false;
    while !done
      invariant input.Valid()
      invariant !done ==> Word(old(input.Rest()), []) == Word(input.Rest(), word)
      invariant done ==> Word(old(input.Rest()), []) == (word, input.Rest())
      decreases !done, |input.Rest()|
    {
      var ok, c := input.Read();
      if !ok {
        done := true;
      } else if IsAlpha(c) {
        word := word + [c];
      } else {
        input.PutBack();
        done := true;
      }
    }
    n := Bool(word == "true");
  }

  /** `LoadNode`: dispatches on the first character after the spaces. */
  method LoadNode(input: Input) returns (r: Result<Node, Error>)
    requires input.Valid()
    modifies input
    decreases |input.Rest()|, 0
    ensures input.Valid()
    ensures Outcome(r, input.Rest()) == ParseNode(old(input.Rest()))
  {
    var ok, c := input.Read();
    if !ok {
      return Err(EndOfInput);
    }
    if c == '[' {
      r := LoadArray(input);
    } else if c == '{' {
      r := LoadDict(input);
    } else if c == '"' {
      var line := LoadString(input);
      r := Ok(line);
    } else if Decimal.IsDigit(c) || c == '-' {
      input.PutBack();
      r := LoadNumber(input);
    } else {
      input.PutBack();
      var b := LoadBool(input);
      r := Ok(b);
    }
  }

  /**
   * `LoadArray`. Where the source's loop would repeat an iteration that
   * consumed nothing forever, this returns `Diverges`.
   */
  method LoadArray(input: Input) returns (r: Result<Node, Error>)
    requires input.Valid()
    modifies input
    decreases |input.Rest()|, 1
    ensures input.Valid()
    ensures Outcome(r, input.Rest()) == ParseArray(old(input.Rest()), [])
  {
    var result: seq<Node> := [];
    while true
      invariant input.Valid()
      invariant |input.Rest()| <= old(|input.Rest()|)
      invariant ParseArray(old(input.Rest()), []) == ParseArray(input.Rest(), result)
      decreases |input.Rest()|
    {
      var before := |input.Rest()|;
      var ok, c := input.Read();
      if !ok || c == ']' {
        return Ok(Array(result));
      }
      if c != ',' {
        input.PutBack();
      }
      var n := LoadNode(input);
      if n.Err? {
        return Err(n.error);
      }
      if |input.Rest()| == before {
        return Err(Diverges);
      }
      result := result + [n.value];
    }
  }

  /** The key and value of one `LoadDict` entry. */
  method LoadEntry(input: Input) returns (r: Result<(string, Node), Error>)
    requires input.Valid()
    modifies input
    decreases |input.Rest()|, 1
    ensures input.Valid()
    ensures match ParseEntry(old(input.Rest()))
            case Err(e) => r == Err(e)
            case Ok((key, n, after)) => r == Ok((key, n)) && input.Rest() == after
  {
    var key := LoadString(input);
    var ok, c := input.Read();
    var n := LoadNode(input);
    if n.Err? {
      return Err(n.error);
    }
    return Ok((key.s, n.value));
  }

  /** `LoadDict`: `emplace` keeps the first value of a repeated key. */
  method LoadDict(input: Input) returns (r: Result<Node, Error>)
    requires input.Valid()
    modifies input
    decreases |input.Rest()|, 1
    ensures input.Valid()
    ensures Outcome(r, input.Rest()) == ParseDict(old(input.Rest()), map[])
  {
    var result: map<string, Node> := map[];
    while true
      invariant input.Valid()
      invariant |input.Rest()| <= old(|input.Rest()|)
      invariant ParseDict(old(input.Rest()), map[]) == ParseDict(input.Rest(), result)
      decreases |input.Rest()|
    {
      var ok, c := input.Read();
      if !ok || c == '}' {
        return Ok(Dict(result));
      }
      if c == ',' {
        ok, c := input.Read();
      }
      var entry := LoadEntry(input);
      if entry.Err? {
        return Err(entry.error);
      }
      var (key, n) := entry.value;
      if key !in result {
        result := result[key := n];
      }
    }
  }
}

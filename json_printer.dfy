/**
 * A streaming JSON printer: values, arrays and objects write themselves to
 * a shared output as they are built. In the source a context closes itself
 * and an unprinted value prints `null` when destroyed; here those
 * destructors are the methods `Close` and `Finish`, called where the C++
 * objects go out of scope.
 */
module JsonPrinter {
  import Decimal

  /** `int64_t`. */
  newtype Int64 = x: int | -0x8000_0000_0000_0000 <= x < 0x8000_0000_0000_0000

  // What is written.

  /** The characters `String` writes for one character: `"` and `\` get a `\` before them. */
  function EscapeChar(c: char): (r: string)
    ensures r == [c] || r == ['\\', c]
  {
    if c == '"' || c == '\\' then ['\\', c] else [c]
  }

  /** The characters `String` writes between the quotes. */
  function Escape(s: string): (r: string)
    ensures |r| >= |s|
  {
    if s == [] then [] else Escape(s[..|s| - 1]) + EscapeChar(s[|s| - 1])
  }

  /** What `String` writes: the escaped text between quotes. */
  function Quoted(s: string): string
  {
    ['"'] + Escape(s) + ['"']
  }

  /** What `Boolean` writes under `std::boolalpha`. */
  function BoolText(b: bool): string
  {
    if b then "true" else "false"
  }

  /** What `Number` writes: the decimal spelling. */
  function NumberText(v: Int64): string
  {
    Decimal.IntToString(v as int)
  }

  /** Reading escaped text back: a `\` makes the next character literal. */
  function Unescape(s: string): string
    decreases |s|
  {
    if s == [] then []
    else if s[0] == '\\' && |s| > 1 then [s[1]] + Unescape(s[2..])
    else [s[0]] + Unescape(s[1..])
  }

  lemma {:induction false} EscapeAppend(a: string, b: string)
    ensures Escape(a + b) == Escape(a) + Escape(b)
    decreases |b|
  {
    if b == [] {
      assert a + b == a;
    } else {
      var b' := b[..|b| - 1];
      assert (a + b)[..|a + b| - 1] == a + b';
      EscapeAppend(a, b');
    }
  }

  lemma EscapeCons(c: char, s: string)
    ensures Escape([c] + s) == EscapeChar(c) + Escape(s)
  {
    EscapeAppend([c], s);
    assert Escape([c]) == Escape([]) + EscapeChar(c);
  }

  /** Escaping one more character of `s` appends that character's escape. */
  lemma EscapeSnoc(s: string, i: nat)
    requires i < |s|
    ensures Escape(s[..i + 1]) == Escape(s[..i]) + EscapeChar(s[i])
  {
    assert s[..i + 1][..i] == s[..i];
  }

  /** A single character is written as `EscapeChar` says. */
  lemma EscapeOne(c: char)
    ensures Escape([c]) == EscapeChar(c)
  {
    assert [c][..0] == [];
  }

  /** Unescaping the escaped text gives the original string back. */
  lemma {:induction false} UnescapeEscape(s: string)
    ensures Unescape(Escape(s)) == s
    decreases |s|
  {
    if s != [] {
      EscapeCons(s[0], s[1..]);
      assert [s[0]] + s[1..] == s;
      UnescapeEscape(s[1..]);
      var e := EscapeChar(s[0]) + Escape(s[1..]);
      if s[0] == '"' || s[0] == '\\' {
        assert e[2..] == Escape(s[1..]);
      } else {
        assert e[1..] == Escape(s[1..]);
      }
    }
  }

  /** Every `"` and `\` of the original comes out with a `\` before it. */
  lemma {:induction false} EscapedQuotes(s: string, i: nat)
    requires i < |Escape(s)| && Escape(s)[i] == '"'
    ensures i > 0 && Escape(s)[i - 1] == '\\'
    decreases |s|
  {
    var init := s[..|s| - 1];
    var c := s[|s| - 1];
    if i < |Escape(init)| {
      EscapedQuotes(init, i);
    }
  }

  /** A string with no `"` or `\` is written as it is. */
  lemma {:induction false} EscapePlain(s: string)
    requires '"' !in s && '\\' !in s
    ensures Escape(s) == s
    decreases |s|
  {
    if s != [] {
      EscapePlain(s[..|s| - 1]);
      assert s[..|s| - 1] + [s[|s| - 1]] == s;
    }
  }

  // The stream and the printer's objects.

  /** The output stream. */
  /** The comma an element is preceded by once the context holds one. */
  function Separator(firstAdded: bool): string
  {
    if firstAdded then "," else ""
  }

  class Output {
    var text: string

    constructor ()
      ensures text == []
    {
      text := [];
    }

    method Write(s: string)
      modifies this
      ensures text == old(text) + s
    {
      text := text + s;
    }
  }

  /** `Value`: one value to be written, `null` unless something else is. */
  class Value {
    const out: Output
    var printed: bool

    constructor (out: Output)
      ensures this.out == out && !printed
    {
      this.out := out;
      printed := false;
    }

    method Number(v: Int64)
      modifies this, out
      ensures out.text == old(out.text) + NumberText(v) && printed
    {
      out.Write(NumberText(v));
      printed := true;
    }

    /** `String`: writes `"`, each character escaped, and `"`. */
    method String(value: string)
      modifies this, out
      ensures out.text == old(out.text) + Quoted(value) && printed
    {
      out.Write(['"']);
      for i := 0 to |value|
        invariant out.text == old(out.text) + ['"'] + Escape(value[..i])
      {
        ghost var before := out.text;
        if value[i] == '"' || value[i] == '\\' {
          out.Write(['\\']);
        }
        out.Write([value[i]]);
        assert out.text == before + EscapeChar(value[i]);
        EscapeSnoc(value, i);
      }
      assert value[..|value|] == value;
      out.Write(['"']);
      printed := true;
    }

    method Boolean(b: bool)
      modifies this, out
      ensures out.text == old(out.text) + BoolText(b) && printed
    {
      out.Write(BoolText(b));
      printed := true;
    }

    method Null()
      modifies this, out
      ensures out.text == old(out.text) + "null" && printed
    {
      out.Write("null");
      printed := true;
    }

    /** `BeginArray`: the value is an array, opened at once. */
    method BeginArray() returns (a: ArrayContext)
      modifies this, out
      ensures printed && fresh(a) && fresh(a.context)
      ensures a.context.out == out && a.context.isOpen && out.text == old(out.text) + "["
    {
      printed := true;
      a := new ArrayContext(out);
    }

    /** `BeginObject`: the value is an object, opened at once. */
    method BeginObject() returns (o: ObjectContext)
      modifies this, out
      ensures printed && fresh(o) && fresh(o.context)
      ensures o.context.out == out && o.context.isOpen && out.text == old(out.text) + "{"
    {
      printed := true;
      o := new ObjectContext(out);
    }

    /** The destructor: a value nothing was written for writes `null`. */
    method Finish()
      modifies this, out
      ensures out.text == old(out.text) + (if old(printed) then "" else "null") && printed
    {
      if !printed {
        Null();
      }
    }
  }

  /** `Context`: what arrays and objects share, the brackets and the separating commas. */
  class Context {
    const out: Output
    var firstAdded: bool
    var isOpen: bool

    /** Writes the opening bracket, `[` or `{` as the context is an array or an object. */
    constructor (out: Output, beginChar: char)
      modifies out
      ensures this.out == out
      ensures !firstAdded && isOpen && out.text == old(out.text) + [beginChar]
    {
      this.out := out;
      firstAdded, isOpen := false, true;
      new;
      out.Write([beginChar]);
    }

    /** `Delimiter`: nothing before the first element, `,` before each later one. */
    method Delimiter()
      modifies this, out
      ensures firstAdded && isOpen == old(isOpen)
      ensures out.text == old(out.text) + Separator(old(firstAdded))
    {
      if !firstAdded {
        firstAdded := true;
      } else {
        out.Write(",");
      }
    }

    /** `End`: the closing bracket, `]` or `}`, written at most once. */
    method End(endChar: char)
      modifies this, out
      ensures !isOpen && firstAdded == old(firstAdded)
      ensures out.text == old(out.text) + (if old(isOpen) then [endChar] else [])
    {
      if isOpen {
        out.Write([endChar]);
        isOpen := false;
      }
    }

    /** `AddValue`: the delimiter, then a fresh value on the same stream. */
    method AddValue() returns (v: Value)
      modifies this, out
      ensures fresh(v) && v.out == out && !v.printed && firstAdded && isOpen == old(isOpen)
      ensures out.text == old(out.text) + Separator(old(firstAdded))
    {
      Delimiter();
      v := new Value(out);
    }
  }

  /** `Array`: a context between `[` and `]`. */
  class ArrayContext {
    const context: Context

    constructor (out: Output)
      modifies out
      ensures fresh(context) && context.out == out
      ensures !context.firstAdded && context.isOpen && out.text == old(out.text) + "["
    {
      context := new Context(out, '[');
    }

    method Number(v: Int64)
      modifies context, context.out
      ensures context.firstAdded && context.isOpen == old(context.isOpen)
      ensures context.out.text == old(context.out.text) + Separator(old(context.firstAdded)) + NumberText(v)
    {
      var value := context.AddValue();
      value.Number(v);
      value.Finish();
    }

    method String(s: string)
      modifies context, context.out
      ensures context.firstAdded && context.isOpen == old(context.isOpen)
      ensures context.out.text == old(context.out.text) + Separator(old(context.firstAdded)) + Quoted(s)
    {
      var value := context.AddValue();
      value.String(s);
      value.Finish();
    }

    method Boolean(b: bool)
      modifies context, context.out
      ensures context.firstAdded && context.isOpen == old(context.isOpen)
      ensures context.out.text == old(context.out.text) + Separator(old(context.firstAdded)) + BoolText(b)
    {
      var value := context.AddValue();
      value.Boolean(b);
      value.Finish();
    }

    method Null()
      modifies context, context.out
      ensures context.firstAdded && context.isOpen == old(context.isOpen)
      ensures context.out.text == old(context.out.text) + Separator(old(context.firstAdded)) + "null"
    {
      var value := context.AddValue();
      value.Null();
      value.Finish();
    }

    /** `BeginArray`: the delimiter and a nested array. */
    method BeginArray() returns (a: ArrayContext)
      modifies context, context.out
      ensures context.firstAdded && context.isOpen == old(context.isOpen)
      ensures fresh(a) && fresh(a.context) && a.context.out == context.out && a.context.isOpen && !a.context.firstAdded
      ensures context.out.text == old(context.out.text) + Separator(old(context.firstAdded)) + "["
    {
      context.Delimiter();
      a := new ArrayContext(context.out);
    }

    /** `BeginObject`: the delimiter and a nested object. */
    method BeginObject() returns (o: ObjectContext)
      modifies context, context.out
      ensures context.firstAdded && context.isOpen == old(context.isOpen)
      ensures fresh(o) && fresh(o.context) && o.context.out == context.out && o.context.isOpen && !o.context.firstAdded
      ensures context.out.text == old(context.out.text) + Separator(old(context.firstAdded)) + "{"
    {
      context.Delimiter();
      o := new ObjectContext(context.out);
    }

    /** `EndArray`, and the destructor: `]` unless already written. */
    method Close()
      modifies context, context.out
      ensures !context.isOpen && context.firstAdded == old(context.firstAdded)
      ensures context.out.text == old(context.out.text) + (if old(context.isOpen) then "]" else "")
    {
      context.End(']');
    }
  }

  /** `Object`: a context between `{` and `}` whose elements are keyed. */
  class ObjectContext {
    const context: Context

    constructor (out: Output)
      modifies out
      ensures fresh(context) && context.out == out
      ensures !context.firstAdded && context.isOpen && out.text == old(out.text) + "{"
    {
      context := new Context(out, '{');
    }

    /** `Key`: the delimiter, the key written as a string, `:`, and the value to come. */
    method Key(key: string) returns (v: Value)
      modifies context, context.out
      ensures context.firstAdded && context.isOpen == old(context.isOpen)
      ensures fresh(v) && v.out == context.out && !v.printed
      ensures context.out.text == old(context.out.text) + Separator(old(context.firstAdded)) + Quoted(key) + ":"
    {
      context.Delimiter();
      var name := new Value(context.out);
      name.String(key);
      context.out.Write(":");
      v := new Value(context.out);
    }

    /** `EndObject`, and the destructor: `}` unless already written. */
    method Close()
      modifies context, context.out
      ensures !context.isOpen && context.firstAdded == old(context.firstAdded)
      ensures context.out.text == old(context.out.text) + (if old(context.isOpen) then "}" else "")
    {
      context.End('}');
    }
  }

  // The source's three tests.

  /** `[5,6,[7],8,"bingo!"]`, split at the commas between the elements. */
  method ArrayExample() returns (text: string)
    ensures text == "[" + "5" + "," + "6" + "," + "[7]" + "," + "8" + "," + "\"bingo!\"" + "]"
  {
    Digits();
    PlainQuotes();
    var output := new Output();
    var json := new ArrayContext(output);
    json.Number(5);
    json.Number(6);
    assert output.text == "[" + "5" + "," + "6";
    var inner := json.BeginArray();
    inner.Number(7);
    inner.Close();
    assert output.text == "[" + "5" + "," + "6" + "," + "[7]";
    json.Number(8);
    json.String("bingo!");
    inner.Close();
    json.Close();
    text := output.text;
  }

  /** `{"id1":1234,"id2":false,"":null,"\"":"\\"}`, split at the commas between the entries. */
  method ObjectExample() returns (text: string)
    ensures text == "{" + "\"id1\":1234" + "," + "\"id2\":false" + "," + "\"\":null" + "," + "\"\\\"\":\"\\\\\"" + "}"
  {
    var output := new Output();
    var json := new ObjectContext(output);
    PlainEntries(json);
    SpecialEntries(json);
    json.Close();
    text := output.text;
  }

  /** The first two entries of `ObjectExample`, keys and values needing no escapes. */
  method PlainEntries(json: ObjectContext)
    requires json.context.isOpen && !json.context.firstAdded
    modifies json.context, json.context.out
    ensures json.context.isOpen && json.context.firstAdded
    ensures json.context.out.text == old(json.context.out.text) + "\"id1\":1234" + "," + "\"id2\":false"
  {
    Digits();
    PlainQuotes();
    var v1 := json.Key("id1");
    v1.Number(1234);
    var v2 := json.Key("id2");
    v2.Boolean(false);
  }

  /** The last two entries of `ObjectExample`: an empty key, and a quote and a backslash to escape. */
  method SpecialEntries(json: ObjectContext)
    requires json.context.isOpen && json.context.firstAdded
    modifies json.context, json.context.out
    ensures json.context.isOpen && json.context.firstAdded
    ensures json.context.out.text == old(json.context.out.text) + "," + "\"\":null" + "," + "\"\\\"\":\"\\\\\""
  {
    PlainQuotes();
    SpecialQuotes();
    var v3 := json.Key("");
    v3.Null();
    var v4 := json.Key("\"");
    v4.String("\\");
  }

  /** Contexts left open are closed innermost first: `[[{}]]`. */
  method AutoCloseExample() returns (text: string)
    ensures text == "[[{}]]"
  {
    var output := new Output();
    var json := new ArrayContext(output);
    var inner := json.BeginArray();
    var obj := inner.BeginObject();
    obj.Close();
    inner.Close();
    json.Close();
    text := output.text;
  }

  /** The quoted strings the examples write: a plain one ... */
  lemma PlainQuotes()
    ensures Quoted("bingo!") == "\"bingo!\""
    ensures Quoted("id1") == "\"id1\"" && Quoted("id2") == "\"id2\"" && Quoted("") == "\"\""
  {
    QuotedPlain("bingo!");
    QuotedPlain("id1");
    QuotedPlain("id2");
  }

  /** A string with no `"` or `\` is written between quotes as it is. */
  lemma QuotedPlain(s: string)
    requires '"' !in s && '\\' !in s
    ensures Quoted(s) == ['"'] + s + ['"']
  {
    EscapePlain(s);
  }

  /** ... and the two that need a backslash. */
  lemma SpecialQuotes()
    ensures Quoted("\"") == "\"\\\"\"" && Quoted("\\") == "\"\\\\\""
  {
    assert Quoted("\"") == "\"\\\"\"" by { EscapeOne('"'); }
    assert Quoted("\\") == "\"\\\\\"" by { EscapeOne('\\'); }
  }

  /** The spellings of the numbers the examples write. */
  lemma Digits()
    ensures NumberText(5) == "5" && NumberText(6) == "6" && NumberText(7) == "7" && NumberText(8) == "8"
    ensures NumberText(1234) == "1234"
  {
    assert Decimal.NatToString(1) == "1";
    assert Decimal.NatToString(12) == "12";
    assert Decimal.NatToString(123) == "123";
  }
}

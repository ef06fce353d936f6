/**
 * `Editor`: a text held as a list of characters, a cursor between two
 * characters (or at either end) and a clipboard filled by `Cut` and `Copy`.
 * The list iterator `it_` is modelled by the number of characters before it.
 */
module TextEditor {
  import Strings

  /** `min(a, b)` on natural numbers. */
  function Min(a: nat, b: nat): nat
  {
    if a <= b then a else b
  }

  class Editor {
    /** `data_`, the text. */
    var text: seq<char>
    /** The position of `it_`: the number of characters before the cursor. */
    var cursor: nat
    /** `buffer_`, the clipboard. */
    var buffer: seq<char>

    ghost predicate Valid()
      reads this
    {
      cursor <= |text|
    }

    /** An empty text with the cursor at its start and nothing in the clipboard. */
    constructor ()
      ensures Valid() && text == [] && cursor == 0 && buffer == []
    {
      text, cursor, buffer := [], 0, [];
    }

    /** Moves the cursor one character back, unless it is at the start. */
    method Left()
      requires Valid()
      modifies this
      ensures Valid() && text == old(text) && buffer == old(buffer)
      ensures cursor == if old(cursor) == 0 then 0 else old(cursor) - 1
    {
      if cursor != 0 {
        cursor := cursor - 1;
      }
    }

    /** Moves the cursor one character forward, unless it is at the end. */
    method Right()
      requires Valid()
      modifies this
      ensures Valid() && text == old(text) && buffer == old(buffer)
      ensures cursor == if old(cursor) == |text| then old(cursor) else old(cursor) + 1
    {
      if cursor != |text| {
        cursor := cursor + 1;
      }
    }

    /** Inserts `token` before the cursor, which stays after the new character. */
    method Insert(token: char)
      requires Valid()
      modifies this
      ensures Valid() && buffer == old(buffer)
      ensures text == old(text[..cursor]) + [token] + old(text[cursor..])
      ensures cursor == old(cursor) + 1
    {
      text := text[..cursor] + [token] + text[cursor..];
      Right();
    }

    /**
     * The iterator loop of `Cut` and `Copy`: steps forward `tokens` times or
     * until the end of the text, whichever comes first.
     */
    method SpanEnd(tokens: nat) returns (end: nat)
      requires Valid()
      ensures end == Min(cursor + tokens, |text|)
      ensures cursor <= end <= |text|
    {
      end := cursor;
      var i := 0;
      while i < tokens
        invariant 0 <= i <= tokens
        invariant end == cursor + i <= |text|
      {
        if end == |text| {
          break;
        }
        end := end + 1;
        i := i + 1;
      }
    }

    /** Moves up to `tokens` characters after the cursor into the clipboard. */
    method Cut(tokens: nat)
      requires Valid()
      modifies this
      ensures Valid() && cursor == old(cursor)
      ensures buffer == old(text[cursor..Min(cursor + tokens, |text|)])
      ensures text == old(text[..cursor]) + old(text[Min(cursor + tokens, |text|)..])
    {
      var end := SpanEnd(tokens);
      buffer := text[cursor..end];
      text := text[..cursor] + text[end..];
    }

    /** Copies up to `tokens` characters after the cursor into the clipboard. */
    method Copy(tokens: nat)
      requires Valid()
      modifies this
      ensures Valid() && text == old(text) && cursor == old(cursor)
      ensures buffer == text[cursor..Min(cursor + tokens, |text|)]
    {
      var end := SpanEnd(tokens);
      buffer := text[cursor..end];
    }

    /** Inserts the clipboard before the cursor, which moves past it. */
    method Paste()
      requires Valid()
      modifies this
      ensures Valid() && buffer == old(buffer)
      ensures text == old(text[..cursor]) + buffer + old(text[cursor..])
      ensures cursor == old(cursor) + |buffer|
    {
      text := text[..cursor] + buffer + text[cursor..];
      cursor := cursor + |buffer|;
    }

    /** The text, without changing anything. */
    method GetText() returns (s: string)
      requires Valid()
      ensures s == text
    {
      s := text;
    }

    /** `TypeText`: inserts the characters of `t` one by one. */
    method TypeText(t: string)
      requires Valid()
      modifies this
      ensures Valid() && buffer == old(buffer)
      ensures text == old(text[..cursor]) + t + old(text[cursor..])
      ensures cursor == old(cursor) + |t|
    {
      ghost var before, after := text[..cursor], text[cursor..];
      for i := 0 to |t|
        invariant Valid() && buffer == old(buffer)
        invariant text == before + t[..i] + after && cursor == |before| + i
      {
        Insert(t[i]);
        assert t[..i + 1] == t[..i] + [t[i]];
      }
    }

    /** `n` calls of `Left`. */
    method LeftTimes(n: nat)
      requires Valid()
      modifies this
      ensures Valid() && text == old(text) && buffer == old(buffer)
      ensures cursor == if old(cursor) <= n then 0 else old(cursor) - n
    {
      for i := 0 to n
        invariant Valid() && text == old(text) && buffer == old(buffer)
        invariant cursor == if old(cursor) <= i then 0 else old(cursor) - i
      {
        Left();
      }
    }

    /** `n` calls of `Right`. */
    method RightTimes(n: nat)
      requires Valid()
      modifies this
      ensures Valid() && text == old(text) && buffer == old(buffer)
      ensures cursor == Min(old(cursor) + n, |text|)
    {
      for i := 0 to n
        invariant Valid() && text == old(text) && buffer == old(buffer)
        invariant cursor == Min(old(cursor) + i, |text|)
      {
        Right();
      }
    }
  }

  /** Paste after Cut at the same place restores the text and leaves the cursor after it. */
  method CutThenPaste(e: Editor, tokens: nat)
    requires e.Valid()
    modifies e
    ensures e.Valid() && e.text == old(e.text) && e.buffer == old(e.text[e.cursor..Min(e.cursor + tokens, |e.text|)])
    ensures e.cursor == Min(old(e.cursor) + tokens, |e.text|)
  {
    e.Cut(tokens);
    e.Paste();
    assert e.text == old(e.text[..e.cursor]) + old(e.text[e.cursor..Min(e.cursor + tokens, |e.text|)])
      + old(e.text[Min(e.cursor + tokens, |e.text|)..]);
  }

  /** The first session of `TestEditing`: "hello, world" becomes "world, hello". */
  method TestSwapWords() returns (s: string)
    ensures s == "world, hello"
  {
    var editor := new Editor();
    editor.TypeText("hello, world");
    editor.LeftTimes(12);
    editor.Cut(7);
    assert editor.text == "world" && editor.buffer == "hello, ";
    editor.RightTimes(5);
    editor.TypeText(", ");
    editor.Paste();
    assert editor.text == "world, hello, " && editor.cursor == 14;
    editor.Left();
    editor.Left();
    editor.Cut(3);
    s := editor.GetText();
  }

  /** The second session of `TestEditing`: a transposition is corrected, "misprnit" becomes "misprint". */
  method TestMisprint() returns (s: string)
    ensures s == "misprint"
  {
    var editor := new Editor();
    editor.TypeText("misprnit");
    editor.LeftTimes(3);
    editor.Cut(1);
    assert editor.text == "mispri" + "t" && editor.buffer == "n";
    editor.Right();
    editor.Paste();
    s := editor.GetText();
  }

  /** `TestReverse`: inserting each character and stepping back before it reverses the text. */
  method TestReverse() returns (s: string)
    ensures s == "Reverse"
  {
    var editor := new Editor();
    var t := "esreveR";
    for i := 0 to |t|
      invariant editor.Valid() && editor.cursor == 0
      invariant editor.text == Strings.Reverse(t[..i])
    {
      editor.Insert(t[i]);
      editor.Left();
      assert t[..i + 1] == t[..i] + [t[i]];
      ReverseSnoc(t[..i], t[i]);
    }
    assert t[..|t|] == t;
    s := editor.GetText();
  }

  lemma {:induction false} ReverseSnoc(s: string, c: char)
    ensures Strings.Reverse(s + [c]) == [c] + Strings.Reverse(s)
  {
    if s != [] {
      assert (s + [c])[1..] == s[1..] + [c];
      ReverseSnoc(s[1..], c);
    } else {
      assert s + [c] == [c];
    }
  }

  /** `TestNoText`: moving and editing an empty text leaves it empty. */
  method TestNoText() returns (s: string)
    ensures s == ""
  {
    var editor := new Editor();
    editor.Left();
    editor.Left();
    editor.Right();
    editor.Right();
    editor.Copy(0);
    editor.Cut(0);
    editor.Paste();
    s := editor.GetText();
  }

  /** `TestEmptyBuffer`: pasting an empty clipboard, anywhere, changes nothing. */
  method TestEmptyBuffer() returns (s: string)
    ensures s == "example"
  {
    var editor := new Editor();
    editor.Paste();
    editor.TypeText("example");
    editor.Left();
    editor.Left();
    editor.Paste();
    assert editor.text == "examp" + "le";
    editor.Right();
    editor.Paste();
    assert editor.text == "exampl" + "e";
    editor.Copy(0);
    editor.Paste();
    assert editor.text == "exampl" + "e";
    editor.Left();
    editor.Cut(0);
    assert editor.text == "examp" + "le";
    editor.Paste();
    assert editor.text == "examp" + "le";
    s := editor.GetText();
  }
}

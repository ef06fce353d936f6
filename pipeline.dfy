/**
 * An e-mail pipeline: a reader, filters, copiers and senders linked one to
 * the next. Each worker processes an e-mail and passes what it keeps on to
 * the next worker; the last one passes it to nobody.
 *
 * What the workers do is given by functions over the sequence of stages
 * from a worker to the end of its chain; the workers themselves are objects
 * whose `next` links the builder sets, and processing follows those links.
 * The output stream of a sender is the sequence of e-mails it writes, with
 * `Text` giving the characters.
 */
module Pipeline {
  import opened Wrappers

  datatype Email = Email(sender: string, addressee: string, body: string)

  /** What a worker does with an e-mail; a reader also holds the e-mails it read. */
  datatype Stage =
    | Reader(emails: seq<Email>)
    | Filter(keep: Email -> bool)
    | Copier(recipient: string)
    | Sender

  /** `operator<<`: the three fields, each on its own line. */
  function EmailText(e: Email): string
  {
    e.sender + "\n" + e.addressee + "\n" + e.body + "\n"
  }

  /** What a sender's stream holds after writing the e-mails in order. */
  function Text(es: seq<Email>): string
  {
    if es == [] then "" else EmailText(es[0]) + Text(es[1..])
  }

  /** Lines, each ended by a newline. */
  function Unlines(ls: seq<string>): string
  {
    if ls == [] then "" else ls[0] + "\n" + Unlines(ls[1..])
  }

  /** Ending lines is compatible with putting them one after the other. */
  lemma {:induction false} UnlinesAppend(xs: seq<string>, ys: seq<string>)
    ensures Unlines(xs + ys) == Unlines(xs) + Unlines(ys)
    decreases |xs|
  {
    if xs == [] {
      assert xs + ys == ys;
    } else {
      assert (xs + ys)[0] == xs[0] && (xs + ys)[1..] == xs[1..] + ys;
      UnlinesAppend(xs[1..], ys);
    }
  }

  /** What a sender writes is the e-mails' lines, each ended by a newline. */
  lemma {:induction false} TextLines(es: seq<Email>)
    ensures Text(es) == Unlines(Lines(es))
  {
    if es != [] {
      var e := es[0];
      TextLines(es[1..]);
      UnlinesAppend(EmailLines(e), Lines(es[1..]));
      assert EmailLines(e)[1..] == [e.addressee, e.body] && [e.addressee, e.body][1..] == [e.body] && [e.body][1..] == [];
      assert Unlines([e.body]) == e.body + "\n";
      assert Unlines(EmailLines(e)) == EmailText(e);
    }
  }

  /** `operator<<` as lines: the three fields in order. */
  function EmailLines(e: Email): seq<string>
  {
    [e.sender, e.addressee, e.body]
  }

  /** The lines of the e-mails, one after the other. */
  function Lines(es: seq<Email>): seq<string>
  {
    if es == [] then [] else EmailLines(es[0]) + Lines(es[1..])
  }

  /**
   * The e-mails `Reader` reads: three lines at a time (from, to, body) while
   * three lines are left; a last incomplete e-mail is not read.
   */
  function ReadEmails(lines: seq<string>): seq<Email>
    decreases |lines|
  {
    if |lines| < 3 then [] else [Email(lines[0], lines[1], lines[2])] + ReadEmails(lines[3..])
  }

  /** Reading the lines an e-mail sequence is written as gives the e-mails back. */
  lemma {:induction false} ReadLines(es: seq<Email>)
    ensures ReadEmails(Lines(es)) == es
  {
    if es != [] {
      ReadLines(es[1..]);
      assert Lines(es)[3..] == Lines(es[1..]);
    }
  }

  /** Reading drops only an incomplete last e-mail: what is read, written back, is all whole triples of lines. */
  lemma {:induction false} LinesRead(lines: seq<string>)
    ensures Lines(ReadEmails(lines)) == lines[..|lines| / 3 * 3]
    decreases |lines|
  {
    if |lines| >= 3 {
      LinesRead(lines[3..]);
      assert lines[..|lines| / 3 * 3] == lines[..3] + lines[3..][..|lines[3..]| / 3 * 3];
    }
  }

  /**
   * The e-mails the senders of `chain` write when `e` is passed on to its
   * first worker, in the order they are written. Passing on to an empty
   * chain (a null `next_`) does nothing.
   */
  function Written(chain: seq<Stage>, e: Email): seq<Email>
    decreases |chain|
  {
    if chain == [] then []
    else
      var rest := chain[1..];
      match chain[0]
      case Reader(_) => Written(rest, e)
      case Filter(keep) => if keep(e) then Written(rest, e) else []
      case Copier(recipient) =>
        Written(rest, e) + (if e.addressee != recipient then Written(rest, Email(e.sender, recipient, e.body)) else [])
      case Sender => [e] + Written(rest, e)
  }

  /** The e-mails the last worker of `chain` passes on, to nobody, when `e` is passed on to the first. */
  function Delivered(chain: seq<Stage>, e: Email): seq<Email>
    decreases |chain|
  {
    if chain == [] then [e]
    else
      var rest := chain[1..];
      match chain[0]
      case Reader(_) => Delivered(rest, e)
      case Filter(keep) => if keep(e) then Delivered(rest, e) else []
      case Copier(recipient) =>
        Delivered(rest, e) + (if e.addressee != recipient then Delivered(rest, Email(e.sender, recipient, e.body)) else [])
      case Sender => Delivered(rest, e)
  }

  /** What `chain` writes for each of `es` in turn. */
  function WrittenAll(chain: seq<Stage>, es: seq<Email>): seq<Email>
  {
    if es == [] then [] else Written(chain, es[0]) + WrittenAll(chain, es[1..])
  }

  /** What `chain` delivers for each of `es` in turn. */
  function DeliveredAll(chain: seq<Stage>, es: seq<Email>): seq<Email>
  {
    if es == [] then [] else Delivered(chain, es[0]) + DeliveredAll(chain, es[1..])
  }

  /**
   * `Run` of the first worker: a reader passes on each e-mail it read, in
   * order; any other worker throws `logic_error("Unimplemented")`.
   */
  function RunChain(chain: seq<Stage>): Result<seq<Email>, string>
    requires chain != []
  {
    match chain[0]
    case Reader(emails) => Ok(WrittenAll(chain[1..], emails))
    case _ => Err("Unimplemented")
  }

  predicate HasSender(chain: seq<Stage>)
  {
    exists i :: 0 <= i < |chain| && chain[i].Sender?
  }

  /** Only senders write: a chain without one, including the empty chain behind a null `next_`, writes nothing. */
  lemma {:induction false} NoSenderWritesNothing(chain: seq<Stage>, e: Email)
    requires !HasSender(chain)
    ensures Written(chain, e) == []
    decreases |chain|
  {
    if chain != [] {
      assert !HasSender(chain[1..]) by {
        forall i | 0 <= i < |chain[1..]|
          ensures !chain[1..][i].Sender?
        {
          assert chain[1..][i] == chain[i + 1];
        }
      }
      NoSenderWritesNothing(chain[1..], e);
      if chain[0].Copier? && e.addressee != chain[0].recipient {
        NoSenderWritesNothing(chain[1..], Email(e.sender, chain[0].recipient, e.body));
      }
    }
  }

  /**
   * Chains compose: what `a + b` delivers is what `b` delivers for each
   * e-mail `a` delivers, in order.
   */
  lemma {:induction false} DeliveredConcat(a: seq<Stage>, b: seq<Stage>, e: Email)
    ensures Delivered(a + b, e) == DeliveredAll(b, Delivered(a, e))
    decreases |a|
  {
    if a == [] {
      assert a + b == b;
      assert DeliveredAll(b, [e]) == Delivered(b, e) + DeliveredAll(b, []);
    } else {
      assert (a + b)[1..] == a[1..] + b;
      assert (a + b)[0] == a[0];
      DeliveredConcat(a[1..], b, e);
      match a[0]
      case Copier(recipient) =>
        if e.addressee != recipient {
          var copy := Email(e.sender, recipient, e.body);
          DeliveredConcat(a[1..], b, copy);
          DeliveredAllAppend(b, Delivered(a[1..], e), Delivered(a[1..], copy));
          calc {
            Delivered(a + b, e);
            Delivered(a[1..] + b, e) + Delivered(a[1..] + b, copy);
            DeliveredAll(b, Delivered(a[1..], e)) + DeliveredAll(b, Delivered(a[1..], copy));
            DeliveredAll(b, Delivered(a[1..], e) + Delivered(a[1..], copy));
            DeliveredAll(b, Delivered(a, e));
          }
        } else {
          assert Delivered(a + b, e) == Delivered(a[1..] + b, e) + [] == Delivered(a[1..] + b, e);
          assert Delivered(a, e) == Delivered(a[1..], e) + [] == Delivered(a[1..], e);
        }
      case _ =>
    }
  }

  /** Delivering a concatenation delivers each part in turn. */
  lemma {:induction false} DeliveredAllAppend(chain: seq<Stage>, xs: seq<Email>, ys: seq<Email>)
    ensures DeliveredAll(chain, xs + ys) == DeliveredAll(chain, xs) + DeliveredAll(chain, ys)
    decreases |xs|
  {
    if xs == [] {
      assert xs + ys == ys;
    } else {
      assert (xs + ys)[0] == xs[0] && (xs + ys)[1..] == xs[1..] + ys;
      DeliveredAllAppend(chain, xs[1..], ys);
    }
  }

  /** A filter passes an e-mail on exactly when its predicate holds of it. */
  lemma FilterForwards(keep: Email -> bool, e: Email)
    ensures Delivered([Filter(keep)], e) == (if keep(e) then [e] else [])
  {
    assert [Filter(keep)][1..] == [];
  }

  /**
   * A copier passes on the original first and then, only when it is not
   * already addressed to the recipient, a copy to the recipient with the
   * same sender and body: exactly one of the e-mails passed on goes to the
   * recipient, and all of them carry the original's sender and body.
   */
  lemma CopierForwards(recipient: string, e: Email)
    ensures var out := Delivered([Copier(recipient)], e);
      |out| == (if e.addressee == recipient then 1 else 2) && out[0] == e &&
      (|out| == 2 ==> out[1] == Email(e.sender, recipient, e.body)) &&
      |set i | 0 <= i < |out| && out[i].addressee == recipient| == 1 &&
      forall i :: 0 <= i < |out| ==> out[i].sender == e.sender && out[i].body == e.body
  {
    var out := Delivered([Copier(recipient)], e);
    assert [Copier(recipient)][1..] == [];
    if e.addressee == recipient {
      assert Delivered([], e) == [e];
      assert out == [e] + [];
      assert (set i | 0 <= i < |out| && out[i].addressee == recipient) == {0};
    } else {
      var copy := Email(e.sender, recipient, e.body);
      assert Delivered([], e) == [e] && Delivered([], copy) == [copy];
      assert out == [e] + [copy];
      assert (set i | 0 <= i < |out| && out[i].addressee == recipient) == {1};
    }
  }

  /** A sender writes the e-mail before passing it on unchanged. */
  lemma SenderForwards(rest: seq<Stage>, e: Email)
    ensures Written([Sender] + rest, e) == [e] + Written(rest, e)
    ensures Delivered([Sender] + rest, e) == Delivered(rest, e)
    ensures Text([e]) == e.sender + "\n" + e.addressee + "\n" + e.body + "\n"
  {
    assert ([Sender] + rest)[1..] == rest;
  }

  /** A reader followed by a lone sender writes what it read, in input order. */
  lemma {:induction false} ReaderKeepsOrder(es: seq<Email>)
    ensures WrittenAll([Sender], es) == es
  {
    if es != [] {
      assert [Sender][1..] == [];
      ReaderKeepsOrder(es[1..]);
    }
  }

  /** A worker: what it does, and the worker it passes on to (`next_`). */
  class Worker {
    const stage: Stage
    var next: Worker?

    constructor (stage: Stage)
      ensures this.stage == stage && next == null
    {
      this.stage := stage;
      next := null;
    }

    /** `SetNext`. */
    method SetNext(next: Worker?)
      modifies this
      ensures this.next == next
    {
      this.next := next;
    }
  }

  /** The stages of a sequence of workers. */
  function Stages(ws: seq<Worker>): seq<Stage>
  {
    seq(|ws|, i requires 0 <= i < |ws| => ws[i].stage)
  }

  /** Each worker passes on to the one after it, and the last to nobody. */
  ghost predicate Linked(ws: seq<Worker>)
    reads set w | w in ws
  {
    ws != [] && ws[|ws| - 1].next == null && forall i :: 0 <= i < |ws| - 1 ==> ws[i].next == ws[i + 1]
  }

  /**
   * `Process` of worker `i` of a linked chain: what it does with `e`, then
   * `PassOn` of what it keeps.
   */
  method Process(ws: seq<Worker>, i: nat, e: Email) returns (written: seq<Email>)
    requires Linked(ws) && i < |ws|
    ensures written == Written(Stages(ws)[i..], e)
    decreases |ws| - i, 1
  {
    assert Stages(ws)[i..][0] == ws[i].stage && Stages(ws)[i..][1..] == Stages(ws)[i + 1..];
    match ws[i].stage
    case Reader(_) =>
      written := PassOn(ws, i, e);
    case Filter(keep) =>
      written := [];
      if keep(e) {
        written := PassOn(ws, i, e);
      }
    case Copier(recipient) =>
      var copy: Option<Email> := None;
      if e.addressee != recipient {
        copy := Some(Email(e.sender, recipient, e.body));
      }
      written := PassOn(ws, i, e);
      if copy.Some? {
        var more := PassOn(ws, i, copy.value);
        written := written + more;
      }
    case Sender =>
      var rest := PassOn(ws, i, e);
      written := [e] + rest;
  }

  /** `PassOn` of worker `i`: nothing when its `next_` is null, otherwise the next worker processes `e`. */
  method PassOn(ws: seq<Worker>, i: nat, e: Email) returns (written: seq<Email>)
    requires Linked(ws) && i < |ws|
    ensures written == Written(Stages(ws)[i + 1..], e)
    decreases |ws| - i, 0
  {
    assert i < |ws| - 1 ==> ws[i].next == ws[i + 1];
    if ws[i].next != null {
      written := Process(ws, i + 1, e);
    } else {
      written := [];
    }
  }

  /** `Run` of the first worker of a linked chain. */
  method Run(ws: seq<Worker>) returns (r: Result<seq<Email>, string>)
    requires Linked(ws)
    ensures r == RunChain(Stages(ws))
  {
    if !ws[0].stage.Reader? {
      return Err("Unimplemented");
    }
    var emails := ws[0].stage.emails;
    var written := [];
    for k := 0 to |emails|
      invariant written == WrittenAll(Stages(ws)[1..], emails[..k])
    {
      var more := PassOn(ws, 0, emails[k]);
      WrittenAllSnoc(Stages(ws)[1..], emails, k);
      written := written + more;
    }
    assert emails[..|emails|] == emails;
    r := Ok(written);
  }

  /** Writing one more e-mail appends what is written for it. */
  lemma {:induction false} WrittenAllSnoc(chain: seq<Stage>, es: seq<Email>, k: nat)
    requires k < |es|
    ensures WrittenAll(chain, es[..k + 1]) == WrittenAll(chain, es[..k]) + Written(chain, es[k])
    decreases k
  {
    if k > 0 {
      WrittenAllSnoc(chain, es[1..], k - 1);
      assert es[1..][..k] == es[..k + 1][1..];
      assert es[1..][..k - 1] == es[..k][1..];
    } else {
      assert es[..1] == [es[0]];
    }
  }

  /** The `Reader` constructor: e-mails read three lines at a time. */
  method ReadInput(lines: seq<string>) returns (emails: seq<Email>)
    ensures emails == ReadEmails(lines)
  {
    emails := [];
    var i := 0;
    while i + 3 <= |lines|
      invariant i <= |lines| && emails + ReadEmails(lines[i..]) == ReadEmails(lines)
    {
      assert lines[i..][3..] == lines[i + 3..];
      emails := emails + [Email(lines[i], lines[i + 1], lines[i + 2])];
      i := i + 3;
    }
  }

  /** `PipelineBuilder`: the workers added so far, a reader first. */
  class PipelineBuilder {
    var workers: seq<Worker>

    /** The workers are distinct and none is linked yet. */
    ghost predicate Valid()
      reads this, set w | w in workers
    {
      (forall i, j :: 0 <= i < j < |workers| ==> workers[i] != workers[j]) &&
      forall i :: 0 <= i < |workers| ==> workers[i].next == null
    }

    /** The builder starts with a reader of the input. */
    constructor (lines: seq<string>)
      ensures Valid() && |workers| == 1 && workers[0].stage == Reader(ReadEmails(lines))
    {
      var emails := ReadInput(lines);
      var reader := new Worker(Reader(emails));
      workers := [reader];
    }

    /** `FilterBy`, `CopyTo` and `Send`: a new worker added at the end. */
    method Add(stage: Stage)
      requires Valid()
      modifies this
      ensures Valid() && Stages(workers) == Stages(old(workers)) + [stage]
      ensures workers[..|workers| - 1] == old(workers)
    {
      var w := new Worker(stage);
      workers := workers + [w];
    }

    method FilterBy(keep: Email -> bool)
      requires Valid()
      modifies this
      ensures Valid() && Stages(workers) == Stages(old(workers)) + [Filter(keep)]
    {
      Add(Filter(keep));
    }

    method CopyTo(recipient: string)
      requires Valid()
      modifies this
      ensures Valid() && Stages(workers) == Stages(old(workers)) + [Copier(recipient)]
    {
      Add(Copier(recipient));
    }

    method Send()
      requires Valid()
      modifies this
      ensures Valid() && Stages(workers) == Stages(old(workers)) + [Sender]
    {
      Add(Sender);
    }

    /**
     * `Build`: nothing without workers; otherwise each worker linked to the
     * one added after it, from the back, the first returned and the builder
     * emptied.
     */
    method Build() returns (first: Worker?)
      requires Valid()
      modifies this, set w | w in workers
      ensures workers == []
      ensures old(workers) == [] ==> first == null
      ensures old(workers) != [] ==> first == old(workers)[0] && Linked(old(workers))
    {
      if |workers| == 0 {
        return null;
      }
      var ws := workers;
      var i := |ws| - 1;
      while i != 0
        invariant 0 <= i < |ws|
        invariant forall p, q :: 0 <= p < q < |ws| ==> ws[p] != ws[q]
        invariant forall k :: i <= k < |ws| - 1 ==> ws[k].next == ws[k + 1]
        invariant forall k :: 0 <= k < i ==> ws[k].next == null
        invariant ws[|ws| - 1].next == null
        modifies set w | w in ws
        decreases i
      {
        ws[i - 1].SetNext(ws[i]);
        i := i - 1;
      }
      first := ws[0];
      workers := [];
    }
  }

  /** The input of the sanity check: three e-mails, nine lines. */
  const SanityInput := [
    "erich@example.com", "richard@example.com", "Hello there",
    "erich@example.com", "ralph@example.com", "Are you sure you pressed the right button?",
    "ralph@example.com", "erich@example.com", "I do not make mistakes of that kind"]

  /** The sanity check's filter: what erich sent. */
  const FromErich := (e: Email) => e.sender == "erich@example.com"

  /** The sanity check's pipeline after its reader. */
  const SanityTail := [Filter(FromErich), Copier("richard@example.com"), Sender]

  /** What the sanity check's pipeline writes for one e-mail. */
  lemma SanityStep(x: Email)
    ensures Written(SanityTail, x) ==
      if x.sender != "erich@example.com" then []
      else if x.addressee == "richard@example.com" then [x]
      else [x, Email(x.sender, "richard@example.com", x.body)]
  {
    var copy := Email(x.sender, "richard@example.com", x.body);
    assert SanityTail[1..] == [Copier("richard@example.com"), Sender];
    assert SanityTail[1..][1..] == [Sender] && [Sender][1..] == [];
    assert Written([Sender], x) == [x] && Written([Sender], copy) == [copy];
  }

  /** The e-mails the sanity check's pipeline sends: the first, the second and the second's copy to richard. */
  const SanitySent := [
    Email("erich@example.com", "richard@example.com", "Hello there"),
    Email("erich@example.com", "ralph@example.com", "Are you sure you pressed the right button?"),
    Email("erich@example.com", "richard@example.com", "Are you sure you pressed the right button?")]

  /** The expected output of the sanity check, line by line. */
  const SanityOutput := [
    "erich@example.com", "richard@example.com", "Hello there",
    "erich@example.com", "ralph@example.com", "Are you sure you pressed the right button?",
    "erich@example.com", "richard@example.com", "Are you sure you pressed the right button?"]

  /** `TestSanity`, as e-mails: reading, keeping what erich sent, copying to richard and sending. */
  lemma SanityRun()
    ensures RunChain([Reader(ReadEmails(SanityInput))] + SanityTail) == Ok(SanitySent)
  {
    var e1 := Email("erich@example.com", "richard@example.com", "Hello there");
    var e2 := Email("erich@example.com", "ralph@example.com", "Are you sure you pressed the right button?");
    var e3 := Email("ralph@example.com", "erich@example.com", "I do not make mistakes of that kind");
    var c2 := Email("erich@example.com", "richard@example.com", "Are you sure you pressed the right button?");
    assert ReadEmails(SanityInput) == [e1, e2, e3] by {
      assert SanityInput[3..][3..][3..] == [];
    }
    var chain := [Reader(ReadEmails(SanityInput))] + SanityTail;
    assert chain[1..] == SanityTail;
    SanityStep(e1);
    SanityStep(e2);
    assert e2.addressee != "richard@example.com" by {
      assert e2.addressee[1] != "richard@example.com"[1];
    }
    SanityStep(e3);
    assert e3.sender != "erich@example.com" by {
      assert e3.sender[1] != "erich@example.com"[1];
    }
    assert WrittenAll(SanityTail, [e1, e2, e3]) == [e1, e2, c2] by {
      assert [e1, e2, e3][1..] == [e2, e3] && [e2, e3][1..] == [e3] && [e3][1..] == [];
      assert WrittenAll(SanityTail, [e3]) == [];
      assert WrittenAll(SanityTail, [e2, e3]) == [e2, c2];
    }
  }

  /** `TestSanity`: the text the sender writes is exactly the expected nine lines. */
  lemma Sanity()
    ensures var chain := [Reader(ReadEmails(SanityInput))] + SanityTail;
      RunChain(chain).Ok? &&
      Text(RunChain(chain).value) == Unlines(SanityOutput)
  {
    SanityRun();
    var s := SanitySent;
    TextLines(s);
    assert Lines(s) == EmailLines(s[0]) + EmailLines(s[1]) + EmailLines(s[2]) by {
      assert s[1..] == [s[1], s[2]] && [s[1], s[2]][1..] == [s[2]] && [s[2]][1..] == [];
      assert Lines([s[2]]) == EmailLines(s[2]);
      assert Lines([s[1], s[2]]) == EmailLines(s[1]) + EmailLines(s[2]);
    }
    assert Lines(s) == SanityOutput;
  }
}

/**
 * A comment server with a spam guard: users are added, post comments and
 * read them back; a user who posts more than three comments in a row is
 * banned until they answer the captcha.
 *
 * The server is a class whose fields the requests update; `Step` is the
 * transition it makes, as a function of the state and the request, and the
 * lemmas state the rules of that transition.
 */
module CommentServer {
  import Wrappers
  import Strings
  import opened Decimal

  /** `SplitBy`: split at the first `sep` when something follows it; otherwise `what` whole and nothing. */
  function SplitBy(what: string, sep: string): (r: (string, string))
    ensures r.1 == [] ==> r.0 == what
    ensures r.1 != [] ==>
      what == r.0 + sep + r.1 && Strings.OccursAt(what, sep, |r.0|) &&
      forall i: nat :: i < |r.0| ==> !Strings.OccursAt(what, sep, i)
    ensures r.1 == [] <==> forall i: nat :: i + |sep| < |what| ==> !Strings.OccursAt(what, sep, i)
  {
    match Strings.Find(what, sep)
    case Some(pos) =>
      if |sep| < |what| && pos < |what| - |sep| then
        assert what == what[..pos] + sep + what[pos + |sep|..] by {
          assert what[pos..pos + |sep|] == sep;
          assert what == what[..pos] + what[pos..pos + |sep|] + what[pos + |sep|..];
        }
        (what[..pos], what[pos + |sep|..])
      else (what, [])
    case None => (what, [])
  }

  /** The characters `operator>>` skips before a number. */
  predicate IsSpace(c: char)
  {
    c == ' ' || c == '\t' || c == '\n' || c == '\r' || c == '\U{000B}' || c == '\U{000C}'
  }

  /** `s` without its leading white space. */
  function SkipSpace(s: string): (r: string)
    ensures |r| <= |s| && r == s[|s| - |r|..]
    ensures r == [] || !IsSpace(r[0])
  {
    if s != [] && IsSpace(s[0]) then SkipSpace(s[1..]) else s
  }

  /** The length of the run of digits `s` starts with. */
  function DigitRun(s: string): (n: nat)
    ensures n <= |s| && AllDigits(s[..n]) && (n == |s| || !IsDigit(s[n]))
  {
    if s != [] && IsDigit(s[0]) then
      var n := DigitRun(s[1..]) + 1;
      assert s[..n] == [s[0]] + s[1..][..n - 1];
      n
    else 0
  }

  /**
   * `FromString<size_t>`: the number the leading digits spell after white
   * space; 0 when there are none, as a failed extraction stores.
   */
  function ReadSize(s: string): nat
  {
    var t := SkipSpace(s);
    DigitsValue(t[..DigitRun(t)])
  }

  /** The digits of a number are read back whole when no digit follows them. */
  lemma {:induction false} DigitRunOf(d: string, rest: string)
    requires AllDigits(d) && (rest == [] || !IsDigit(rest[0]))
    ensures DigitRun(d + rest) == |d|
    decreases |d|
  {
    if d != [] {
      assert (d + rest)[0] == d[0] && (d + rest)[1..] == d[1..] + rest;
      DigitRunOf(d[1..], rest);
    } else {
      assert d + rest == rest;
    }
  }

  /** Reading a rendered size gives it back, whatever non-digit follows. */
  lemma ReadSizeOf(n: nat, rest: string)
    requires rest == [] || !IsDigit(rest[0])
    ensures ReadSize(NatToString(n) + rest) == n
  {
    var d := NatToString(n);
    NatToStringDigits(n);
    assert (d + rest)[0] == d[0];
    assert IsDigit(d[0]);
    assert SkipSpace(d + rest) == d + rest;
    DigitRunOf(d, rest);
    assert (d + rest)[..|d|] == d;
  }

  /** `ParseIdAndContent`: the number before the first space and the text after it. */
  function ParseIdAndContent(body: string): (nat, string)
  {
    var (idString, content) := SplitBy(body, " ");
    (ReadSize(idString), content)
  }

  /**
   * The body of a comment or captcha request: the user id, a space, the
   * text. Parsing it gives back the id and the text, the empty text included.
   */
  function CommentBody(id: nat, text: string): (body: string)
    ensures ParseIdAndContent(body) == (id, text)
  {
    ParseCommentBody(id, text);
    NatToString(id) + " " + text
  }

  /** The `user_id` parameter of a listing request. */
  function UserIdParam(id: nat): (params: map<string, string>)
    ensures "user_id" in params && ReadSize(params["user_id"]) == id
  {
    ReadSizeOf(id, []);
    assert NatToString(id) + [] == NatToString(id);
    map["user_id" := NatToString(id)]
  }

  /** The first space after a run of digits is the one right after it. */
  lemma FindSpaceAfterDigits(d: string, text: string)
    requires AllDigits(d)
    ensures Strings.Find(d + " " + text, " ") == Wrappers.Some(|d|)
  {
    var body := d + " " + text;
    assert Strings.OccursAt(body, " ", |d|) by {
      assert body[|d|..|d| + 1] == " ";
    }
    forall i: nat | i < |d|
      ensures !Strings.OccursAt(body, " ", i)
    {
      assert body[i] == d[i] && IsDigit(d[i]);
      assert body[i..i + 1] == [body[i]];
    }
  }

  /** A run of digits, a space and a text split at that space, unless the text is empty. */
  lemma SplitAtSpace(d: string, text: string)
    requires AllDigits(d)
    ensures SplitBy(d + " " + text, " ") == if text == [] then (d + " ", []) else (d, text)
  {
    var body := d + " " + text;
    FindSpaceAfterDigits(d, text);
    if text != [] {
      assert body[..|d|] == d && body[|d| + 1..] == text;
    } else {
      assert body == d + " ";
    }
  }

  /** Parsing a rendered id, a space and a text gives back the id and the text. */
  lemma ParseCommentBody(id: nat, text: string)
    ensures ParseIdAndContent(NatToString(id) + " " + text) == (id, text)
  {
    var d := NatToString(id);
    NatToStringDigits(id);
    SplitAtSpace(d, text);
    if text == [] {
      ReadSizeOf(id, " ");
    } else {
      ReadSizeOf(id, []);
      assert d + [] == d;
    }
  }

  datatype HttpCode = Ok | NotFound | Found

  datatype Header = Header(name: string, value: string)

  /** An `HttpRequest`; `verb` is its method. */
  datatype Request = Request(verb: string, path: string, body: string, getParams: map<string, string>)

  datatype Response = Response(code: HttpCode, headers: seq<Header>, content: string)

  datatype LastCommentInfo = LastCommentInfo(userId: nat, consecutiveCount: nat)

  /** The server's fields: each user's comments, who commented last and how many times in a row, the banned users. */
  datatype State = State(comments: seq<seq<string>>, last: Wrappers.Option<LastCommentInfo>, banned: set<nat>)

  datatype Outcome = Outcome(state: State, response: Response)

  const Question := "What's the answer for The Ultimate Question of Life, the Universe, and Everything?"

  const RedirectToCaptcha := Response(Found, [Header("Location", "/captcha")], [])

  /** The comments of a user as `/user_comments` writes them: each followed by a newline. */
  function Joined(cs: seq<string>): string
  {
    if cs == [] then [] else Joined(cs[..|cs| - 1]) + cs[|cs| - 1] + "\n"
  }

  /** A request as the server reads it: which branch it takes and what it parses from the body or parameters. */
  datatype Command =
    | AddUser
    | AddComment(id: nat, text: string)
    | CheckCaptcha(id: nat, answer: string)
    | ListComments(id: nat)
    | ShowCaptcha
    | Unknown

  predicate IsListing(req: Request)
  {
    req.verb == "GET" && req.path == "/user_comments"
  }

  /** The branches of `ServeRequest` and what each parses; a listing needs `user_id` (`at` throws otherwise). */
  function Parse(req: Request): Command
    requires IsListing(req) ==> "user_id" in req.getParams
  {
    if req.verb == "POST" && req.path == "/add_user" then AddUser
    else if req.verb == "POST" && req.path == "/add_comment" then
      var (id, comment) := ParseIdAndContent(req.body);
      AddComment(id, comment)
    else if req.verb == "POST" && req.path == "/checkcaptcha" then
      var (id, captcha) := ParseIdAndContent(req.body);
      CheckCaptcha(id, captcha)
    else if IsListing(req) then ListComments(ReadSize(req.getParams["user_id"]))
    else if req.verb == "GET" && req.path == "/captcha" then ShowCaptcha
    else Unknown
  }

  /** A comment and a listing name an existing user: the source indexes the vector unchecked. */
  predicate Addressed(s: State, cmd: Command)
  {
    (cmd.AddComment? ==> cmd.id < |s.comments|) && (cmd.ListComments? ==> cmd.id < |s.comments|)
  }

  /** What the source needs of a request to be defined. */
  predicate Defined(s: State, req: Request)
  {
    (IsListing(req) ==> "user_id" in req.getParams) && Addressed(s, Parse(req))
  }

  /** The consecutive-comment count and the ban set after `id` comments. */
  function Counted(s: State, id: nat): (Wrappers.Option<LastCommentInfo>, set<nat>)
  {
    if s.last.None? || s.last.value.userId != id then (Wrappers.Some(LastCommentInfo(id, 1)), s.banned)
    else
      var count := s.last.value.consecutiveCount + 1;
      (Wrappers.Some(LastCommentInfo(id, count)), if count > 3 then s.banned + {id} else s.banned)
  }

  /** What each branch of `ServeRequest` does: the new state and the response. */
  function Apply(s: State, cmd: Command): Outcome
    requires Addressed(s, cmd)
  {
    match cmd
    case AddUser =>
      Outcome(s.(comments := s.comments + [[]]), Response(Ok, [], NatToString(|s.comments|)))
    case AddComment(id, comment) =>
      var (last, banned) := Counted(s, id);
      if id in banned then Outcome(State(s.comments, last, banned), RedirectToCaptcha)
      else Outcome(State(s.comments[id := s.comments[id] + [comment]], last, banned), Response(Ok, [], []))
    case CheckCaptcha(id, captcha) =>
      if captcha == "42" then
        var last := if s.last.Some? && s.last.value.userId == id then Wrappers.None else s.last;
        Outcome(State(s.comments, last, s.banned - {id}), Response(Ok, [], []))
      else Outcome(s, RedirectToCaptcha)
    case ListComments(id) =>
      Outcome(s, Response(Ok, [], Joined(s.comments[id])))
    case ShowCaptcha =>
      Outcome(s, Response(Ok, [], Question))
    case Unknown =>
      Outcome(s, Response(NotFound, [], []))
  }

  /** `ServeRequest`: the new state and the response. */
  function Step(s: State, req: Request): Outcome
    requires Defined(s, req)
  {
    Apply(s, Parse(req))
  }

  /** The server's invariant: a comment count is at least one, and every id it keeps is a user's. */
  predicate Consistent(s: State)
  {
    (s.last.Some? ==> s.last.value.consecutiveCount >= 1 && s.last.value.userId < |s.comments|) &&
    forall id :: id in s.banned ==> id < |s.comments|
  }

  /** Every request keeps the invariant. */
  lemma StepConsistent(s: State, cmd: Command)
    requires Consistent(s) && Addressed(s, cmd)
    ensures Consistent(Apply(s, cmd).state)
  {
  }

  /** A comment and a captcha answer are read as the server's clients write their bodies. */
  lemma ParseBodies(id: nat, text: string, m: map<string, string>)
    ensures Parse(Request("POST", "/add_comment", CommentBody(id, text), m)) == AddComment(id, text)
    ensures Parse(Request("POST", "/checkcaptcha", CommentBody(id, text), m)) == CheckCaptcha(id, text)
  {
    assert "/add_comment" != "/add_user" by {
      assert |"/add_comment"| != |"/add_user"|;
    }
    assert "/checkcaptcha" != "/add_user" && "/checkcaptcha" != "/add_comment" by {
      assert |"/checkcaptcha"| != |"/add_user"| && |"/checkcaptcha"| != |"/add_comment"|;
    }
  }

  /** A listing is read from its `user_id` parameter. */
  lemma ParseListing(id: nat)
    ensures Parse(Request("GET", "/user_comments", [], UserIdParam(id))) == ListComments(id)
  {
    var req := Request("GET", "/user_comments", [], UserIdParam(id));
    assert req.verb != "POST" by {
      assert |req.verb| != |"POST"|;
    }
    assert IsListing(req);
  }

  /** Adding a user and asking for the captcha take nothing from the request. */
  lemma ParsePlain(body: string, m: map<string, string>)
    ensures Parse(Request("POST", "/add_user", body, m)) == AddUser
    ensures Parse(Request("GET", "/captcha", body, m)) == ShowCaptcha
  {
  }

  /** `/add_user` gives the next id, spelled in decimal, and a user with no comments; nothing else changes. */
  lemma AddUserNumbers(s: State)
    ensures var o := Apply(s, AddUser);
      o.response.code == Ok && ParseInt(o.response.content) == Wrappers.Some(|s.comments|) &&
      |o.state.comments| == |s.comments| + 1 && o.state.comments[|s.comments|] == [] &&
      o.state.comments[..|s.comments|] == s.comments &&
      o.state.last == s.last && o.state.banned == s.banned
  {
    IntToStringRoundTrip(|s.comments|);
    assert (s.comments + [[]])[..|s.comments|] == s.comments;
  }

  /**
   * `/add_comment`: the count of comments in a row restarts at one for a
   * different user and goes up for the same one; the user is banned exactly
   * when they were or the count passes three; nobody else's ban changes.
   */
  lemma CommentCounts(s: State, id: nat, text: string)
    requires id < |s.comments|
    ensures var o := Apply(s, AddComment(id, text));
      var count := if s.last.Some? && s.last.value.userId == id then s.last.value.consecutiveCount + 1 else 1;
      o.state.last == Wrappers.Some(LastCommentInfo(id, count)) &&
      (id in o.state.banned <==> id in s.banned || count > 3) &&
      (forall other :: other != id ==> (other in o.state.banned <==> other in s.banned))
  {
  }

  /**
   * `/add_comment`: a banned user is redirected to the captcha and the
   * comment is dropped; anyone else has it appended to their comments and
   * gets 200. No other user's comments change.
   */
  lemma CommentStored(s: State, id: nat, text: string)
    requires id < |s.comments|
    ensures var o := Apply(s, AddComment(id, text));
      |o.state.comments| == |s.comments| &&
      (forall other :: 0 <= other < |s.comments| && other != id ==> o.state.comments[other] == s.comments[other]) &&
      if id in o.state.banned then o.response == RedirectToCaptcha && o.state.comments == s.comments
      else o.response == Response(Ok, [], []) && o.state.comments[id] == s.comments[id] + [text]
  {
  }

  /**
   * `/checkcaptcha`: the answer 42 lifts the user's ban and forgets their
   * run of comments, and only theirs; any other answer redirects to the
   * captcha and changes nothing.
   */
  lemma CaptchaAnswer(s: State, id: nat, answer: string)
    ensures var o := Apply(s, CheckCaptcha(id, answer));
      o.state.comments == s.comments &&
      if answer == "42" then
        o.response == Response(Ok, [], []) && o.state.banned == s.banned - {id} &&
        o.state.last == (if s.last.Some? && s.last.value.userId == id then Wrappers.None else s.last)
      else o.response == RedirectToCaptcha && o.state == s
  {
  }

  /** `/user_comments`: the user's comments in order, each followed by a newline; nothing changes. */
  lemma Listing(s: State, id: nat)
    requires id < |s.comments|
    ensures var o := Apply(s, ListComments(id));
      o.state == s && o.response == Response(Ok, [], Joined(s.comments[id])) &&
      |Joined(s.comments[id])| == |s.comments[id]| + SumLengths(s.comments[id])
  {
    JoinedLength(s.comments[id]);
  }

  function SumLengths(cs: seq<string>): nat
  {
    if cs == [] then 0 else SumLengths(cs[..|cs| - 1]) + |cs[|cs| - 1]|
  }

  /** Each comment contributes itself and one newline. */
  lemma {:induction false} JoinedLength(cs: seq<string>)
    ensures |Joined(cs)| == |cs| + SumLengths(cs)
  {
    if cs != [] {
      JoinedLength(cs[..|cs| - 1]);
    }
  }

  /** Any other method and path is 404 and changes nothing. */
  lemma Unmatched(s: State, req: Request)
    requires !(req.verb == "POST" && req.path in {"/add_user", "/add_comment", "/checkcaptcha"})
    requires !(req.verb == "GET" && req.path in {"/user_comments", "/captcha"})
    ensures Defined(s, req) && Step(s, req) == Outcome(s, Response(NotFound, [], []))
  {
  }

  /**
   * The guard: a user who was not banned and starts a run of comments has
   * three in a row stored, and the fourth is refused with a redirect.
   */
  lemma FourthInARowRefused(s: State, id: nat, t1: string, t2: string, t3: string, t4: string)
    requires id < |s.comments| && id !in s.banned
    requires s.last.None? || s.last.value.userId != id
    ensures var o1 := Apply(s, AddComment(id, t1));
      var o2 := Apply(o1.state, AddComment(id, t2));
      var o3 := Apply(o2.state, AddComment(id, t3));
      var o4 := Apply(o3.state, AddComment(id, t4));
      o1.response.code == Ok && o2.response.code == Ok && o3.response.code == Ok &&
      o4.response == RedirectToCaptcha &&
      o3.state.comments[id] == s.comments[id] + [t1, t2, t3] && o4.state.comments == o3.state.comments
  {
    CommentCounts(s, id, t1);
    CommentStored(s, id, t1);
    var o1 := Apply(s, AddComment(id, t1));
    CommentCounts(o1.state, id, t2);
    CommentStored(o1.state, id, t2);
    var o2 := Apply(o1.state, AddComment(id, t2));
    CommentCounts(o2.state, id, t3);
    CommentStored(o2.state, id, t3);
    var o3 := Apply(o2.state, AddComment(id, t3));
    CommentCounts(o3.state, id, t4);
    CommentStored(o3.state, id, t4);
  }

  /** The state after a run of requests and the responses to them, in order. */
  datatype Trace = Trace(state: State, responses: seq<Response>)

  /** Serving commands one after the other; `None` once one is undefined. */
  function Run(s: State, cmds: seq<Command>): Wrappers.Option<Trace>
    decreases |cmds|
  {
    if cmds == [] then Wrappers.Some(Trace(s, []))
    else if !Addressed(s, cmds[0]) then Wrappers.None
    else
      var o := Apply(s, cmds[0]);
      match Run(o.state, cmds[1..])
      case None => Wrappers.None
      case Some(t) => Wrappers.Some(Trace(t.state, [o.response] + t.responses))
  }

  /** A run of two parts is the second part run from where the first left off. */
  lemma {:induction false} RunAppend(s: State, a: seq<Command>, b: seq<Command>)
    ensures Run(s, a + b) ==
      match Run(s, a)
      case None => Wrappers.None
      case Some(t) =>
        match Run(t.state, b)
        case None => Wrappers.None
        case Some(u) => Wrappers.Some(Trace(u.state, t.responses + u.responses))
    decreases |a|
  {
    if a == [] {
      assert a + b == b;
      match Run(s, b)
      case None =>
      case Some(u) => assert [] + u.responses == u.responses;
    } else {
      assert (a + b)[0] == a[0] && (a + b)[1..] == a[1..] + b;
      if Addressed(s, a[0]) {
        var o := Apply(s, a[0]);
        RunAppend(o.state, a[1..], b);
        match Run(o.state, a[1..])
        case None =>
        case Some(t) =>
          match Run(t.state, b)
          case None =>
          case Some(u) =>
            assert [o.response] + (t.responses + u.responses) == ([o.response] + t.responses) + u.responses;
      }
    }
  }

  const Ok200 := Response(Ok, [], [])

  /** Appending a comment to one user's list, element by element. */
  lemma AppendAt(cs: seq<seq<string>>, i: nat, text: string, ds: seq<seq<string>>)
    requires i < |cs| && |ds| == |cs| && ds[i] == cs[i] + [text]
    requires forall j :: 0 <= j < |cs| && j != i ==> ds[j] == cs[j]
    ensures cs[i := cs[i] + [text]] == ds
  {
  }

  /** Two, three and four comments as the listing writes them. */
  lemma JoinedShort(a: string, b: string, c: string, d: string)
    ensures Joined([a, b]) == a + "\n" + b + "\n"
    ensures Joined([a, b, c]) == a + "\n" + b + "\n" + c + "\n"
    ensures Joined([a, b, c, d]) == a + "\n" + b + "\n" + c + "\n" + d + "\n"
  {
    assert [a, b, c, d][..3] == [a, b, c] && [a, b, c][..2] == [a, b] && [a, b][..1] == [a] && [a][..0] == [];
    assert Joined([a]) == a + "\n";
  }

  /** A run that goes through the given states with the given responses. */
  lemma {:induction false} RunThrough(states: seq<State>, cmds: seq<Command>, resps: seq<Response>)
    requires |states| == |cmds| + 1 && |resps| == |cmds|
    requires forall k :: 0 <= k < |cmds| ==>
      Addressed(states[k], cmds[k]) && Apply(states[k], cmds[k]) == Outcome(states[k + 1], resps[k])
    ensures Run(states[0], cmds) == Wrappers.Some(Trace(states[|cmds|], resps))
    decreases |cmds|
  {
    if cmds != [] {
      RunThrough(states[1..], cmds[1..], resps[1..]);
      assert [resps[0]] + resps[1..] == resps;
    }
  }

  /** The requests of `TestServer`, as the server reads them. */
  const Script := [
    AddUser, AddUser,
    AddComment(0, "Hello"), AddComment(1, "Hi"), AddComment(1, "Buy my goods"), AddComment(1, "Enlarge"),
    AddComment(1, "Buy my goods"), AddComment(0, "What are you selling?"), AddComment(1, "Buy my goods"),
    ListComments(0), ListComments(1), ShowCaptcha, CheckCaptcha(1, "24"), CheckCaptcha(1, "42"),
    AddComment(1, "Sorry! No spam any more"), ListComments(1), Unknown, Unknown]

  /** The responses `TestServer` expects. */
  const Expected := [
    Response(Ok, [], "0"), Response(Ok, [], "1"),
    Ok200, Ok200, Ok200, Ok200,
    RedirectToCaptcha, Ok200, RedirectToCaptcha,
    Response(Ok, [], "Hello" + "\n" + "What are you selling?" + "\n"),
    Response(Ok, [], "Hi" + "\n" + "Buy my goods" + "\n" + "Enlarge" + "\n"),
    Response(Ok, [], Question), RedirectToCaptcha, Ok200,
    Ok200,
    Response(Ok, [], "Hi" + "\n" + "Buy my goods" + "\n" + "Enlarge" + "\n" + "Sorry! No spam any more" + "\n"),
    Response(NotFound, [], []), Response(NotFound, [], [])]

  /** The server's state before each request of `TestServer` and after the last. */
  const ScriptStates := [
    State([], Wrappers.None, {}),
    State([[]], Wrappers.None, {}),
    State([[], []], Wrappers.None, {}),
    State([["Hello"], []], Wrappers.Some(LastCommentInfo(0, 1)), {}),
    State([["Hello"], ["Hi"]], Wrappers.Some(LastCommentInfo(1, 1)), {}),
    State([["Hello"], ["Hi", "Buy my goods"]], Wrappers.Some(LastCommentInfo(1, 2)), {}),
    State([["Hello"], ["Hi", "Buy my goods", "Enlarge"]], Wrappers.Some(LastCommentInfo(1, 3)), {}),
    State([["Hello"], ["Hi", "Buy my goods", "Enlarge"]], Wrappers.Some(LastCommentInfo(1, 4)), {1}),
    State([["Hello", "What are you selling?"], ["Hi", "Buy my goods", "Enlarge"]], Wrappers.Some(LastCommentInfo(0, 1)), {1}),
    BannedOne, BannedOne, BannedOne, BannedOne, BannedOne,
    State([["Hello", "What are you selling?"], ["Hi", "Buy my goods", "Enlarge"]], Wrappers.None, {}),
    Finished, Finished, Finished, Finished]

  /** User 1 after the comment that is refused a second time. */
  const BannedOne := State([["Hello", "What are you selling?"], ["Hi", "Buy my goods", "Enlarge"]],
                           Wrappers.Some(LastCommentInfo(1, 1)), {1})

  /** The server at the end of `TestServer`. */
  const Finished := State([["Hello", "What are you selling?"], ["Hi", "Buy my goods", "Enlarge", "Sorry! No spam any more"]],
                          Wrappers.Some(LastCommentInfo(1, 1)), {})

  /** `TestServer`, the first nine requests: two users, and user 1 refused from their fourth comment in a row. */
  lemma ScriptBanSteps(k: nat)
    requires k < 9
    ensures Addressed(ScriptStates[k], Script[k])
    ensures Apply(ScriptStates[k], Script[k]) == Outcome(ScriptStates[k + 1], Expected[k])
  {
    var before, after := ScriptStates[k], ScriptStates[k + 1];
    if Script[k].AddComment? && Expected[k] == Ok200 {
      AppendAt(before.comments, Script[k].id, Script[k].text, after.comments);
    }
  }

  /** `TestServer`, the listings: each user's comments in order, each followed by a newline. */
  lemma ScriptListingSteps(k: nat)
    requires k == 9 || k == 10 || k == 15
    ensures Addressed(ScriptStates[k], Script[k])
    ensures Apply(ScriptStates[k], Script[k]) == Outcome(ScriptStates[k + 1], Expected[k])
  {
    JoinedShort("Hello", "What are you selling?", "", "");
    JoinedShort("Hi", "Buy my goods", "Enlarge", "Sorry! No spam any more");
  }

  /** `TestServer`, the captcha page, a wrong answer and the right one, a comment again and two mistyped paths. */
  lemma ScriptCaptchaSteps(k: nat)
    requires 11 <= k < 18 && k != 15
    ensures Addressed(ScriptStates[k], Script[k])
    ensures Apply(ScriptStates[k], Script[k]) == Outcome(ScriptStates[k + 1], Expected[k])
  {
    if k == 14 {
      AppendAt(ScriptStates[k].comments, 1, "Sorry! No spam any more", Finished.comments);
    }
  }

  /**
   * `TestServer`: from a new server, the scripted requests get exactly the
   * codes, headers and contents the test expects.
   */
  lemma ScriptResponses()
    ensures Run(State([], Wrappers.None, {}), Script) == Wrappers.Some(Trace(Finished, Expected))
  {
    forall k | 0 <= k < |Script|
      ensures Addressed(ScriptStates[k], Script[k]) &&
        Apply(ScriptStates[k], Script[k]) == Outcome(ScriptStates[k + 1], Expected[k])
    {
      if k < 9 {
        ScriptBanSteps(k);
      } else if k == 9 || k == 10 || k == 15 {
        ScriptListingSteps(k);
      } else {
        ScriptCaptchaSteps(k);
      }
    }
    RunThrough(ScriptStates, Script, Expected);
  }

  /** The comment server. */
  class Server {
    var comments: seq<seq<string>>
    var last: Wrappers.Option<LastCommentInfo>
    var banned: set<nat>

    /** The fields, as a `State`. */
    function Snapshot(): State
      reads this
    {
      State(comments, last, banned)
    }

    /** A new server has no users, no run of comments and no bans. */
    constructor ()
      ensures Snapshot() == State([], Wrappers.None, {}) && Consistent(Snapshot())
    {
      comments := [];
      last := Wrappers.None;
      banned := {};
    }

    /** `ServeRequest`: the transition `Step` makes, on the fields. */
    method ServeRequest(req: Request) returns (response: Response)
      requires Consistent(Snapshot()) && Defined(Snapshot(), req)
      modifies this
      ensures Snapshot() == Step(old(Snapshot()), req).state && response == Step(old(Snapshot()), req).response
      ensures Consistent(Snapshot())
    {
      StepConsistent(Snapshot(), Parse(req));
      if req.verb == "POST" && req.path == "/add_user" {
        comments := comments + [[]];
        response := Response(Ok, [], NatToString(|comments| - 1));
      } else if req.verb == "POST" && req.path == "/add_comment" {
        var (id, comment) := ParseIdAndContent(req.body);
        assert Parse(req) == AddComment(id, comment);
        response := PostComment(id, comment);
      } else if req.verb == "POST" && req.path == "/checkcaptcha" {
        var (id, captcha) := ParseIdAndContent(req.body);
        assert Parse(req) == CheckCaptcha(id, captcha);
        response := AnswerCaptcha(id, captcha);
      } else if req.verb == "GET" && req.path == "/user_comments" {
        var userId := ReadSize(req.getParams["user_id"]);
        assert Parse(req) == ListComments(userId);
        var content := UserContent(comments[userId]);
        response := Response(Ok, [], content);
      } else if req.verb == "GET" && req.path == "/captcha" {
        response := Response(Ok, [], Question);
      } else {
        response := Response(NotFound, [], []);
      }
    }

    /** The `/add_comment` branch. */
    method PostComment(id: nat, comment: string) returns (response: Response)
      requires id < |comments|
      modifies this
      ensures Snapshot() == Apply(old(Snapshot()), AddComment(id, comment)).state
      ensures response == Apply(old(Snapshot()), AddComment(id, comment)).response
    {
      if last.None? || last.value.userId != id {
        last := Wrappers.Some(LastCommentInfo(id, 1));
      } else {
        last := last.(value := last.value.(consecutiveCount := last.value.consecutiveCount + 1));
        if last.value.consecutiveCount > 3 {
          banned := banned + {id};
        }
      }
      if id in banned {
        response := RedirectToCaptcha;
      } else {
        comments := comments[id := comments[id] + [comment]];
        response := Response(Ok, [], []);
      }
    }

    /** The `/checkcaptcha` branch. */
    method AnswerCaptcha(id: nat, captcha: string) returns (response: Response)
      modifies this
      ensures Snapshot() == Apply(old(Snapshot()), CheckCaptcha(id, captcha)).state
      ensures response == Apply(old(Snapshot()), CheckCaptcha(id, captcha)).response
    {
      response := Response(Ok, [], []);
      if captcha == "42" {
        banned := banned - {id};
        if last.Some? && last.value.userId == id {
          last := Wrappers.None;
        }
      } else {
        response := RedirectToCaptcha;
      }
    }
  }

  /** The listing loop of `/user_comments`. */
  method UserContent(cs: seq<string>) returns (content: string)
    ensures content == Joined(cs)
  {
    content := [];
    for k := 0 to |cs|
      invariant content == Joined(cs[..k])
    {
      assert cs[..k + 1][..k] == cs[..k];
      content := content + cs[k] + "\n";
    }
    assert cs[..|cs|] == cs;
  }
}

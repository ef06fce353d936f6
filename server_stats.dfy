/**
 * HTTP request statistics: counters per method and per URI over fixed key
 * sets, and the splitting of a request line into method, URI and protocol.
 */
module ServerStats {
  import opened Wrappers
  import Strings

  const METHODS: seq<string> := ["GET", "POST", "PUT", "DELETE", "UNKNOWN"]
  const URIS: seq<string> := ["/", "/order", "/product", "/basket", "/help", "unknown"]

  /** The sum of the counters of `keys`, each key counted once per occurrence. */
  function Total(keys: seq<string>, m: map<string, int>): int
    requires forall i :: 0 <= i < |keys| ==> keys[i] in m
  {
    if keys == [] then 0 else m[keys[0]] + Total(keys[1..], m)
  }

  predicate Distinct(keys: seq<string>)
  {
    forall i, j :: 0 <= i < j < |keys| ==> keys[i] != keys[j]
  }

  /** Incrementing one counter of a list of distinct keys raises their total by one. */
  lemma {:induction false} TotalIncrement(keys: seq<string>, m: map<string, int>, k: string)
    requires forall i :: 0 <= i < |keys| ==> keys[i] in m
    requires Distinct(keys) && k in keys
    ensures forall i :: 0 <= i < |keys| ==> keys[i] in m[k := m[k] + 1]
    ensures Total(keys, m[k := m[k] + 1]) == Total(keys, m) + 1
  {
    if keys[0] == k {
      TotalUnchanged(keys[1..], m, k);
    } else {
      TotalIncrement(keys[1..], m, k);
    }
  }

  /** Changing a counter outside `keys` leaves their total alone. */
  lemma {:induction false} TotalUnchanged(keys: seq<string>, m: map<string, int>, k: string)
    requires forall i :: 0 <= i < |keys| ==> keys[i] in m
    requires k in m && k !in keys
    ensures Total(keys, m[k := m[k] + 1]) == Total(keys, m)
  {
    if keys != [] {
      TotalUnchanged(keys[1..], m, k);
    }
  }

  /** A map holding exactly the keys of `keys`, every counter 0. */
  function Zeroes(keys: seq<string>): (m: map<string, int>)
    ensures m.Keys == set i | 0 <= i < |keys| :: keys[i]
    ensures forall k :: k in m ==> m[k] == 0
  {
    map k | k in keys :: 0
  }

  class Stats {
    var methodStats: map<string, int>
    var uriStats: map<string, int>

    /** The key sets are the fixed ones. */
    ghost predicate Valid()
      reads this
    {
      methodStats.Keys == {"GET", "POST", "PUT", "DELETE", "UNKNOWN"} &&
      uriStats.Keys == {"/", "/order", "/product", "/basket", "/help", "unknown"}
    }

    constructor ()
      ensures Valid()
      ensures forall k :: k in methodStats ==> methodStats[k] == 0
      ensures forall k :: k in uriStats ==> uriStats[k] == 0
    {
      methodStats := Zeroes(METHODS);
      uriStats := Zeroes(URIS);
    }

    /** Counts one request with `httpMethod`; an unlisted method counts as UNKNOWN. */
    method AddMethod(httpMethod: string)
      requires Valid()
      modifies this
      ensures Valid() && uriStats == old(uriStats)
      ensures var key := if httpMethod in old(methodStats) then httpMethod else "UNKNOWN";
        methodStats == old(methodStats)[key := old(methodStats)[key] + 1]
      ensures Total(METHODS, methodStats) == Total(METHODS, old(methodStats)) + 1
    {
      var key := if httpMethod in methodStats then httpMethod else "UNKNOWN";
      assert "UNKNOWN" == METHODS[4];
      assert key in METHODS;
      TotalIncrement(METHODS, methodStats, key);
      methodStats := methodStats[key := methodStats[key] + 1];
    }

    /** Counts one request for `uri`; an unlisted URI counts as unknown. */
    method AddUri(uri: string)
      requires Valid()
      modifies this
      ensures Valid() && methodStats == old(methodStats)
      ensures var key := if uri in old(uriStats) then uri else "unknown";
        uriStats == old(uriStats)[key := old(uriStats)[key] + 1]
      ensures Total(URIS, uriStats) == Total(URIS, old(uriStats)) + 1
    {
      var key := if uri in uriStats then uri else "unknown";
      assert "unknown" == URIS[5];
      assert key in URIS;
      TotalIncrement(URIS, uriStats, key);
      uriStats := uriStats[key := uriStats[key] + 1];
    }
  }

  datatype HttpRequest = HttpRequest(httpMethod: string, uri: string, protocol: string)

  predicate NoSpace(s: string) { ' ' !in s }

  /** `line.substr(0, line.find(' '))`: everything when there is no space. */
  function Field(line: string): (f: string)
    ensures NoSpace(f)
    ensures |f| <= |line| && f == line[..|f|] && (|f| == |line| || line[|f|] == ' ')
  {
    match Strings.FindChar(line, ' ')
      case None => line
      case Some(i) => line[..i]
  }

  /**
   * `line.remove_prefix(line.find(' ') + 1)`: past the first space; with none,
   * `npos + 1` wraps to 0 and nothing is removed.
   */
  function PastField(line: string): (rest: string)
    ensures ' ' in line ==> line == Field(line) + " " + rest
    ensures ' ' !in line ==> rest == line
  {
    match Strings.FindChar(line, ' ')
      case None => line
      case Some(i) => line[i + 1..]
  }

  /**
   * `ParseRequest`: leading spaces are dropped, then three fields are cut.
   * A line made only of spaces makes the source remove `npos` characters, so
   * it needs a character other than a space.
   */
  function ParseRequest(line: string): (r: HttpRequest)
    requires Strings.FindFirstNot(line, ' ').Some?
    ensures NoSpace(r.httpMethod) && NoSpace(r.uri) && NoSpace(r.protocol) && r.httpMethod != ""
  {
    var start := Strings.FindFirstNot(line, ' ').value;
    var trimmed := line[start..];
    var afterMethod := PastField(trimmed);
    var afterUri := PastField(afterMethod);
    HttpRequest(Field(trimmed), Field(afterMethod), Field(afterUri))
  }

  /** Leading spaces end at the first other character. */
  lemma SkipSpaces(spaces: string, t: string)
    requires forall i :: 0 <= i < |spaces| ==> spaces[i] == ' '
    requires t != [] && t[0] != ' '
    ensures Strings.FindFirstNot(spaces + t, ' ') == Some(|spaces|)
    ensures (spaces + t)[|spaces|..] == t
  {
    assert (spaces + t)[|spaces|] == t[0];
  }

  /** A word followed by a space is cut off as the field, leaving what follows the space. */
  lemma CutField(w: string, rest: string)
    requires NoSpace(w)
    ensures Field(w + " " + rest) == w && PastField(w + " " + rest) == rest
  {
    var s := w + " " + rest;
    assert s[|w|] == ' ' && s[..|w|] == w;
    assert Strings.FindChar(s, ' ') == Some(|w|);
    assert s[|w| + 1..] == rest;
  }

  /** A word followed by nothing or by a space is the whole field. */
  lemma LastField(p: string, tail: string)
    requires NoSpace(p) && (tail == [] || tail[0] == ' ')
    ensures Field(p + tail) == p
  {
    var s := p + tail;
    assert s[..|p|] == p;
    if tail == [] {
      assert s == p;
    } else {
      assert s[|p|] == ' ';
    }
  }

  /** A well-formed request line, after any leading spaces, parses into its three fields. */
  lemma ParseWellFormed(spaces: string, m: string, u: string, p: string, tail: string)
    requires forall i :: 0 <= i < |spaces| ==> spaces[i] == ' '
    requires NoSpace(m) && NoSpace(u) && NoSpace(p) && m != ""
    requires tail == [] || tail[0] == ' '
    ensures var line := spaces + (m + " " + (u + " " + (p + tail)));
      Strings.FindFirstNot(line, ' ').Some? && ParseRequest(line) == HttpRequest(m, u, p)
  {
    var afterUri := p + tail;
    var afterMethod := u + " " + afterUri;
    var trimmed := m + " " + afterMethod;
    SkipSpaces(spaces, trimmed);
    CutField(m, afterMethod);
    CutField(u, afterUri);
    LastField(p, tail);
  }

  /** A line with a single field puts that field in all three places. */
  lemma ParseSingleWord()
    ensures ParseRequest("GET") == HttpRequest("GET", "GET", "GET")
  {
    LastField("GET", "");
  }

  /** With two fields, the protocol repeats the URI. */
  lemma ParseTwoWords()
    ensures ParseRequest("GET /") == HttpRequest("GET", "/", "/")
  {
    var line := "GET /";
    assert line[0] != ' ' && line[0..] == line;
    assert Strings.FindFirstNot(line, ' ') == Some(0);
    CutField("GET", "/");
    assert "GET" + " " + "/" == line;
    LastField("/", "");
    assert "/" + "" == "/";
    assert Strings.FindChar("/", ' ') == None;
  }
}

/**
 * What the three versions of the transit guide (transport_guide_A, C and E)
 * share word for word: splitting a request line on a delimiter, reading the
 * stops of a bus from text, expanding a linear route into a there-and-back
 * route, counting a route's distinct stops, and the text form of a stop with
 * its road distances.
 *
 * A `string_view` that `ReadToken` advances is modelled by the pair of the
 * token read and what the view becomes. `ConvertToDouble` (`stod`) is an
 * uninterpreted `string -> real` parameter.
 */
module Transit {
  import opened Wrappers
  import opened Strings

  /** `unordered_map::at` on a missing key throws `std::out_of_range`. */
  datatype Failure = OutOfRange

  /** Coordinates in degrees. */
  datatype Coords = Coords(lat: real, lon: real)
  datatype Stop = Stop(name: string, coords: Coords)
  datatype Bus = Bus(name: string, stops: seq<string>)

  /** The two kinds of update request. */
  datatype UpdateType = StopType | BusType

  /** No occurrence of `d` starts in `s` before index `n`. */
  predicate NoneBefore(s: string, d: string, n: nat)
  {
    forall i: nat :: i < n ==> !OccursAt(s, d, i)
  }

  /** `d` occurs nowhere in `s`. */
  predicate Free(s: string, d: string)
  {
    NoneBefore(s, d, |s| + 1)
  }

  /**
   * `SplitTwoStrict(s, d)`: the text before the first `d` and, when there is
   * one, the text after it.
   */
  function SplitTwoStrict(s: string, delimiter: string): (r: (string, Option<string>))
    ensures r.1.None? <==> Free(s, delimiter)
    ensures r.1.None? ==> r.0 == s
    ensures r.1.Some? ==> r.0 + delimiter + r.1.value == s && NoneBefore(s, delimiter, |r.0|)
  {
    match Find(s, delimiter)
    case None => (s, None)
    case Some(pos) =>
      assert s[pos..pos + |delimiter|] == delimiter;
      assert s[..pos] + delimiter + s[pos + |delimiter|..] == s;
      (s[..pos], Some(s[pos + |delimiter|..]))
  }

  /** `SplitTwo(s, d)`: as `SplitTwoStrict`, with an empty right part when `d` is absent. */
  function SplitTwo(s: string, delimiter: string): (r: (string, string))
    ensures Free(s, delimiter) ==> r == (s, "")
    ensures !Free(s, delimiter) ==> r.0 + delimiter + r.1 == s && NoneBefore(s, delimiter, |r.0|)
  {
    var (lhs, rhs) := SplitTwoStrict(s, delimiter);
    (lhs, if rhs.Some? then rhs.value else "")
  }

  /**
   * `ReadToken(s, d)`: the token before the first `d` (or all of `s`) and
   * what `s` is advanced to: the text after that `d`, or nothing.
   */
  function ReadToken(s: string, delimiter: string): (r: (string, string))
    ensures |r.0| <= |s| && r.0 == s[..|r.0|]
    ensures |r.1| <= |s| && r.1 == s[|s| - |r.1|..]
    ensures |s| > 0 && |delimiter| > 0 ==> |r.1| < |s|
  {
    SplitTwo(s, delimiter)
  }

  /**
   * If a character `d[o]` of the delimiter is absent from `a` and from the
   * delimiter's own first `o` characters, the first `d` of `a + d + b` is the
   * one after `a`.
   */
  lemma FirstAfter(a: string, d: string, b: string, o: nat)
    requires o < |d| && d[o] !in a
    requires forall m :: 0 <= m < o ==> d[m] != d[o]
    ensures SplitTwoStrict(a + d + b, d) == (a, Some(b))
  {
    var s := a + d + b;
    assert s[|a|..|a| + |d|] == d;
    assert OccursAt(s, d, |a|);
    var r := SplitTwoStrict(s, d);
    forall i: nat | i < |a|
      ensures !OccursAt(s, d, i)
    {
      if i + |d| <= |s| {
        assert s[i..i + |d|][o] == s[i + o];
        if i + o < |a| {
          assert s[i + o] == a[i + o];
        } else {
          assert s[i + o] == d[i + o - |a|];
        }
      }
    }
    assert s[|r.0|..|r.0| + |d|] == d;
    assert r.0 == s[..|a|] == a;
    assert r.1.value == s[|a| + |d|..] == b;
  }

  /** Under the same condition, a text without that character has no `d` at all. */
  lemma NoSplit(a: string, d: string, o: nat)
    requires o < |d| && d[o] !in a
    ensures Free(a, d)
  {
    forall i: nat | i <= |a|
      ensures !OccursAt(a, d, i)
    {
      if i + |d| <= |a| {
        assert a[i..i + |d|][o] == a[i + o];
      }
    }
  }

  /** The tokens that `while (input.length() > 0) ReadToken(input, d)` reads, in order. */
  function Tokens(s: string, delimiter: string): (r: seq<string>)
    requires |delimiter| > 0
    ensures |r| == 0 <==> |s| == 0
    decreases |s|
  {
    if |s| == 0 then []
    else
      var (token, rest) := ReadToken(s, delimiter);
      [token] + Tokens(rest, delimiter)
  }

  /** The tokens separated by `d`, the inverse of `Tokens`. */
  function Join(ts: seq<string>, d: string): string
  {
    if |ts| == 0 then ""
    else if |ts| == 1 then ts[0]
    else ts[0] + d + Join(ts[1..], d)
  }

  predicate EndsWith(s: string, d: string)
  {
    |d| <= |s| && s[|s| - |d|..] == d
  }

  /** Every token read is free of the delimiter. */
  lemma {:induction false} TokensFree(s: string, d: string)
    requires |d| > 0
    ensures forall k :: 0 <= k < |Tokens(s, d)| ==> Free(Tokens(s, d)[k], d)
    decreases |s|
  {
    if |s| > 0 {
      var (token, rest) := ReadToken(s, d);
      TokensFree(rest, d);
      forall i: nat | i <= |token|
        ensures !OccursAt(token, d, i)
      {
        if i + |d| <= |token| {
          assert token[i..i + |d|] == s[i..i + |d|];
          assert !OccursAt(s, d, i);
        }
      }
      assert Tokens(s, d) == [token] + Tokens(rest, d);
    }
  }

  /**
   * Reading the tokens back loses nothing, unless the text ends with the
   * delimiter (the loop then never reads the empty last token).
   */
  lemma {:induction false} TokensJoin(s: string, d: string)
    requires |d| > 0 && !EndsWith(s, d)
    ensures Join(Tokens(s, d), d) == s
    decreases |s|
  {
    if |s| > 0 {
      var r := ReadToken(s, d);
      assert Tokens(s, d) == [r.0] + Tokens(r.1, d);
      if Free(s, d) {
        assert r.1 == "";
      } else {
        TokenSplit(s, d);
        TokensJoin(r.1, d);
      }
    }
  }

  /** A split that finds `d` in a text not ending with `d` leaves a non-empty rest that does not either. */
  lemma TokenSplit(s: string, d: string)
    requires |d| > 0 && !EndsWith(s, d) && !Free(s, d)
    ensures |ReadToken(s, d).1| > 0 && !EndsWith(ReadToken(s, d).1, d)
  {
    var (token, rest) := ReadToken(s, d);
    assert s == token + d + rest;
    assert s[|token|..|token| + |d|] == d;
    assert |rest| >= |d| ==> s[|s| - |d|..] == rest[|rest| - |d|..];
  }

  /** A character absent from the tokens and from `d` is absent from their join. */
  lemma {:induction false} JoinAvoids(ts: seq<string>, d: string, c: char)
    requires c !in d && forall k :: 0 <= k < |ts| ==> c !in ts[k]
    ensures c !in Join(ts, d)
  {
    if |ts| > 1 {
      JoinAvoids(ts[1..], d, c);
    }
  }

  /**
   * Tokens separated by `d` read back as themselves, when a character `d[o]`
   * that `d` does not repeat earlier is absent from every token and the last
   * token is not empty.
   */
  lemma {:induction false} TokensOfJoin(ts: seq<string>, d: string, o: nat)
    requires o < |d| && forall m :: 0 <= m < o ==> d[m] != d[o]
    requires |ts| > 0 && |ts[|ts| - 1]| > 0
    requires forall k :: 0 <= k < |ts| ==> d[o] !in ts[k]
    ensures Tokens(Join(ts, d), d) == ts
    decreases |ts|
  {
    if |ts| == 1 {
      NoSplit(ts[0], d, o);
      assert Tokens(ts[0], d) == [ts[0]] + Tokens("", d);
    } else {
      var rest := Join(ts[1..], d);
      FirstAfter(ts[0], d, rest, o);
      TokensOfJoin(ts[1..], d, o);
      assert Join(ts, d) == ts[0] + d + rest;
      assert Tokens(Join(ts, d), d) == [ts[0]] + Tokens(rest, d);
    }
  }

  /**
   * A linear route `s0..s(n-1)` ridden there and back:
   * `s0..s(n-1), s(n-2)..s0`.
   */
  function Expanded<T>(stops: seq<T>): (r: seq<T>)
    ensures |stops| > 0 ==> |r| == 2 * |stops| - 1
    ensures |stops| == 0 ==> r == []
    ensures |stops| <= |r| && r[..|stops|] == stops
  {
    if |stops| == 0 then [] else stops + Reverse(stops[..|stops| - 1])
  }

  /** The expanded route reads the same backwards: it returns to where it started. */
  lemma ExpandedPalindrome<T>(stops: seq<T>)
    ensures forall i :: 0 <= i < |Expanded(stops)| ==> Expanded(stops)[i] == Expanded(stops)[|Expanded(stops)| - 1 - i]
  {
    var r := Expanded(stops);
    var n := |stops|;
    forall i | 0 <= i < |r|
      ensures r[i] == r[|r| - 1 - i]
    {
      if i < n - 1 {
        assert r[|r| - 1 - i] == Reverse(stops[..n - 1])[n - 2 - i];
      } else if n - 1 < i {
        assert r[i] == Reverse(stops[..n - 1])[i - n];
      }
    }
  }

  /**
   * The reverse loop of `BusUpdateRequest::ParseFrom`:
   * `for (int i = stops.size() - 2; i >= 0; i--) stops.push_back(stops[i])`.
   */
  method AppendReversed(forward: seq<string>) returns (stops: seq<string>)
    ensures stops == Expanded(forward)
  {
    stops := forward;
    var i := |stops| - 2;
    while i >= 0
      invariant |forward| == 0 ==> i == -2 && stops == forward
      invariant |forward| > 0 ==> -1 <= i <= |forward| - 2
      invariant |forward| > 0 ==> stops == forward + Reverse(forward[i + 1..|forward| - 1])
      decreases i
    {
      assert stops[i] == forward[i];
      assert forward[i..|forward| - 1][1..] == forward[i + 1..|forward| - 1];
      stops := stops + [stops[i]];
      i := i - 1;
    }
  }

  /** The delimiter a bus line uses: `" - "` if it occurs, else `" > "`. */
  function Delimiter(rest: string): string
  {
    if Find(rest, " - ").Some? then " - " else " > "
  }

  /** The bus a text update request describes: `name: s0 - s1 - ...` or `name: s0 > s1 > ...`. */
  function BusFromText(input: string): Bus
  {
    var (name, rest) := ReadToken(input, ": ");
    var delimiter := Delimiter(rest);
    var stops := Tokens(rest, delimiter);
    Bus(name, if delimiter == " - " then Expanded(stops) else stops)
  }

  /** `BusUpdateRequest::ParseFrom(string_view)`. */
  method ParseBus(input: string) returns (bus: Bus)
    ensures bus == BusFromText(input)
  {
    var t := ReadToken(input, ": ");
    var delimiter := if Find(t.1, " - ").Some? then " - " else " > ";
    var stops := ReadStops(t.1, delimiter);
    if delimiter == " - " {
      stops := AppendReversed(stops);
    }
    bus := Bus(t.0, stops);
  }

  /** The first loop of `BusUpdateRequest::ParseFrom`: one stop per `ReadToken`. */
  method ReadStops(input: string, delimiter: string) returns (stops: seq<string>)
    requires |delimiter| > 0
    ensures stops == Tokens(input, delimiter)
  {
    var rest := input;
    stops := [];
    assert stops + Tokens(rest, delimiter) == Tokens(input, delimiter);
    while |rest| > 0
      invariant stops + Tokens(rest, delimiter) == Tokens(input, delimiter)
      decreases |rest|
    {
      var token := ReadToken(rest, delimiter);
      TokensStep(stops, rest, delimiter);
      stops := stops + [token.0];
      rest := token.1;
    }
    assert Tokens(rest, delimiter) == [];
    assert stops + [] == stops;
  }

  /**
   * A bus written as its name, `": "` and its stops joined by `" - "` (a
   * linear route) or `" > "` (a ring) reads back as that bus, the linear one
   * expanded there and back. Names must avoid the characters that start or
   * mark a delimiter.
   */
  lemma BusTextRoundTrip(name: string, stops: seq<string>, linear: bool)
    requires ':' !in name
    requires |stops| > 0 && |stops[|stops| - 1]| > 0
    requires forall k :: 0 <= k < |stops| ==> '-' !in stops[k] && '>' !in stops[k]
    ensures BusFromText(name + ": " + Join(stops, if linear then " - " else " > "))
         == Bus(name, if linear then Expanded(stops) else stops)
  {
    var d := if linear then " - " else " > ";
    var rest := Join(stops, d);
    FirstAfter(name, ": ", rest, 0);
    assert ReadToken(name + ": " + rest, ": ") == (name, rest);
    if linear && |stops| > 1 {
      assert rest == stops[0] + " - " + Join(stops[1..], " - ");
      assert rest[|stops[0]|..|stops[0]| + 3] == " - ";
      assert OccursAt(rest, " - ", |stops[0]|);
      assert Delimiter(rest) == " - ";
      TokensOfJoin(stops, " - ", 1);
    } else if linear {
      assert rest == stops[0];
      NoSplit(rest, " - ", 1);
      assert Delimiter(rest) == " > ";
      assert " > "[1] != " - "[1];
      NoSplit(rest, " > ", 1);
      assert Tokens(rest, " > ") == [rest] + Tokens("", " > ");
      assert Expanded(stops) == stops;
    } else {
      JoinAvoids(stops, " > ", '-');
      NoSplit(rest, " - ", 1);
      assert Delimiter(rest) == " > ";
      assert " > "[1] != " - "[1];
      TokensOfJoin(stops, " > ", 1);
    }
  }

  /** The distinct names on a route. */
  function Names(stops: seq<string>): set<string>
  {
    set s | s in stops
  }

  /** A route has at most as many distinct stops as stops. */
  lemma {:induction false} NamesAtMost(stops: seq<string>)
    ensures |Names(stops)| <= |stops|
  {
    if |stops| > 0 {
      var last := stops[|stops| - 1];
      var init := stops[..|stops| - 1];
      NamesAtMost(init);
      assert stops == init + [last];
      assert Names(stops) == Names(init) + {last};
    }
  }

  /** `GetUniqueStopsNumber`: the names inserted one by one into a `set`. */
  method GetUniqueStopsNumber(bus: Bus) returns (n: nat)
    ensures n == |Names(bus.stops)| && n <= |bus.stops|
  {
    var names: set<string> := {};
    for i := 0 to |bus.stops|
      invariant names == Names(bus.stops[..i])
    {
      assert bus.stops[..i + 1] == bus.stops[..i] + [bus.stops[i]];
      names := names + {bus.stops[i]};
    }
    assert bus.stops[..|bus.stops|] == bus.stops;
    NamesAtMost(bus.stops);
    n := |names|;
  }

  /** `ConvertUpdateRequestTypeFromString`: only `"Stop"` and `"Bus"` name an update. */
  function UpdateTypeOf(word: string): (r: Option<UpdateType>)
    ensures r == Some(StopType) <==> word == "Stop"
    ensures r == Some(BusType) <==> word == "Bus"
    ensures r.None? <==> word != "Stop" && word != "Bus"
  {
    if word == "Stop" then Some(StopType)
    else if word == "Bus" then Some(BusType)
    else None
  }

  /**
   * `GetDistance` before its geodesic fallback: the stored distance for
   * `(a, b)`, else the one stored for `(b, a)`.
   */
  function StoredDistance(distances: map<(string, string), real>, a: string, b: string): Option<real>
  {
    if (a, b) in distances then Some(distances[(a, b)])
    else if (b, a) in distances then Some(distances[(b, a)])
    else None
  }

  /**
   * `AddDistance(a, b, x)` sets only the ordered pair `(a, b)`: the lookup
   * from `a` to `b` gives `x`, the lookup from `b` to `a` gives its own
   * stored value if there is one and `x` otherwise, and every other lookup
   * is unchanged.
   */
  lemma AddDistanceDirected(distances: map<(string, string), real>, a: string, b: string, x: real)
    ensures StoredDistance(distances[(a, b) := x], a, b) == Some(x)
    ensures a != b && (b, a) in distances ==> StoredDistance(distances[(a, b) := x], b, a) == Some(distances[(b, a)])
    ensures (b, a) !in distances ==> StoredDistance(distances[(a, b) := x], b, a) == Some(x)
    ensures forall c, e :: (c, e) != (a, b) && (c, e) != (b, a) ==>
      StoredDistance(distances[(a, b) := x], c, e) == StoredDistance(distances, c, e)
  {
  }

  /** Both directions agree when at most one of them is stored. */
  lemma StoredDistanceSymmetric(distances: map<(string, string), real>, a: string, b: string)
    requires (a, b) !in distances || (b, a) !in distances
    ensures StoredDistance(distances, a, b) == StoredDistance(distances, b, a)
  {
  }

  /** One `", "`-separated token after the coordinates: `"<D>m to <name>"` as (name, D). */
  function DistanceEntry(token: string): (string, string)
  {
    var (distance, name) := ReadToken(token, "m to ");
    (name, distance)
  }

  function DistanceEntries(tokens: seq<string>): (r: seq<(string, string)>)
    ensures |r| == |tokens| && forall k :: 0 <= k < |tokens| ==> r[k] == DistanceEntry(tokens[k])
  {
    if |tokens| == 0 then [] else [DistanceEntry(tokens[0])] + DistanceEntries(tokens[1..])
  }

  /** `distances[{from, name}] = distance` over the entries in order: the last entry per name wins. */
  function DistanceMap(origin: string, entries: seq<(string, string)>, toReal: string -> real): map<(string, string), real>
  {
    if |entries| == 0 then map[]
    else
      var last := entries[|entries| - 1];
      DistanceMap(origin, entries[..|entries| - 1], toReal)[(origin, last.0) := toReal(last.1)]
  }

  /** Entry `k` is the last one naming its stop. */
  predicate LastFor(entries: seq<(string, string)>, k: nat)
  {
    k < |entries| && forall k' :: k < k' < |entries| ==> entries[k'].0 != entries[k].0
  }

  /** The map holds exactly one pair `(origin, name)` per named stop. */
  lemma {:induction false} DistanceMapKeys(origin: string, entries: seq<(string, string)>, toReal: string -> real)
    ensures forall a, b :: (a, b) in DistanceMap(origin, entries, toReal) <==>
      a == origin && exists k :: 0 <= k < |entries| && entries[k].0 == b
  {
    if |entries| > 0 {
      var init := entries[..|entries| - 1];
      DistanceMapKeys(origin, init, toReal);
      forall a, b
        ensures (a, b) in DistanceMap(origin, entries, toReal) <==>
          a == origin && exists k :: 0 <= k < |entries| && entries[k].0 == b
      {
        if a == origin && (exists k :: 0 <= k < |entries| && entries[k].0 == b) {
          var k :| 0 <= k < |entries| && entries[k].0 == b;
          if k < |init| {
            assert init[k].0 == b;
          }
        }
        if (a, b) in DistanceMap(origin, init, toReal) {
          var k :| 0 <= k < |init| && init[k].0 == b;
          assert entries[k].0 == b;
        }
      }
    }
  }

  /** The distance stored for a named stop is that of the last entry naming it. */
  lemma {:induction false} DistanceMapLast(origin: string, entries: seq<(string, string)>, toReal: string -> real)
    ensures forall k: nat :: LastFor(entries, k) ==>
      (origin, entries[k].0) in DistanceMap(origin, entries, toReal) &&
      DistanceMap(origin, entries, toReal)[(origin, entries[k].0)] == toReal(entries[k].1)
  {
    if |entries| > 0 {
      var init := entries[..|entries| - 1];
      DistanceMapLast(origin, init, toReal);
      forall k: nat | LastFor(entries, k)
        ensures (origin, entries[k].0) in DistanceMap(origin, entries, toReal) &&
          DistanceMap(origin, entries, toReal)[(origin, entries[k].0)] == toReal(entries[k].1)
      {
        if k < |init| {
          assert LastFor(init, k);
          assert entries[k] == init[k];
        }
      }
    }
  }

  /**
   * `StopUpdateRequest::ParseFrom(string_view)` in versions C and E:
   * `name: lat, lon, D1m to S1, D2m to S2, ...` gives the stop and one
   * distance from it per trailing token.
   */
  function StopFromText(input: string, toReal: string -> real): (Stop, map<(string, string), real>)
  {
    var (name, rest) := ReadToken(input, ": ");
    var (lat, rest1) := ReadToken(rest, ", ");
    var (lon, rest2) := ReadToken(rest1, ", ");
    (Stop(name, Coords(toReal(lat), toReal(lon))),
     TokenDistances(name, Tokens(rest2, ", "), toReal))
  }

  /** The trailing `, <D>m to <S>` tokens of a stop written out. */
  function DistanceText(entries: seq<(string, string)>): string
  {
    if |entries| == 0 then "" else ", " + entries[0].1 + "m to " + entries[0].0 + DistanceText(entries[1..])
  }

  function EntryTokens(entries: seq<(string, string)>): (r: seq<string>)
    ensures |r| == |entries| && forall k :: 0 <= k < |entries| ==> r[k] == entries[k].1 + "m to " + entries[k].0
  {
    if |entries| == 0 then [] else [entries[0].1 + "m to " + entries[0].0] + EntryTokens(entries[1..])
  }

  lemma {:induction false} DistanceTextJoin(entries: seq<(string, string)>)
    requires |entries| > 0
    ensures DistanceText(entries) == ", " + Join(EntryTokens(entries), ", ")
  {
    var t0 := entries[0].1 + "m to " + entries[0].0;
    if |entries| == 1 {
      assert DistanceText(entries) == ", " + t0 + DistanceText([]);
    } else {
      DistanceTextJoin(entries[1..]);
      assert EntryTokens(entries)[1..] == EntryTokens(entries[1..]);
      assert Join(EntryTokens(entries), ", ") == t0 + ", " + Join(EntryTokens(entries[1..]), ", ");
      assert DistanceText(entries) == ", " + t0 + DistanceText(entries[1..]);
    }
  }

  /** The text after the latitude reads back as the longitude and the distance entries. */
  lemma DistancesRead(lon: string, entries: seq<(string, string)>)
    requires ',' !in lon
    requires forall k :: 0 <= k < |entries| ==> 'm' !in entries[k].1 && ',' !in entries[k].1 && ',' !in entries[k].0
    ensures ReadToken(lon + DistanceText(entries), ", ").0 == lon
    ensures DistanceEntries(Tokens(ReadToken(lon + DistanceText(entries), ", ").1, ", ")) == entries
  {
    if |entries| == 0 {
      NoDistances(lon, entries);
    } else {
      var rest := Join(EntryTokens(entries), ", ");
      DistanceTextJoin(entries);
      LonThenRest(lon, DistanceText(entries), rest);
      EntriesRead(entries);
    }
  }

  lemma NoDistances(lon: string, entries: seq<(string, string)>)
    requires ',' !in lon && |entries| == 0
    ensures ReadToken(lon + DistanceText(entries), ", ") == (lon, "")
  {
    NoSplit(lon, ", ", 0);
    assert lon + DistanceText(entries) == lon;
  }

  lemma LonThenRest(lon: string, text: string, rest: string)
    requires ',' !in lon && text == ", " + rest
    ensures ReadToken(lon + text, ", ") == (lon, rest)
  {
    assert lon + text == lon + ", " + rest;
    FirstAfter(lon, ", ", rest, 0);
  }

  /** The entries joined by `", "` read back as themselves. */
  lemma EntriesRead(entries: seq<(string, string)>)
    requires |entries| > 0
    requires forall k :: 0 <= k < |entries| ==> 'm' !in entries[k].1 && ',' !in entries[k].1 && ',' !in entries[k].0
    ensures DistanceEntries(Tokens(Join(EntryTokens(entries), ", "), ", ")) == entries
  {
    EntryTokensAvoid(entries);
    TokensOfJoin(EntryTokens(entries), ", ", 0);
    EntryTokensRead(entries);
  }

  lemma EntryTokensAvoid(entries: seq<(string, string)>)
    requires |entries| > 0
    requires forall k :: 0 <= k < |entries| ==> ',' !in entries[k].1 && ',' !in entries[k].0
    ensures |EntryTokens(entries)[|entries| - 1]| > 0
    ensures forall k :: 0 <= k < |entries| ==> ',' !in EntryTokens(entries)[k]
  {
    assert ',' !in "m to ";
    assert |"m to "| > 0;
  }

  /** Each written entry reads back as itself. */
  lemma EntryTokensRead(entries: seq<(string, string)>)
    requires forall k :: 0 <= k < |entries| ==> 'm' !in entries[k].1
    ensures DistanceEntries(EntryTokens(entries)) == entries
  {
    var ts := EntryTokens(entries);
    forall k | 0 <= k < |ts|
      ensures DistanceEntry(ts[k]) == entries[k]
    {
      FirstAfter(entries[k].1, "m to ", entries[k].0, 0);
    }
  }

  /**
   * A stop written as `name: lat, lon` followed by `, <D>m to <S>` per road
   * distance reads back as that stop and those distances, the last one per
   * stop winning. Texts must avoid the characters that mark a delimiter.
   */
  lemma StopTextRoundTrip(name: string, lat: string, lon: string, entries: seq<(string, string)>, toReal: string -> real)
    requires ':' !in name && ',' !in lat && ',' !in lon
    requires forall k :: 0 <= k < |entries| ==> 'm' !in entries[k].1 && ',' !in entries[k].1 && ',' !in entries[k].0
    ensures StopFromText(name + ": " + lat + ", " + lon + DistanceText(entries), toReal)
         == (Stop(name, Coords(toReal(lat), toReal(lon))), DistanceMap(name, entries, toReal))
  {
    var tail := lon + DistanceText(entries);
    assert name + ": " + lat + ", " + lon + DistanceText(entries) == name + ": " + lat + ", " + tail;
    NameThenRest(name, lat, tail);
    LonThenRest(lat, ", " + tail, tail);
    assert lat + (", " + tail) == lat + ", " + tail;
    DistancesRead(lon, entries);
  }

  lemma NameThenRest(name: string, lat: string, tail: string)
    requires ':' !in name
    ensures ReadToken(name + ": " + lat + ", " + tail, ": ") == (name, lat + ", " + tail)
  {
    assert name + ": " + lat + ", " + tail == name + ": " + (lat + ", " + tail);
    FirstAfter(name, ": ", lat + ", " + tail, 0);
  }

  /**
   * `StopUpdateRequest::ParseFrom(string_view)` in versions C and E: the
   * name, the two coordinates, then one road distance per remaining
   * `", "`-separated token.
   */
  method ParseStop(input: string, toReal: string -> real) returns (stop: Stop, distances: map<(string, string), real>)
    ensures (stop, distances) == StopFromText(input, toReal)
  {
    var t := ReadToken(input, ": ");
    var lat := ReadToken(t.1, ", ");
    var lon := ReadToken(lat.1, ", ");
    stop := Stop(t.0, Coords(toReal(lat.0), toReal(lon.0)));
    distances := ReadDistances(t.0, lon.1, toReal);
  }

  /** The road distances from `origin` that the tokens give. */
  function TokenDistances(origin: string, tokens: seq<string>, toReal: string -> real): map<(string, string), real>
  {
    DistanceMap(origin, DistanceEntries(tokens), toReal)
  }

  /** The loop of `ParseStop`: `distances[{from, name}] = distance` per remaining token. */
  method ReadDistances(origin: string, input: string, toReal: string -> real) returns (distances: map<(string, string), real>)
    ensures distances == TokenDistances(origin, Tokens(input, ", "), toReal)
  {
    var rest := input;
    ghost var read: seq<string> := [];
    distances := map[];
    assert read + Tokens(rest, ", ") == Tokens(input, ", ");
    while |rest| > 0
      invariant read + Tokens(rest, ", ") == Tokens(input, ", ")
      invariant distances == TokenDistances(origin, read, toReal)
      decreases |rest|
    {
      var token := ReadToken(rest, ", ");
      var entry := ReadToken(token.0, "m to ");
      distances := distances[(origin, entry.1) := toReal(entry.0)];
      TokenStep(origin, read, rest, token.0, token.1, toReal);
      read := read + [token.0];
      rest := token.1;
    }
    assert read == Tokens(input, ", ") by {
      assert Tokens(rest, ", ") == [];
    }
  }

  lemma TokenStep(origin: string, read: seq<string>, rest: string, token: string, after: string, toReal: string -> real)
    requires |rest| > 0 && (token, after) == ReadToken(rest, ", ")
    ensures read + Tokens(rest, ", ") == (read + [token]) + Tokens(after, ", ")
    ensures TokenDistances(origin, read + [token], toReal)
         == TokenDistances(origin, read, toReal)[(origin, ReadToken(token, "m to ").1) := toReal(ReadToken(token, "m to ").0)]
  {
    TokensStep(read, rest, ", ");
    DistanceMapSnoc(origin, read, token, toReal);
  }

  lemma TokensStep(read: seq<string>, rest: string, d: string)
    requires |rest| > 0 && |d| > 0
    ensures read + Tokens(rest, d) == (read + [ReadToken(rest, d).0]) + Tokens(ReadToken(rest, d).1, d)
  {
    var t := Tokens(ReadToken(rest, d).1, d);
    assert Tokens(rest, d) == [ReadToken(rest, d).0] + t;
  }

  lemma DistanceMapSnoc(origin: string, read: seq<string>, token: string, toReal: string -> real)
    ensures TokenDistances(origin, read + [token], toReal)
         == TokenDistances(origin, read, toReal)[(origin, ReadToken(token, "m to ").1) := toReal(ReadToken(token, "m to ").0)]
  {
    assert DistanceEntries(read + [token])[..|read|] == DistanceEntries(read);
  }

  /** `m.emplace(key, v)`: a key already present keeps its value. */
  function Emplace<V>(m: map<string, V>, key: string, v: V): map<string, V>
  {
    if key in m then m else m[key := v]
  }

  /** The stops registered by `AddStop` with `emplace`, one after another. */
  function StopsEmplaced(stops: seq<Stop>): map<string, Stop>
  {
    if |stops| == 0 then map[]
    else
      var last := stops[|stops| - 1];
      Emplace(StopsEmplaced(stops[..|stops| - 1]), last.name, last)
  }

  /** Stop `k` is the first one with its name. */
  predicate FirstNamed(stops: seq<Stop>, k: nat)
  {
    k < |stops| && forall k' :: 0 <= k' < k ==> stops[k'].name != stops[k].name
  }

  /** Every name added is registered, and under it the first stop added with that name. */
  lemma {:induction false} FirstStopKept(stops: seq<Stop>)
    ensures forall name :: name in StopsEmplaced(stops) <==> exists k :: 0 <= k < |stops| && stops[k].name == name
    ensures forall k: nat :: FirstNamed(stops, k) ==> StopsEmplaced(stops)[stops[k].name] == stops[k]
  {
    if |stops| > 0 {
      var init := stops[..|stops| - 1];
      FirstStopKept(init);
      forall name
        ensures name in StopsEmplaced(stops) <==> exists k :: 0 <= k < |stops| && stops[k].name == name
      {
        if name in StopsEmplaced(init) {
          var k :| 0 <= k < |init| && init[k].name == name;
          assert stops[k].name == name;
        }
        if exists k :: 0 <= k < |stops| && stops[k].name == name {
          var k :| 0 <= k < |stops| && stops[k].name == name;
          if k < |init| {
            assert init[k].name == name;
          }
        }
      }
      forall k: nat | FirstNamed(stops, k)
        ensures StopsEmplaced(stops)[stops[k].name] == stops[k]
      {
        if k < |init| {
          assert FirstNamed(init, k) && init[k] == stops[k];
        } else {
          assert stops[k].name !in StopsEmplaced(init) by {
            forall j | 0 <= j < |init|
              ensures init[j].name != stops[k].name
            {
              assert init[j] == stops[j];
            }
          }
        }
      }
    }
  }

  /** The buses registered by `busByName[bus.name] = bus`, one after another. */
  function BusesAssigned(buses: seq<Bus>): map<string, Bus>
  {
    if |buses| == 0 then map[]
    else
      var last := buses[|buses| - 1];
      BusesAssigned(buses[..|buses| - 1])[last.name := last]
  }

  /** Bus `k` is the last one with its name. */
  predicate LastNamed(buses: seq<Bus>, k: nat)
  {
    k < |buses| && forall k' :: k < k' < |buses| ==> buses[k'].name != buses[k].name
  }

  /** Exactly the names added are registered. */
  lemma {:induction false} BusNamesKept(buses: seq<Bus>)
    ensures forall name :: name in BusesAssigned(buses) <==> exists k :: 0 <= k < |buses| && buses[k].name == name
  {
    if |buses| > 0 {
      var init := buses[..|buses| - 1];
      BusNamesKept(init);
      forall name
        ensures name in BusesAssigned(buses) <==> exists k :: 0 <= k < |buses| && buses[k].name == name
      {
        if name in BusesAssigned(init) {
          var k :| 0 <= k < |init| && init[k].name == name;
          assert buses[k].name == name;
        }
        if exists k :: 0 <= k < |buses| && buses[k].name == name {
          var k :| 0 <= k < |buses| && buses[k].name == name;
          if k < |init| {
            assert init[k].name == name;
          }
        }
      }
    }
  }

  /** Under each name, the last bus added with that name. */
  lemma {:induction false} LastBusKept(buses: seq<Bus>)
    ensures forall k: nat :: LastNamed(buses, k) ==>
      buses[k].name in BusesAssigned(buses) && BusesAssigned(buses)[buses[k].name] == buses[k]
  {
    if |buses| > 0 {
      var init := buses[..|buses| - 1];
      LastBusKept(init);
      forall k: nat | LastNamed(buses, k)
        ensures buses[k].name in BusesAssigned(buses) && BusesAssigned(buses)[buses[k].name] == buses[k]
      {
        if k < |init| {
          assert LastNamed(init, k) && init[k] == buses[k];
        }
      }
    }
  }

  /** `GetBusesByStop`: the buses listed at a stop, or the empty set. */
  function BusesAt(index: map<string, set<string>>, stop: string): set<string>
  {
    if stop in index then index[stop] else {}
  }

  /** `stopToBuses[stop].insert(busName)` for each stop of a route, in order. */
  function Listed(index: map<string, set<string>>, stops: seq<string>, busName: string): map<string, set<string>>
  {
    if |stops| == 0 then index
    else
      var m := Listed(index, stops[..|stops| - 1], busName);
      var stop := stops[|stops| - 1];
      m[stop := BusesAt(m, stop) + {busName}]
  }

  /**
   * After `AddBus`, each stop of the route lists the bus besides what it
   * listed before, and no other stop changes. A stop no bus passes through
   * lists nothing.
   */
  lemma {:induction false} ListedAt(index: map<string, set<string>>, stops: seq<string>, busName: string)
    ensures forall stop ::
      BusesAt(Listed(index, stops, busName), stop) == BusesAt(index, stop) + (if stop in stops then {busName} else {})
  {
    if |stops| > 0 {
      var init := stops[..|stops| - 1];
      ListedAt(index, init, busName);
      assert stops == init + [stops[|stops| - 1]];
      forall stop
        ensures BusesAt(Listed(index, stops, busName), stop)
          == BusesAt(index, stop) + (if stop in stops then {busName} else {})
      {
        assert stop in stops <==> stop in init || stop == stops[|stops| - 1];
      }
    }
  }

  /** The route's stops up to index `k` are all registered (nothing is needed when there is no leg). */
  predicate LegsKnown(stopByName: map<string, Stop>, stops: seq<string>, k: nat)
  {
    k < |stops| && (k == 0 || forall i :: 0 <= i <= k ==> stops[i] in stopByName)
  }

  /** `GetGeoDistance`: the geodesic length between two registered stops. */
  function GeoDistance(stopByName: map<string, Stop>, geo: (Coords, Coords) -> real, a: string, b: string): real
    requires a in stopByName && b in stopByName
  {
    geo(stopByName[a].coords, stopByName[b].coords)
  }

  /** The geodesic length of the route's first `k` legs. */
  function GeoLength(stopByName: map<string, Stop>, geo: (Coords, Coords) -> real, stops: seq<string>, k: nat): real
    requires LegsKnown(stopByName, stops, k)
  {
    if k == 0 then 0.0
    else GeoLength(stopByName, geo, stops, k - 1) + GeoDistance(stopByName, geo, stops[k - 1], stops[k])
  }

  /** `GetDistance` between two registered stops: the stored road distance, else the geodesic one. */
  function RoadDistance(stopByName: map<string, Stop>, distances: map<(string, string), real>,
                        geo: (Coords, Coords) -> real, a: string, b: string): (r: real)
    requires a in stopByName && b in stopByName
    ensures (a, b) in distances ==> r == distances[(a, b)]
    ensures (a, b) !in distances && (b, a) in distances ==> r == distances[(b, a)]
    ensures (a, b) !in distances && (b, a) !in distances ==> r == GeoDistance(stopByName, geo, a, b)
  {
    match StoredDistance(distances, a, b)
    case Some(x) => x
    case None => GeoDistance(stopByName, geo, a, b)
  }

  /** The road length of the route's first `k` legs. */
  function RoadLength(stopByName: map<string, Stop>, distances: map<(string, string), real>,
                      geo: (Coords, Coords) -> real, stops: seq<string>, k: nat): real
    requires LegsKnown(stopByName, stops, k)
  {
    if k == 0 then 0.0
    else RoadLength(stopByName, distances, geo, stops, k - 1) + RoadDistance(stopByName, distances, geo, stops[k - 1], stops[k])
  }

  /**
   * Where no leg has a road distance stored in either direction, the road
   * length is the geodesic length (the curvature is 1).
   */
  lemma {:induction false} RoadLengthWithoutDistances(stopByName: map<string, Stop>, distances: map<(string, string), real>,
                                                      geo: (Coords, Coords) -> real, stops: seq<string>, k: nat)
    requires LegsKnown(stopByName, stops, k)
    requires forall i :: 0 < i <= k ==> StoredDistance(distances, stops[i - 1], stops[i]).None?
    ensures RoadLength(stopByName, distances, geo, stops, k) == GeoLength(stopByName, geo, stops, k)
  {
    if k > 0 {
      RoadLengthWithoutDistances(stopByName, distances, geo, stops, k - 1);
    }
  }

  /** Where every leg has its forward road distance stored, the road length is their sum. */
  function StoredLength(distances: map<(string, string), real>, stops: seq<string>, k: nat): real
    requires k < |stops| && forall i :: 0 < i <= k ==> (stops[i - 1], stops[i]) in distances
  {
    if k == 0 then 0.0 else StoredLength(distances, stops, k - 1) + distances[(stops[k - 1], stops[k])]
  }

  lemma {:induction false} RoadLengthStored(stopByName: map<string, Stop>, distances: map<(string, string), real>,
                                            geo: (Coords, Coords) -> real, stops: seq<string>, k: nat)
    requires LegsKnown(stopByName, stops, k)
    requires forall i :: 0 < i <= k ==> (stops[i - 1], stops[i]) in distances
    ensures RoadLength(stopByName, distances, geo, stops, k) == StoredLength(distances, stops, k)
  {
    if k > 0 {
      RoadLengthStored(stopByName, distances, geo, stops, k - 1);
    }
  }
}

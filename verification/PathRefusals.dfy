/** Which paths the guard refuses, in terms of how a segment is written: character by character, plain or
    escaped as a percent sign and two hexadecimal digits of either case. */
module PathRefusals {
  import opened Text
  import opened PathGuard

  // ---------- writing a text with escapes ----------

  const LOWER_DIGITS := "0123456789abcdef"
  const UPPER_DIGITS := "0123456789ABCDEF"

  /** The hexadecimal digit of `v`, in either case. */
  function HexDigit(v: nat, upper: bool): char
    requires v < 16
  {
    if upper then UPPER_DIGITS[v] else LOWER_DIGITS[v]
  }

  /** One character of a text as it is written: as itself, or as an escape with two digits. */
  datatype Piece = Raw(c: char) | Escaped(high: nat, low: nat, upperHigh: bool, upperLow: bool) {
    ghost predicate Valid() { Escaped? ==> high < 16 && low < 16 }

    function Spelling(): string
      requires Valid()
    {
      match this
      case Raw(c) => [c]
      case Escaped(high, low, upperHigh, upperLow) => ['%', HexDigit(high, upperHigh), HexDigit(low, upperLow)]
    }

    function Meaning(): char
      requires Valid()
    {
      match this
      case Raw(c) => c
      case Escaped(high, low, _, _) => (16 * high + low) as char
    }
  }

  /** Valid pieces; a percent sign written as itself is not followed by two hexadecimal digits. */
  ghost predicate Proper(pieces: seq<Piece>)
    decreases |pieces|, 0
  {
    pieces == [] ||
      (&& Proper(pieces[1..]) && pieces[0].Valid()
       && (pieces[0] == Raw('%') ==> !TwoDigits(Spelled(pieces[1..]))))
  }

  ghost predicate TwoDigits(s: string) {
    |s| >= 2 && (exists v: nat, up: bool :: v < 16 && s[0] == HexDigit(v, up))
             && (exists v: nat, up: bool :: v < 16 && s[1] == HexDigit(v, up))
  }

  function Spelled(pieces: seq<Piece>): string
    requires Proper(pieces)
    decreases |pieces|, 1
  {
    if pieces == [] then "" else pieces[0].Spelling() + Spelled(pieces[1..])
  }

  function Meant(pieces: seq<Piece>): string
    requires Proper(pieces)
    decreases |pieces|, 1
  {
    if pieces == [] then "" else [pieces[0].Meaning()] + Meant(pieces[1..])
  }

  /** `s` is a way to write `text`. */
  ghost predicate Spells(s: string, text: string) {
    exists pieces: seq<Piece> :: Proper(pieces) && Spelled(pieces) == s && Meant(pieces) == text
  }

  // ---------- decoding undoes the writing ----------

  lemma DigitValue(v: nat, upper: bool)
    requires v < 16
    ensures IsHex(HexDigit(v, upper)) && HexValue(HexDigit(v, upper)) == v
  {
  }

  lemma HexIsDigit(c: char) returns (v: nat, upper: bool)
    requires IsHex(c)
    ensures v < 16 && c == HexDigit(v, upper)
  {
    v, upper := HexValue(c), 'A' <= c <= 'F';
  }

  /** An escape with any two digits is the character of that code, followed by the decoding of the rest. */
  lemma DecodesEscape(high: nat, low: nat, upperHigh: bool, upperLow: bool, rest: string)
    requires high < 16 && low < 16
    ensures Unquote(['%', HexDigit(high, upperHigh), HexDigit(low, upperLow)] + rest) ==
            [(16 * high + low) as char] + Unquote(rest)
  {
    var s := ['%', HexDigit(high, upperHigh), HexDigit(low, upperLow)] + rest;
    DigitValue(high, upperHigh);
    DigitValue(low, upperLow);
    assert s[3..] == rest;
  }

  /** Anything else stays, a percent sign without two digits after it included. */
  lemma OthersStay(c: char, rest: string)
    requires c == '%' ==> !TwoDigits(rest)
    ensures Unquote([c] + rest) == [c] + Unquote(rest)
  {
    var s := [c] + rest;
    assert s[1..] == rest;
    if StartsEscape(s) {
      assert s[1] == rest[0] && s[2] == rest[1];
      var v, up := HexIsDigit(rest[0]);
      var w, uq := HexIsDigit(rest[1]);
      assert false;
    }
  }

  lemma {:induction false} DecodingUndoesWriting(pieces: seq<Piece>)
    requires Proper(pieces)
    ensures Unquote(Spelled(pieces)) == Meant(pieces)
    decreases |pieces|
  {
    if pieces != [] {
      var first, rest := pieces[0], Spelled(pieces[1..]);
      DecodingUndoesWriting(pieces[1..]);
      match first
      case Raw(c) => OthersStay(c, rest);
      case Escaped(high, low, upperHigh, upperLow) => DecodesEscape(high, low, upperHigh, upperLow, rest);
    }
  }

  /** Every text is written in some way. */
  lemma {:induction false} SomeWriting(s: string) returns (pieces: seq<Piece>)
    ensures Proper(pieces) && Spelled(pieces) == s
    decreases |s|
  {
    if s == "" {
      pieces := [];
    } else if StartsEscape(s) {
      var rest := SomeWriting(s[3..]);
      pieces := EscapeWritten(s, rest);
    } else {
      var rest := SomeWriting(s[1..]);
      pieces := RawWritten(s, rest);
    }
  }

  lemma EscapeWritten(s: string, rest: seq<Piece>) returns (pieces: seq<Piece>)
    requires StartsEscape(s) && Proper(rest) && Spelled(rest) == s[3..]
    ensures Proper(pieces) && Spelled(pieces) == s
  {
    var high, upperHigh := HexIsDigit(s[1]);
    var low, upperLow := HexIsDigit(s[2]);
    pieces := [Escaped(high, low, upperHigh, upperLow)] + rest;
    assert pieces[1..] == rest && s == s[..3] + s[3..];
  }

  lemma RawWritten(s: string, rest: seq<Piece>) returns (pieces: seq<Piece>)
    requires s != "" && !StartsEscape(s) && Proper(rest) && Spelled(rest) == s[1..]
    ensures Proper(pieces) && Spelled(pieces) == s
  {
    if s[0] == '%' { NoEscapeNoDigits(s); }
    pieces := [Raw(s[0])] + rest;
    assert pieces[1..] == rest && s == [s[0]] + s[1..];
  }

  lemma NoEscapeNoDigits(s: string)
    requires s != "" && s[0] == '%' && !StartsEscape(s)
    ensures !TwoDigits(s[1..])
  {
    if TwoDigits(s[1..]) {
      var v: nat, up: bool :| v < 16 && s[1..][0] == HexDigit(v, up);
      DigitValue(v, up);
      var x: nat, uq: bool :| x < 16 && s[1..][1] == HexDigit(x, uq);
      DigitValue(x, uq);
      assert false;
    }
  }

  /** A text is written in one sense only: the one decoding finds. */
  lemma SpellsOnlyTheDecoded(s: string, text: string)
    ensures Spells(s, text) <==> text == Unquote(s)
  {
    var pieces := SomeWriting(s);
    DecodingUndoesWriting(pieces);
    if Spells(s, text) {
      var other: seq<Piece> :| Proper(other) && Spelled(other) == s && Meant(other) == text;
      DecodingUndoesWriting(other);
    }
  }

  // ---------- what the guard refuses ----------

  /** A text no segment may stand for. */
  predicate Forbidden(text: string) {
    text == "." || text == ".." || '/' in text || '\\' in text
  }

  /** Not empty, and no way to write a forbidden text, plain, escaped or mixed. */
  ghost predicate Allowed(segment: string) {
    segment != "" && forall text :: Spells(segment, text) ==> !Forbidden(text)
  }

  /** A path is accepted exactly when its route starts with a slash and each of its segments is allowed. */
  lemma AcceptedIff(path: string)
    ensures Harmless(Route(path)) <==>
            && Route(path) != "" && Route(path)[0] == '/'
            && forall i :: 0 <= i < |Segments(Route(path))| ==> Allowed(Segments(Route(path))[i])
  {
    var route := Route(path);
    if route != "" && route[0] == '/' {
      HarmlessIffPlain(route);
      AllPlainIff(Segments(route));
    }
  }

  lemma AllPlainIff(segments: seq<string>)
    ensures (forall i :: 0 <= i < |segments| ==> Plain(segments[i])) <==>
            forall i :: 0 <= i < |segments| ==> Allowed(segments[i])
  {
    forall i | 0 <= i < |segments| ensures Plain(segments[i]) <==> Allowed(segments[i]) {
      PlainIffAllowed(segments[i]);
    }
    if forall i :: 0 <= i < |segments| ==> Allowed(segments[i]) {
      forall i | 0 <= i < |segments| ensures Plain(segments[i]) {
        assert Allowed(segments[i]);
      }
    }
    if forall i :: 0 <= i < |segments| ==> Plain(segments[i]) {
      forall i | 0 <= i < |segments| ensures Allowed(segments[i]) {
        assert Plain(segments[i]);
      }
    }
  }

  lemma PlainIffAllowed(segment: string)
    ensures Plain(segment) <==> Allowed(segment)
  {
    forall text ensures Spells(segment, text) <==> text == Unquote(segment) {
      SpellsOnlyTheDecoded(segment, text);
    }
    assert Spells(segment, Unquote(segment));
  }

  /** Whatever comes before and after it, a segment that is a way to write a forbidden text has its path
      refused, and so does an empty one. */
  lemma ForbiddenIsRefused(before: string, pieces: seq<Piece>, after: string)
    requires Proper(pieces) && '/' !in Spelled(pieces) && '?' !in before && '?' !in Spelled(pieces)
    requires after == "" || after[0] in {'/', '?'}
    requires Forbidden(Meant(pieces)) || pieces == []
    ensures !Harmless(Route(before + "/" + Spelled(pieces) + after))
  {
    var segment, rest := Spelled(pieces), Route(after);
    var route := before + "/" + segment + rest;
    RouteConcat(before + "/" + segment, after);
    if route[0] == '/' {
      DecodingUndoesWriting(pieces);
      IsSegment(before, segment, rest);
      HarmlessIffPlain(route);
      var i :| 0 <= i < |Segments(route)| && Segments(route)[i] == segment;
      assert !Plain(Segments(route)[i]);
    }
  }

  method RefusesForbidden(before: string, pieces: seq<Piece>, after: string) returns (ok: bool)
    requires Proper(pieces) && '/' !in Spelled(pieces) && '?' !in before && '?' !in Spelled(pieces)
    requires after == "" || after[0] in {'/', '?'}
    requires Forbidden(Meant(pieces)) || pieces == []
    ensures !ok
  {
    ForbiddenIsRefused(before, pieces, after);
    ok := Guard(before + "/" + Spelled(pieces) + after);
  }

  /** A text between two slashes is a segment. */
  lemma IsSegment(before: string, segment: string, rest: string)
    requires '/' !in segment && (rest == "" || rest[0] == '/') && (before == "" || before[0] == '/')
    ensures var route := before + "/" + segment + rest;
            route[0] == '/' && exists i :: 0 <= i < |Segments(route)| && Segments(route)[i] == segment
  {
    if before == "" {
      SegmentAtStart(segment, rest, before + "/" + segment + rest);
    } else {
      LaterSegment(before, segment, rest, segment + rest, before + "/" + segment + rest);
    }
  }

  lemma SegmentAtStart(segment: string, rest: string, route: string)
    requires '/' !in segment && (rest == "" || rest[0] == '/') && route == "" + "/" + segment + rest
    ensures route[0] == '/' && exists i :: 0 <= i < |Segments(route)| && Segments(route)[i] == segment
  {
    FirstPiece(segment, rest);
    assert route[1..] == segment + rest;
    assert Segments(route)[0] == segment;
  }

  lemma LaterSegment(before: string, segment: string, rest: string, tail: string, route: string)
    requires '/' !in segment && (rest == "" || rest[0] == '/') && before != "" && before[0] == '/'
    requires tail == segment + rest && route == before + "/" + segment + rest
    ensures route[0] == '/' && exists i :: 0 <= i < |Segments(route)| && Segments(route)[i] == segment
  {
    FirstPiece(segment, rest);
    RouteAfterSlash(before, segment, rest, tail);
    var i := PieceAfter(before[1..], segment, tail);
    assert Segments(route)[i] == segment;
  }

  lemma RouteAfterSlash(before: string, segment: string, rest: string, tail: string)
    requires before != "" && tail == segment + rest
    ensures (before + "/" + segment + rest)[1..] == before[1..] + "/" + tail
  {
  }

  lemma PieceAfter(head: string, segment: string, tail: string) returns (i: nat)
    requires Split(tail, '/')[0] == segment
    ensures i < |Split(head + "/" + tail, '/')| && Split(head + "/" + tail, '/')[i] == segment
  {
    PiecesAt(head, tail);
    i := |Split(head, '/')|;
    assert (Split(head, '/') + Split(tail, '/'))[|Split(head, '/')|] == segment;
  }

  lemma FirstPiece(segment: string, rest: string)
    requires '/' !in segment && (rest == "" || rest[0] == '/')
    ensures Split(segment + rest, '/')[0] == segment
  {
    if rest == "" {
      assert segment + rest == segment;
      PiecesOf(segment);
    } else {
      assert segment + rest == segment + "/" + rest[1..];
      SplitFirst(segment, rest[1..]);
    }
  }

  // ---------- the query ----------

  lemma {:induction false} IndexPast(a: string, b: string, c: char)
    requires c !in a
    ensures IndexOf(a + b, c) == |a| + IndexOf(b, c)
  {
    if a == "" {
      assert a + b == b;
    } else {
      IndexPast(a[1..], b, c);
      assert (a + b)[1..] == a[1..] + b && (a + b)[0] == a[0];
    }
  }

  lemma RouteConcat(a: string, b: string)
    requires '?' !in a
    ensures Route(a + b) == a + Route(b)
  {
    IndexPast(a, b, '?');
    assert (a + b)[..|a| + IndexOf(b, '?')] == a + b[..IndexOf(b, '?')];
  }

  /** The query is not part of what is judged, and nothing else is left out. */
  lemma QueryIsNotJudged(path: string, query: string)
    ensures Route(path + "?" + query) == Route(path)
    ensures '?' !in path ==> Route(path) == path
  {
    var i := IndexOf(path, '?');
    CutAtQuery(path[..i], path[i..], query, path, path + "?" + query);
  }

  lemma CutAtQuery(route: string, rest: string, query: string, path: string, long: string)
    requires '?' !in route && (rest == "" || rest[0] == '?') && path == route + rest && long == path + "?" + query
    ensures Route(long) == Route(path) == route
  {
    assert long == route + (rest + "?" + query);
    RouteConcat(route, rest);
    RouteConcat(route, rest + "?" + query);
    StartsAtQuery(rest);
    StartsAtQuery(rest + "?" + query);
  }

  lemma StartsAtQuery(s: string)
    ensures s == "" || s[0] == '?' ==> Route(s) == ""
  {
  }

  /** So the guard answers the same with any query. */
  method AnswersWithQuery(path: string, query: string) returns (plain: bool, queried: bool)
    ensures plain == queried
  {
    QueryIsNotJudged(path, query);
    plain := Guard(path);
    queried := Guard(path + "?" + query);
  }
}

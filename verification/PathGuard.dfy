/** The guard on request paths, against dot-segment removal (section 5.2.4 of RFC 3986) and
    percent-decoding. Percent-decoding yields bytes; a decoded byte is the character of that code, and
    bytes from 128 on are never a dot, a slash or a backslash. */
module PathGuard {
  import opened Text

  // ---------- percent-decoding ----------

  predicate IsHex(c: char) { '0' <= c <= '9' || 'a' <= c <= 'f' || 'A' <= c <= 'F' }

  function HexValue(c: char): (v: nat)
    requires IsHex(c)
    ensures v < 16
  {
    if '0' <= c <= '9' then (c as int) - ('0' as int)
    else if 'a' <= c <= 'f' then (c as int) - ('a' as int) + 10
    else (c as int) - ('A' as int) + 10
  }

  predicate StartsEscape(s: string) { |s| >= 3 && s[0] == '%' && IsHex(s[1]) && IsHex(s[2]) }

  /** `unquote`: an escape becomes its byte, a stray percent sign stays. */
  function Unquote(s: string): string {
    if s == "" then ""
    else if StartsEscape(s) then [(16 * HexValue(s[1]) + HexValue(s[2])) as char] + Unquote(s[3..])
    else [s[0]] + Unquote(s[1..])
  }

  /** Empty, or starting at a slash. */
  ghost predicate Tail(rest: string) { rest == "" || rest[0] == '/' }

  /** An escape cannot reach over a slash. */
  lemma {:induction false} UnquoteTail(a: string, rest: string)
    requires Tail(rest)
    ensures Unquote(a + rest) == Unquote(a) + Unquote(rest)
  {
    if a == "" {
      assert a + rest == rest;
    } else if StartsEscape(a) {
      EscapeInFront(a, rest);
      UnquoteTail(a[3..], rest);
    } else {
      NoEscapeInFront(a, rest);
      UnquoteTail(a[1..], rest);
    }
  }

  lemma EscapeInFront(a: string, rest: string)
    requires StartsEscape(a)
    ensures StartsEscape(a + rest) && (a + rest)[..3] == a[..3] && (a + rest)[3..] == a[3..] + rest
  {
  }

  lemma NoEscapeInFront(a: string, rest: string)
    requires a != "" && !StartsEscape(a) && Tail(rest)
    ensures !StartsEscape(a + rest) && (a + rest)[0] == a[0] && (a + rest)[1..] == a[1..] + rest
  {
  }

  // ---------- paths and segments ----------

  /** The path with these segments: a slash before each. */
  function Path(segments: seq<string>): string {
    if segments == [] then "" else "/" + segments[0] + Path(segments[1..])
  }

  function Decoded(segments: seq<string>): seq<string> {
    seq(|segments|, i requires 0 <= i < |segments| => Unquote(segments[i]))
  }

  /** What precedes the query. */
  function Route(path: string): string { path[..IndexOf(path, '?')] }

  lemma PathCons(first: string, rest: seq<string>)
    ensures Path([first] + rest) == "/" + first + Path(rest)
    ensures Tail(Path(rest))
  {
    assert ([first] + rest)[1..] == rest;
  }

  /** A text cut at its first slash. */
  lemma Cut(s: string) returns (x: string, y: string)
    requires '/' in s
    ensures |y| < |s| && s == x + "/" + y && '/' !in x && Split(s, '/') == [x] + Split(y, '/')
  {
    x, y := SplitAtFirst(s, '/');
  }

  lemma {:induction false} SplitPath(s: string)
    ensures Path(Split(s, '/')) == "/" + s
    decreases |s|
  {
    if '/' in s {
      var x, y := Cut(s);
      SplitPath(y);
      PathAfterCut(s, x, y);
    } else {
      PathCons(s, []);
      assert [s] + [] == [s];
    }
  }

  lemma PathAfterCut(s: string, x: string, y: string)
    requires s == x + "/" + y && Split(s, '/') == [x] + Split(y, '/') && Path(Split(y, '/')) == "/" + y
    ensures Path(Split(s, '/')) == "/" + s
  {
    PathCons(x, Split(y, '/'));
    AppendAssociates("/" + x, "/", y);
    SlashBefore(x, y, s);
  }

  lemma SlashBefore(x: string, y: string, s: string)
    requires s == x + "/" + y
    ensures "/" + x + "/" + y == "/" + s
  {
  }

  lemma {:induction false} UnquotePath(segments: seq<string>)
    ensures Unquote(Path(segments)) == Path(Decoded(segments))
  {
    if segments != [] {
      var first, rest := segments[0], segments[1..];
      UnquotePath(rest);
      PathCons(first, rest);
      assert segments == [first] + rest && Decoded(segments) == [Unquote(first)] + Decoded(rest);
      PathCons(Unquote(first), Decoded(rest));
      var tail := first + Path(rest);
      assert Path(segments) == "/" + tail && ("/" + tail)[1..] == tail;
      assert Unquote("/" + tail) == "/" + Unquote(tail);
      UnquoteTail(first, Path(rest));
    }
  }

  // ---------- dot-segment removal ----------

  predicate IsDot(segment: string) { segment == "." || segment == ".." }

  /** The output without its last segment and the slash before it. */
  function DropLast(output: string): (r: string)
    ensures |r| <= |output|
  {
    if output == "" then ""
    else if output[|output| - 1] == '/' then output[..|output| - 1]
    else DropLast(output[..|output| - 1])
  }

  /** Length of the first segment with its leading slash, if it has one. */
  function FirstSegment(input: string): (n: nat)
    requires input != ""
    ensures 0 < n <= |input|
  {
    if input[0] == '/' then 1 + IndexOf(input[1..], '/')
    else
      IndexOf(input, '/')
  }

  /** The five rules, in the order of the standard. */
  function RemoveDots(input: string, output: string): string
    decreases |input|
  {
    if input == "" then output
    else if StartsWith(input, "../") then RemoveDots(input[3..], output)
    else if StartsWith(input, "./") then RemoveDots(input[2..], output)
    else if StartsWith(input, "/./") then RemoveDots(input[2..], output)
    else if input == "/." then RemoveDots("/", output)
    else if StartsWith(input, "/../") then RemoveDots(input[3..], DropLast(output))
    else if input == "/.." then RemoveDots("/", DropLast(output))
    else if IsDot(input) then output
    else RemoveDots(input[FirstSegment(input)..], output + input[..FirstSegment(input)])
  }

  ghost predicate SlashFree(segments: seq<string>) {
    forall i :: 0 <= i < |segments| ==> '/' !in segments[i]
  }

  ghost predicate HasDot(segments: seq<string>) {
    exists i :: 0 <= i < |segments| && IsDot(segments[i])
  }

  lemma IndexOfTail(first: string, rest: string)
    requires '/' !in first && Tail(rest)
    ensures IndexOf(first + rest, '/') == |first|
  {
    if rest == "" {
      assert first + rest == first;
    } else {
      IndexOfAfter(first, '/', rest[1..]);
      RestAfterSlash(first, rest);
    }
  }

  lemma RestAfterSlash(first: string, rest: string)
    requires rest != "" && rest[0] == '/'
    ensures first + ['/'] + rest[1..] == first + rest
  {
  }

  /** Rule E: a segment that is no dot segment moves to the output. */
  lemma PlainStep(first: string, rest: string, output: string)
    requires '/' !in first && !IsDot(first) && Tail(rest)
    ensures RemoveDots("/" + first + rest, output) == RemoveDots(rest, output + ("/" + first))
  {
    var p := "/" + first + rest;
    NoDotRule(first, rest, p);
    IndexOfTail(first, rest);
    assert p[1..] == first + rest;
    assert FirstSegment(p) == 1 + |first|;
    assert p[..1 + |first|] == "/" + first && p[1 + |first|..] == rest;
  }

  lemma NoDotRule(first: string, rest: string, p: string)
    requires '/' !in first && !IsDot(first) && Tail(rest) && p == "/" + first + rest
    ensures !StartsWith(p, "../") && !StartsWith(p, "./") && !StartsWith(p, "/./") && p != "/."
    ensures !StartsWith(p, "/../") && p != "/.." && !IsDot(p)
  {
    var q := first + rest;
    assert p == "/" + q;
    OtherSegment(first, rest, ".");
    OtherSegment(first, rest, "..");
    StartsAfterSlash(q, ".");
    StartsAfterSlash(q, "..");
    assert "/" + "." == "/." && "/" + ".." == "/..";
    NoRelativeRule(p);
  }

  /** Rules A and D need a text that does not start with a slash. */
  lemma NoRelativeRule(p: string)
    requires p != "" && p[0] == '/'
    ensures !StartsWith(p, "../") && !StartsWith(p, "./") && !IsDot(p)
  {
    OtherStart(p, "../", 0);
    OtherStart(p, "./", 0);
  }

  lemma OtherStart(p: string, prefix: string, i: nat)
    requires i < |p| && i < |prefix| && p[i] != prefix[i]
    ensures !StartsWith(p, prefix)
  {
  }

  /** A text that begins with another segment neither is `dot` nor continues it with a slash. */
  lemma OtherSegment(first: string, rest: string, dot: string)
    requires '/' !in first && '/' !in dot && first != dot && Tail(rest)
    ensures !StartsWith(first + rest, dot + "/") && first + rest != dot
  {
    var q := first + rest;
    IndexOfTail(first, rest);
    SlashAfter(q, dot);
    assert q[..|first|] == first;
  }

  lemma StartsAfterSlash(q: string, dot: string)
    requires !StartsWith(q, dot + "/") && q != dot
    ensures !StartsWith("/" + q, "/" + dot + "/") && "/" + q != "/" + dot
  {
    var p := "/" + q;
    assert p[1..] == q && ("/" + dot)[1..] == dot;
    assert "/" + dot + "/" == "/" + (dot + "/");
    StartsLater(q, dot + "/");
  }

  lemma StartsLater(q: string, prefix: string)
    ensures StartsWith("/" + q, "/" + prefix) ==> StartsWith(q, prefix)
  {
    var n := |prefix|;
    if StartsWith("/" + q, "/" + prefix) {
      assert q[..n] == ("/" + q)[..n + 1][1..];
      assert ("/" + prefix)[1..] == prefix;
    }
  }

  /** Where the first slash is when the text starts with, or is, a segment. */
  lemma SlashAfter(q: string, dot: string)
    requires '/' !in dot
    ensures StartsWith(q, dot + "/") || q == dot ==> IndexOf(q, '/') == |dot| && q[..|dot|] == dot
  {
    if StartsWith(q, dot + "/") {
      IndexOfAfter(dot, '/', q[|dot| + 1..]);
      assert q == q[..|dot| + 1] + q[|dot| + 1..];
      assert q[..|dot|] == (dot + "/")[..|dot|];
    }
  }

  /** Rule B: a dot segment disappears. */
  lemma DotStep(rest: string, output: string)
    requires Tail(rest)
    ensures RemoveDots("/." + rest, output) == RemoveDots(if rest == "" then "/" else rest, output)
  {
    var p := "/." + rest;
    NoRelativeRule(p);
    if rest == "" {
      assert p == "/.";
    } else {
      assert p[..3] == "/./" && p[2..] == rest;
    }
  }

  /** Rule C: two dots take the last output segment with them. */
  lemma DotDotStep(rest: string, output: string)
    requires Tail(rest)
    ensures RemoveDots("/.." + rest, output) == RemoveDots(if rest == "" then "/" else rest, DropLast(output))
  {
    var q := "/.." + rest;
    NoRelativeRule(q);
    OtherStart(q, "/./", 2);
    assert |q| >= 3;
    if rest == "" {
      assert q == "/..";
    } else {
      assert q[..4] == "/../" && q[3..] == rest;
    }
  }

  lemma SlashAlone(output: string)
    ensures RemoveDots("/", output) == output + "/"
  {
    PlainStep("", "", output);
    assert "/" + "" + "" == "/" && "/" + "" == "/";
  }

  /** Removal leaves a path without dot segments alone and makes any other shorter. */
  lemma {:induction false} RemovalIff(segments: seq<string>, output: string)
    requires SlashFree(segments)
    ensures !HasDot(segments) ==> RemoveDots(Path(segments), output) == output + Path(segments)
    ensures |RemoveDots(Path(segments), output)| <= |output| + |Path(segments)|
    ensures HasDot(segments) ==> |RemoveDots(Path(segments), output)| < |output| + |Path(segments)|
    decreases |segments|
  {
    if segments != [] {
      var first, rest := segments[0], segments[1..];
      assert segments == [first] + rest;
      PathCons(first, rest);
      if IsDot(first) {
        RemovalAtDot(first, rest, output);
        var next := if first == "." then output else DropLast(output);
        RemovalIff(rest, next);
      } else {
        PlainStep(first, Path(rest), output);
        RemovalIff(rest, output + ("/" + first));
        LaterDot(segments);
      }
    }
  }

  lemma RemovalAtDot(first: string, rest: seq<string>, output: string)
    requires IsDot(first)
    ensures var next := if first == "." then output else DropLast(output);
            RemoveDots("/" + first + Path(rest), output) ==
            if rest == [] then next + "/" else RemoveDots(Path(rest), next)
  {
    PathCons(first, rest);
    DotStep(Path(rest), output);
    DotDotStep(Path(rest), output);
    SlashAlone(output);
    SlashAlone(DropLast(output));
    assert "/" + "." == "/." && "/" + ".." == "/..";
  }

  lemma LaterDot(segments: seq<string>)
    requires segments != [] && !IsDot(segments[0])
    ensures HasDot(segments) <==> HasDot(segments[1..])
  {
    if HasDot(segments) {
      var i :| 0 <= i < |segments| && IsDot(segments[i]);
      assert IsDot(segments[1..][i - 1]);
    }
    if HasDot(segments[1..]) {
      var i :| 0 <= i < |segments| - 1 && IsDot(segments[1..][i]);
      assert IsDot(segments[i + 1]);
    }
  }

  /** Walking the segments with a stack: a dot is passed over, two dots take the last one off, and a path that
      ends in either ends in a slash. */
  function Resolved(segments: seq<string>, stack: seq<string>): seq<string>
    decreases |segments|
  {
    if segments == [] then stack
    else if IsDot(segments[0]) then
      var left := if segments[0] == "." || stack == [] then stack else stack[..|stack| - 1];
      if |segments| == 1 then left + [""] else Resolved(segments[1..], left)
    else Resolved(segments[1..], stack + [segments[0]])
  }

  /** What the algorithm makes of any path: the path of its resolved segments. */
  lemma {:induction false} RemovalResolves(segments: seq<string>, stack: seq<string>)
    requires SlashFree(segments) && SlashFree(stack)
    ensures RemoveDots(Path(segments), Path(stack)) == Path(Resolved(segments, stack))
    decreases |segments|
  {
    if segments != [] {
      var first, rest := segments[0], segments[1..];
      assert segments == [first] + rest;
      PathCons(first, rest);
      if IsDot(first) {
        var left := if first == "." || stack == [] then stack else stack[..|stack| - 1];
        if rest != [] { RemovalResolves(rest, left); }
        ResolvesAtDot(segments, first, rest, stack, left);
      } else {
        RemovalResolves(rest, stack + [first]);
        ResolvesAtPlain(segments, first, rest, stack);
      }
    }
  }

  lemma ResolvesAtDot(segments: seq<string>, first: string, rest: seq<string>, stack: seq<string>, left: seq<string>)
    requires segments == [first] + rest && SlashFree(stack) && IsDot(first)
    requires left == if first == "." || stack == [] then stack else stack[..|stack| - 1]
    requires rest != [] ==> RemoveDots(Path(rest), Path(left)) == Path(Resolved(rest, left))
    ensures RemoveDots(Path(segments), Path(stack)) == Path(Resolved(segments, stack))
  {
    PathCons(first, rest);
    RemovalAtDot(first, rest, Path(stack));
    PopPath(stack);
    PathSnoc(left, "");
    assert Path(left) + "/" + "" == Path(left) + "/";
    assert segments[1..] == rest;
  }

  lemma ResolvesAtPlain(segments: seq<string>, first: string, rest: seq<string>, stack: seq<string>)
    requires segments == [first] + rest && '/' !in first && !IsDot(first)
    requires RemoveDots(Path(rest), Path(stack + [first])) == Path(Resolved(rest, stack + [first]))
    ensures RemoveDots(Path(segments), Path(stack)) == Path(Resolved(segments, stack))
  {
    PathCons(first, rest);
    PlainStep(first, Path(rest), Path(stack));
    PathSnoc(stack, first);
    AppendAssociates(Path(stack), "/", first);
    assert segments[1..] == rest;
  }

  lemma {:induction false} PathSnoc(segments: seq<string>, last: string)
    ensures Path(segments + [last]) == Path(segments) + "/" + last
  {
    if segments == [] {
      PathCons(last, []);
      assert [] + [last] == [last] + [];
    } else {
      var first, rest := segments[0], segments[1..];
      PathSnoc(rest, last);
      assert segments == [first] + rest && segments + [last] == [first] + (rest + [last]);
      PathCons(first, rest);
      PathCons(first, rest + [last]);
    }
  }

  lemma PopPath(stack: seq<string>)
    requires SlashFree(stack)
    ensures DropLast(Path(stack)) == Path(if stack == [] then [] else stack[..|stack| - 1])
  {
    if stack != [] {
      var n := |stack| - 1;
      assert stack == stack[..n] + [stack[n]];
      PathSnoc(stack[..n], stack[n]);
      DropSegment(Path(stack[..n]), stack[n]);
    }
  }

  lemma {:induction false} DropSegment(output: string, segment: string)
    requires '/' !in segment
    ensures DropLast(output + "/" + segment) == output
    decreases |segment|
  {
    var whole := output + "/" + segment;
    if segment != "" {
      var n := |segment| - 1;
      assert whole[..|whole| - 1] == output + "/" + segment[..n];
      DropSegment(output, segment[..n]);
    } else {
      assert whole[..|whole| - 1] == output;
    }
  }

  /** Text before the first slash: rules A and D drop leading dots. */
  lemma RelativeDots(rest: string, output: string)
    ensures RemoveDots("../" + rest, output) == RemoveDots("./" + rest, output) == RemoveDots(rest, output)
    ensures RemoveDots(".", output) == RemoveDots("..", output) == output
  {
    assert ("../" + rest)[3..] == rest && ("../" + rest)[..3] == "../";
    assert ("./" + rest)[2..] == rest && ("./" + rest)[..2] == "./";
    OtherStart("./" + rest, "../", 1);
    LoneDots(output);
  }

  lemma LoneDots(output: string)
    ensures RemoveDots(".", output) == RemoveDots("..", output) == output
  {
    OtherStart("..", "./", 1);
    OtherStart(".", "/./", 0);
    OtherStart("..", "/./", 0);
    OtherStart(".", "/../", 0);
    OtherStart("..", "/../", 0);
    assert "."[0] == '.' && ".."[0] == '.';
  }

  // ---------- the guard ----------

  /** A segment the guard lets through. */
  predicate Plain(segment: string) {
    var d := Unquote(segment);
    segment != "" && !IsDot(d) && '/' !in d && '\\' !in d
  }

  /** The segments of a route that starts with a slash. */
  function Segments(route: string): (segments: seq<string>)
    requires route != "" && route[0] == '/'
    ensures SlashFree(segments) && segments != []
  {
    Split(route[1..], '/')
  }

  /** What the guard is for, said without its loop: the route starts with a slash and has no empty
      segment; decoding all of it at once makes no new segment and no backslash; and dot-segment removal
      leaves the decoded route as it is. */
  ghost predicate Harmless(route: string) {
    && route != "" && route[0] == '/'
    && (forall i :: 0 <= i < |Segments(route)| ==> Segments(route)[i] != "")
    && Unquote(route)[0] == '/' && |Segments(Unquote(route))| == |Segments(route)|
    && '\\' !in Unquote(route)
    && RemoveDots(Unquote(route), "") == Unquote(route)
  }

  /** False is `UnsafeRequestPath`. */
  method Guard(path: string) returns (ok: bool)
    ensures ok <==> Harmless(Route(path))
  {
    var route := Route(path);
    if route == "" || route[0] != '/' {
      return false;
    }
    HarmlessIffPlain(route);
    ok := AllPlain(Segments(route));
  }

  method AllPlain(segments: seq<string>) returns (ok: bool)
    ensures ok <==> forall i :: 0 <= i < |segments| ==> Plain(segments[i])
  {
    for i := 0 to |segments|
      invariant forall j :: 0 <= j < i ==> Plain(segments[j])
    {
      var decoded := Unquote(segments[i]);
      if segments[i] == "" || IsDot(decoded) || '/' in decoded || '\\' in decoded {
        assert !Plain(segments[i]);
        return false;
      }
    }
    return true;
  }

  /** The number of pieces, and the pieces themselves when no decoded segment has a slash. */
  lemma DecodedSegments(route: string)
    requires route != "" && route[0] == '/'
    ensures Unquote(route) == Path(Decoded(Segments(route))) && Unquote(route)[0] == '/'
    ensures SlashFree(Decoded(Segments(route))) ==> Segments(Unquote(route)) == Decoded(Segments(route))
    ensures !SlashFree(Decoded(Segments(route))) ==> |Segments(Unquote(route))| > |Segments(route)|
  {
    var s := Segments(route);
    assert route == "/" + route[1..];
    SplitPath(route[1..]);
    UnquotePath(s);
    PiecesOfPath(Decoded(s));
  }

  lemma {:induction false} PiecesOfPath(segments: seq<string>)
    requires segments != []
    ensures Path(segments) != "" && Path(segments)[0] == '/'
    ensures |Segments(Path(segments))| >= |segments|
    ensures SlashFree(segments) ==> Segments(Path(segments)) == segments
    ensures !SlashFree(segments) ==> |Segments(Path(segments))| > |segments|
  {
    var first, rest := segments[0], segments[1..];
    assert segments == [first] + rest;
    PathCons(first, rest);
    assert Path(segments)[1..] == first + Path(rest);
    if rest == [] {
      assert first + Path(rest) == first;
      PiecesOf(first);
    } else {
      PiecesOfPath(rest);
      var r := Path(rest)[1..];
      assert first + Path(rest) == first + "/" + r;
      PiecesAt(first, r);
      PiecesOf(first);
    }
  }

  lemma {:induction false} PiecesOf(s: string)
    ensures '/' !in s ==> Split(s, '/') == [s]
    ensures '/' in s ==> |Split(s, '/')| > 1
  {
  }

  lemma SplitFirst(a: string, b: string)
    requires '/' !in a
    ensures Split(a + "/" + b, '/') == [a] + Split(b, '/')
  {
    var s := a + ['/'] + b;
    IndexOfAfter(a, '/', b);
    assert s[..|a|] == a && s[|a| + 1..] == b;
    assert s == a + "/" + b;
  }

  /** Splitting around a slash. */
  lemma {:induction false} PiecesAt(a: string, b: string)
    ensures Split(a + "/" + b, '/') == Split(a, '/') + Split(b, '/')
    decreases |a|
  {
    if '/' !in a {
      PiecesOf(a);
      SplitFirst(a, b);
    } else {
      var x, y := Cut(a);
      PiecesAt(y, b);
      PiecesAfterCut(a, x, y, b);
    }
  }

  lemma PiecesAfterCut(a: string, x: string, y: string, b: string)
    requires a == x + "/" + y && '/' !in x && Split(a, '/') == [x] + Split(y, '/')
    requires Split(y + "/" + b, '/') == Split(y, '/') + Split(b, '/')
    ensures Split(a + "/" + b, '/') == Split(a, '/') + Split(b, '/')
  {
    var z := y + "/" + b;
    SplitFirst(x, z);
    Reassociate(x, y, b);
    assert Split(a + "/" + b, '/') == [x] + Split(z, '/');
    AppendAssociates([x], Split(y, '/'), Split(b, '/'));
  }

  lemma Reassociate(x: string, y: string, b: string)
    ensures x + "/" + y + "/" + b == x + "/" + (y + "/" + b)
  {
  }

  lemma InPath(segments: seq<string>, c: char)
    requires c != '/'
    ensures c in Path(segments) <==> exists i :: 0 <= i < |segments| && c in segments[i]
  {
    if segments != [] {
      var first, rest := segments[0], segments[1..];
      InPath(rest, c);
      PathCons(first, rest);
      assert segments == [first] + rest;
      assert c in Path(segments) <==> c in first || c in Path(rest);
      if c in Path(rest) {
        var i :| 0 <= i < |rest| && c in rest[i];
        assert c in segments[i + 1];
      }
    }
  }

  /** The loop's condition and the purpose are the same, for every route. */
  lemma HarmlessIffPlain(route: string)
    requires route != "" && route[0] == '/'
    ensures Harmless(route) <==> forall i :: 0 <= i < |Segments(route)| ==> Plain(Segments(route)[i])
  {
    var s := Segments(route);
    var d := Decoded(s);
    DecodedSegments(route);
    PlainIff(s, d);
    if SlashFree(d) {
      RemovalIff(d, "");
      assert "" + Path(d) == Path(d);
    }
  }

  lemma PlainIff(s: seq<string>, d: seq<string>)
    requires d == Decoded(s)
    ensures (forall i :: 0 <= i < |s| ==> Plain(s[i])) <==>
            (forall i :: 0 <= i < |s| ==> s[i] != "") && SlashFree(d) && !HasDot(d) && '\\' !in Path(d)
  {
    InPath(d, '\\');
    assert forall i :: 0 <= i < |s| ==> d[i] == Unquote(s[i]);
  }

  lemma UnquoteDot(segment: string)
    ensures IsDot(segment) ==> Unquote(segment) == segment
  {
    assert "."[1..] == "" && ".."[1..] == ".";
    assert Unquote(".") == "." && Unquote("..") == "." + Unquote(".");
  }

  /** On every accepted path dot-segment removal leaves the route as it is, and after decoding each
      segment once, it still does, with the same segments. */
  lemma AcceptedPathsAreStable(path: string)
    requires Harmless(Route(path))
    ensures var route := Route(path);
            && RemoveDots(route, "") == route
            && RemoveDots(Unquote(route), "") == Unquote(route)
            && Segments(Unquote(route)) == Decoded(Segments(route))
  {
    var route := Route(path);
    var s := Segments(route);
    HarmlessIffPlain(route);
    DecodedSegments(route);
    SplitPath(route[1..]);
    assert route == "/" + route[1..];
    forall i | 0 <= i < |s| ensures !IsDot(s[i]) && '/' !in Unquote(s[i]) {
      UnquoteDot(s[i]);
      assert Plain(s[i]);
    }
    RemovalIff(s, "");
    assert "" + Path(s) == Path(s);
  }
}

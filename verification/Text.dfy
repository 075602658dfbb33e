/** Plain text helpers: splitting and joining on a character, and decimal numerals. */
module Text {

  datatype Option<+T> = None | Some(value: T)

  predicate StartsWith(s: string, prefix: string) {
    |prefix| <= |s| && s[..|prefix|] == prefix
  }

  // ---------- split and join ----------

  function IndexOf(s: string, c: char): (i: nat)
    ensures i <= |s|
    ensures i < |s| ==> s[i] == c
    ensures c !in s[..i]
    ensures c !in s ==> i == |s|
  {
    if s == [] || s[0] == c then 0
    else
      var i := 1 + IndexOf(s[1..], c);
      assert s[..i] == [s[0]] + s[1..][..i - 1];
      i
  }

  /** `s.split(c)`: one piece more than there are separators. */
  function Split(s: string, c: char): (parts: seq<string>)
    ensures parts != []
    ensures forall p :: p in parts ==> c !in p
    decreases |s|
  {
    var i := IndexOf(s, c);
    if i == |s| then [s] else [s[..i]] + Split(s[i + 1..], c)
  }

  /** `c.join(parts)`. */
  function Join(parts: seq<string>, c: char): string {
    if parts == [] then ""
    else if |parts| == 1 then parts[0]
    else parts[0] + [c] + Join(parts[1..], c)
  }

  lemma JoinCons(p: string, q: seq<string>, c: char)
    requires q != []
    ensures Join([p] + q, c) == p + [c] + Join(q, c)
  {
    assert ([p] + q)[1..] == q;
  }

  lemma {:induction false} JoinSplit(s: string, c: char)
    ensures Join(Split(s, c), c) == s
    decreases |s|
  {
    if c in s {
      var before, after := SplitAtFirst(s, c);
      JoinSplit(after, c);
      JoinCons(before, Split(after, c), c);
    }
  }

  /** A text cut at its first separator. */
  lemma SplitAtFirst(s: string, c: char) returns (before: string, after: string)
    requires c in s
    ensures |after| < |s| && s == before + [c] + after && c !in before
    ensures Split(s, c) == [before] + Split(after, c)
  {
    var i := IndexOf(s, c);
    before, after := s[..i], s[i + 1..];
    CutAt(s, i, i + 1);
  }

  lemma CutAt<T>(s: seq<T>, i: nat, after: nat)
    requires i < |s| && after == i + 1
    ensures s == s[..i] + [s[i]] + s[after..]
  {
  }

  lemma HeadAndTail<T>(a: seq<T>, b: seq<T>)
    requires a != []
    ensures a + b != [] && (a + b)[0] == a[0] && (a + b)[1..] == a[1..] + b
  {
  }

  lemma AppendAssociates<T>(a: seq<T>, b: seq<T>, c: seq<T>)
    ensures a + (b + c) == a + b + c
  {
  }

  lemma {:induction false} IndexOfAfter(p: string, c: char, rest: string)
    requires c !in p
    ensures IndexOf(p + [c] + rest, c) == |p|
  {
    if p != "" {
      IndexOfAfter(p[1..], c, rest);
      assert (p + [c] + rest)[1..] == p[1..] + [c] + rest;
    }
  }

  lemma {:induction false} SplitJoin(parts: seq<string>, c: char)
    requires parts != [] && forall p :: p in parts ==> c !in p
    ensures Split(Join(parts, c), c) == parts
  {
    var s := Join(parts, c);
    if |parts| == 1 {
      assert c !in s;
    } else {
      var rest := Join(parts[1..], c);
      IndexOfAfter(parts[0], c, rest);
      SplitJoin(parts[1..], c);
      assert s[|parts[0]| + 1..] == rest && s[..|parts[0]|] == parts[0];
    }
  }

  // ---------- decimal numerals ----------

  function Digit(n: nat): char
    requires n < 10
  {
    "0123456789"[n]
  }

  predicate IsDigit(c: char) {
    '0' <= c <= '9'
  }

  function Decimal(n: nat): (s: string)
    ensures s != "" && AllDigits(s)
  {
    if n < 10 then [Digit(n)] else Decimal(n / 10) + [Digit(n % 10)]
  }

  ghost predicate AllDigits(s: string) {
    forall i :: 0 <= i < |s| ==> IsDigit(s[i])
  }

  function DigitsValue(s: string): nat
    requires AllDigits(s)
  {
    if s == "" then 0
    else
      var c := s[|s| - 1];
      assert IsDigit(c);
      10 * DigitsValue(s[..|s| - 1]) + (c as int - '0' as int)
  }

  predicate IsSpace(c: char) {
    c == ' ' || '\t' <= c <= '\r'
  }

  lemma BlankCharacters(c: char)
    ensures IsSpace(c) <==> c in {' ', '\t', '\n', '\U{B}', '\U{C}', '\r'}
  {
  }

  function Strip(s: string): string {
    if s != "" && IsSpace(s[0]) then Strip(s[1..])
    else if s != "" && IsSpace(s[|s| - 1]) then Strip(s[..|s| - 1])
    else s
  }

  /** Drop single underscores between digits; `None` where Python's `int` would refuse them. */
  function Ungroup(s: string): (r: Option<string>)
    ensures r.Some? ==> AllDigits(r.value)
  {
    if s == "" || !IsDigit(s[0]) then None
    else if |s| == 1 then Some(s)
    else
      match Ungroup(if s[1] == '_' then s[2..] else s[1..])
      case None => None
      case Some(t) => Some([s[0]] + t)
  }

  /** Python's `int(text)` on ASCII text: surrounding blanks, one sign, digits with single
      underscores between them; `None` is `ValueError`. */
  function ParseInt(text: string): Option<int> {
    var s := Strip(text);
    var signed := s != "" && (s[0] == '-' || s[0] == '+');
    match Ungroup(if signed then s[1..] else s)
    case None => None
    case Some(t) =>
      var v: int := DigitsValue(t);
      Some(if signed && s[0] == '-' then -v else v)
  }

  lemma {:induction false} DecimalValue(n: nat)
    ensures DigitsValue(Decimal(n)) == n
  {
    if n >= 10 {
      DecimalValue(n / 10);
      var s := Decimal(n);
      assert s[..|s| - 1] == Decimal(n / 10);
    }
  }

  lemma {:induction false} UngroupDigits(s: string)
    requires s != "" && AllDigits(s)
    ensures Ungroup(s) == Some(s)
  {
    if |s| > 1 {
      assert IsDigit(s[1]);
      UngroupDigits(s[1..]);
      assert [s[0]] + s[1..] == s;
    }
  }

  /** Reading a written number back. */
  lemma ParseDecimal(n: nat)
    ensures ParseInt(Decimal(n)) == Some(n as int)
  {
    DecimalValue(n);
    var s := Decimal(n);
    assert IsDigit(s[0]) && IsDigit(s[|s| - 1]);
    UngroupDigits(s);
  }

  ghost predicate AllBlank(s: string) {
    forall i :: 0 <= i < |s| ==> IsSpace(s[i])
  }

  lemma {:induction false} StripBlanks(before: string, core: string, after: string)
    requires AllBlank(before) && AllBlank(after)
    requires core != "" && !IsSpace(core[0]) && !IsSpace(core[|core| - 1])
    ensures Strip(before + core + after) == core
    decreases |before| + |after|
  {
    var s := before + core + after;
    if before != "" {
      StripBlanks(before[1..], core, after);
      assert s[1..] == before[1..] + core + after;
    } else if after != "" {
      var n := |after| - 1;
      StripBlanks(before, core, after[..n]);
      assert s[..|s| - 1] == before + core + after[..n];
    } else {
      assert s == core;
    }
  }

  /** A written number is read with its sign, whatever blanks surround it. */
  lemma ParseSigned(before: string, sign: string, n: nat, after: string)
    requires AllBlank(before) && AllBlank(after) && sign in {"", "+", "-"}
    ensures ParseInt(before + (sign + Decimal(n)) + after) == Some(if sign == "-" then -(n as int) else n as int)
  {
    var core := sign + Decimal(n);
    SignedEnds(sign, Decimal(n), core);
    StripBlanks(before, core, after);
    UngroupDigits(Decimal(n));
    DecimalValue(n);
    ParseStripped(before + core + after, sign, Decimal(n), n);
  }

  lemma SignedEnds(sign: string, digits: string, core: string)
    requires sign in {"", "+", "-"} && AllDigits(digits) && digits != "" && core == sign + digits
    ensures core != "" && !IsSpace(core[0]) && !IsSpace(core[|core| - 1])
  {
    assert IsDigit(digits[0]) && IsDigit(digits[|digits| - 1]);
    assert core[|core| - 1] == digits[|digits| - 1];
    assert core[0] == if sign == "" then digits[0] else sign[0];
  }

  lemma ParseStripped(text: string, sign: string, digits: string, n: nat)
    requires sign in {"", "+", "-"} && AllDigits(digits) && digits != "" && Strip(text) == sign + digits
    requires Ungroup(digits) == Some(digits) && DigitsValue(digits) == n
    ensures ParseInt(text) == Some(if sign == "-" then -(n as int) else n as int)
  {
    var s := Strip(text);
    assert IsDigit(digits[0]);
    if sign == "" {
      assert s == digits;
    } else {
      assert s[0] == sign[0] && s[1..] == digits;
    }
  }

  lemma {:induction false} UngroupedAreDigits(s: string, i: nat)
    requires Ungroup(s).Some? && i < |s|
    ensures IsDigit(s[i]) || s[i] == '_'
    decreases |s|
  {
    if |s| > 1 && i > 0 {
      if s[1] == '_' {
        if i > 1 { UngroupedAreDigits(s[2..], i - 2); }
      } else {
        UngroupedAreDigits(s[1..], i - 1);
      }
    }
  }

  lemma {:induction false} StripKeeps(s: string, c: char)
    requires c in s && !IsSpace(c)
    ensures c in Strip(s)
    decreases |s|
  {
    if IsSpace(s[0]) {
      assert c in s[1..];
      StripKeeps(s[1..], c);
    } else if IsSpace(s[|s| - 1]) {
      assert c in s[..|s| - 1];
      StripKeeps(s[..|s| - 1], c);
    }
  }

  /** A text with anything but digits, underscores, signs and blanks in it is no number. */
  lemma NoNumber(text: string, c: char)
    requires c in text && !IsSpace(c) && !IsDigit(c) && c != '_' && c != '+' && c != '-'
    ensures ParseInt(text) == None
  {
    var s := Strip(text);
    StripKeeps(text, c);
    var i :| 0 <= i < |s| && s[i] == c;
    var signed := s[0] == '-' || s[0] == '+';
    var digits := if signed then s[1..] else s;
    if Ungroup(digits).Some? {
      UngroupedAreDigits(digits, if signed then i - 1 else i);
      assert false;
    }
  }

  lemma DecimalInjective(a: nat, b: nat)
    ensures Decimal(a) == Decimal(b) ==> a == b
  {
    DecimalValue(a);
    DecimalValue(b);
  }
}

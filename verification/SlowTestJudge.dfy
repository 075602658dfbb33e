/** The slow-file guard of the destructive-schema suite: a first run judged against registered
    weights, a rerun of the few suspects, and the confirmation with the first run's runner factor.
    Seconds are reals; a weight of any sign is accepted, as in the registry. */
module SlowTestJudge {
  import opened Text
  import opened Sorting

  type Seconds = map<string, real>

  const MIN_RATIO_SAMPLE: nat := 3
  const RUNNER_FACTOR_CAP: real := 1.5
  const ABSOLUTE_SLOW_MULTIPLIER: real := 2.5
  const CONFIRM_RERUN_MAX_FILES: nat := 5
  const CONFIRM_RERUN_EXIT: int := 3
  const IMPORT_EXPANDED_MIN_SHARDS: nat := 2

  function Max(a: real, b: real): real { if a >= b then a else b }
  function Min(a: real, b: real): real { if a <= b then a else b }

  predicate RealLe(a: real, b: real) { a <= b }

  // ---------- elapsed logs ----------

  /** What `float(raw)` makes of the second column. */
  datatype Reading = NotANumber | NotFinite | Finite(sec: real)

  datatype Line = Blank | Entry(file: string, reading: Reading)

  datatype Log = Missing | Lines(lines: seq<Line>)

  predicate Good(l: Line) {
    l.Entry? ==> l.reading.Finite? && l.reading.sec >= 0.0
  }

  /** The dictionary of usable readings: a later line replaces an earlier one. */
  function Recorded(lines: seq<Line>): Seconds {
    if lines == [] then map[]
    else
      var m, l := Recorded(lines[..|lines| - 1]), lines[|lines| - 1];
      if l.Entry? && Good(l) then m[l.file := l.reading.sec] else m
  }

  /** The reading kept for a file is the one on its last usable line. */
  ghost predicate LastGood(lines: seq<Line>, f: string, i: int) {
    && 0 <= i < |lines| && lines[i].Entry? && lines[i].file == f && Good(lines[i])
    && forall j :: i < j < |lines| && lines[j].Entry? && lines[j].file == f ==> !Good(lines[j])
  }

  lemma {:induction false} RecordedIsLastGood(lines: seq<Line>, f: string)
    ensures f in Recorded(lines) <==> exists i :: LastGood(lines, f, i)
    ensures forall i :: LastGood(lines, f, i) ==> f in Recorded(lines) && Recorded(lines)[f] == lines[i].reading.sec
  {
    if lines != [] {
      var n := |lines| - 1;
      var before := lines[..n];
      RecordedIsLastGood(before, f);
      var l := lines[n];
      if l.Entry? && Good(l) && l.file == f {
        assert LastGood(lines, f, n);
      } else {
        forall i | LastGood(lines, f, i) ensures LastGood(before, f, i) {
        }
        forall i | LastGood(before, f, i) ensures LastGood(lines, f, i) {
        }
      }
    }
  }

  /** A log that may be judged: it exists, every record is finite and non-negative, there is at
      least one, and no expected file is missing from it. */
  ghost predicate Trustworthy(log: Log, expected: set<string>) {
    && log.Lines?
    && (forall i :: 0 <= i < |log.lines| ==> Good(log.lines[i]))
    && (exists i :: 0 <= i < |log.lines| && log.lines[i].Entry?)
    && (forall f :: f in expected ==> f in Recorded(log.lines))
  }

  predicate Mentions(problems: seq<string>, f: string) {
    exists i :: 0 <= i < |problems| && StartsWith(problems[i], f + ":")
  }

  method ReadElapsedStrict(log: Log, expected: seq<string>) returns (result: Seconds, problems: seq<string>)
    ensures problems == [] <==> Trustworthy(log, Elements(expected))
    ensures result == if log.Lines? then Recorded(log.lines) else map[]
  {
    if log.Missing? {
      return map[], ["no elapsed record file"];
    }
    result, problems := ReadLines(log.lines);
    EmptyRecord(log.lines);
    if result == map[] && problems == [] {
      problems := ["no lines in the elapsed record"];
    }
    ghost var read := problems;
    for k := 0 to |expected|
      invariant read != [] ==> problems != []
      invariant problems == [] <==> read == [] && forall i :: 0 <= i < k ==> expected[i] in result
    {
      if expected[k] !in result && !Mentions(problems, expected[k]) {
        problems := problems + [expected[k] + ": no elapsed record for a file that had to run"];
      }
    }
    assert forall f :: f in Elements(expected) <==> exists i :: 0 <= i < |expected| && expected[i] == f;
  }

  method ReadLines(lines: seq<Line>) returns (result: Seconds, problems: seq<string>)
    ensures result == Recorded(lines)
    ensures problems == [] <==> forall i :: 0 <= i < |lines| ==> Good(lines[i])
  {
    result, problems := map[], [];
    for k := 0 to |lines|
      invariant result == Recorded(lines[..k])
      invariant problems == [] <==> forall i :: 0 <= i < k ==> Good(lines[i])
    {
      assert lines[..k + 1][..k] == lines[..k];
      match lines[k]
      case Blank =>
      case Entry(file, NotANumber) => problems := problems + [file + ": elapsed is not a number"];
      case Entry(file, NotFinite) => problems := problems + [file + ": elapsed is not finite"];
      case Entry(file, Finite(sec)) =>
        if sec < 0.0 {
          problems := problems + [file + ": elapsed is negative"];
        } else {
          result := result[file := sec];
        }
    }
    assert lines[..|lines|] == lines;
  }

  lemma {:induction false} EmptyRecord(lines: seq<Line>)
    ensures (forall i :: 0 <= i < |lines| ==> Good(lines[i])) ==>
              (Recorded(lines) != map[] <==> exists i :: 0 <= i < |lines| && lines[i].Entry?)
  {
    if lines != [] {
      var n := |lines| - 1;
      var before, l := lines[..n], lines[n];
      EmptyRecord(before);
      assert l.Entry? && Good(l) ==> l.file in Recorded(lines);
      assert forall i :: 0 <= i < n ==> before[i] == lines[i];
    }
  }

  // ---------- the runner factor ----------

  /** `elapsed/weight` of every control file: outside `exclude`, not provisional, positive weight. */
  function ControlRatios(elapsed: Seconds, weights: Seconds, exclude: set<string>, provisional: set<string>): Seconds {
    map f | f in elapsed && f !in exclude && f !in provisional && f in weights && weights[f] > 0.0
      :: elapsed[f] / weights[f]
  }

  /** The files of `ratios` in order of their ratio. */
  ghost predicate Ranking(names: seq<string>, ratios: Seconds) {
    && NoDuplicates(names) && Elements(names) == ratios.Keys
    && forall i, j :: 0 <= i < j < |names| ==> At(ratios, names[i]) <= At(ratios, names[j])
  }

  function At(ratios: Seconds, f: string): real {
    if f in ratios then ratios[f] else 0.0
  }

  function Values(ratios: Seconds, names: seq<string>): seq<real> {
    seq(|names|, i requires 0 <= i < |names| => At(ratios, names[i]))
  }

  /** `statistics.median` of an already sorted list. */
  function MedianOfSorted(s: seq<real>): real
    requires s != []
  {
    var h := |s| / 2;
    if |s| % 2 == 1 then s[h] else (s[h - 1] + s[h]) / 2.0
  }

  function FactorOfSorted(s: seq<real>): real {
    if |s| < MIN_RATIO_SAMPLE then 1.0 else Min(Max(1.0, MedianOfSorted(s)), RUNNER_FACTOR_CAP)
  }

  /** `x` is the factor these control ratios give. */
  ghost predicate IsFactor(x: real, ratios: Seconds) {
    exists names: seq<string> :: Ranking(names, ratios) && x == FactorOfSorted(Values(ratios, names))
  }

  /** How many control files have a ratio of at most `r`. */
  ghost function AtMost(ratios: Seconds, r: real): set<string> {
    set f | f in ratios && ratios[f] <= r
  }

  lemma RankedPrefix(names: seq<string>, ratios: Seconds, k: nat, r: real)
    requires Ranking(names, ratios) && k < |names|
    ensures At(ratios, names[k]) <= r ==> |AtMost(ratios, r)| >= k + 1
    ensures At(ratios, names[k]) > r ==> |AtMost(ratios, r)| <= k
  {
    if At(ratios, names[k]) <= r {
      var low := names[..k + 1];
      DistinctCount(low);
      forall f | f in Elements(low) ensures f in AtMost(ratios, r) {
        var i :| 0 <= i < |low| && low[i] == f;
        assert names[i] == f && f in Elements(names);
        assert i == k || At(ratios, names[i]) <= At(ratios, names[k]);
      }
      SetLe(Elements(low), AtMost(ratios, r));
    } else {
      var low := names[..k];
      DistinctCount(low);
      forall f | f in AtMost(ratios, r) ensures f in Elements(low) {
        assert f in Elements(names);
        var i :| 0 <= i < |names| && names[i] == f;
        assert i < k;
        assert low[i] == f;
      }
      SetLe(AtMost(ratios, r), Elements(low));
    }
  }

  lemma {:induction false} SetLe<T>(a: set<T>, b: set<T>)
    requires a <= b
    ensures |a| <= |b|
  {
    if a != {} {
      var x :| x in a;
      SetLe(a - {x}, b - {x});
    }
  }

  /** Whatever order the control files come in, the sorted ratios are the same. */
  lemma RankingsAgree(p: seq<string>, q: seq<string>, ratios: Seconds)
    requires Ranking(p, ratios) && Ranking(q, ratios)
    ensures Values(ratios, p) == Values(ratios, q)
  {
    DistinctCount(p);
    DistinctCount(q);
    forall k | 0 <= k < |p| ensures At(ratios, p[k]) == At(ratios, q[k]) {
      RankedPrefix(p, ratios, k, At(ratios, q[k]));
      RankedPrefix(q, ratios, k, At(ratios, q[k]));
      RankedPrefix(p, ratios, k, At(ratios, p[k]));
      RankedPrefix(q, ratios, k, At(ratios, p[k]));
    }
  }

  /** There is exactly one factor. */
  lemma FactorIsUnique(x: real, y: real, ratios: Seconds)
    requires IsFactor(x, ratios) && IsFactor(y, ratios)
    ensures x == y
  {
    var p: seq<string> :| Ranking(p, ratios) && x == FactorOfSorted(Values(ratios, p));
    var q: seq<string> :| Ranking(q, ratios) && y == FactorOfSorted(Values(ratios, q));
    RankingsAgree(p, q, ratios);
  }

  /** More than half of the controls at or below `r` keep the factor at or below max(1, r); more than
      half of at least three controls above `r` lift it above min(r, 1.5). */
  lemma FactorFollowsTheMajority(x: real, ratios: Seconds, r: real)
    requires IsFactor(x, ratios)
    ensures 1.0 <= x <= RUNNER_FACTOR_CAP
    ensures 2 * |AtMost(ratios, r)| > |ratios| ==> x <= Max(1.0, r)
    ensures |ratios| >= MIN_RATIO_SAMPLE && 2 * |AtMost(ratios, r)| < |ratios| && r < RUNNER_FACTOR_CAP ==> x > r
  {
    var names: seq<string> :| Ranking(names, ratios) && x == FactorOfSorted(Values(ratios, names));
    DistinctCount(names);
    var s, c := Values(ratios, names), |AtMost(ratios, r)|;
    if |s| >= MIN_RATIO_SAMPLE {
      var h := |s| / 2;
      RankedPrefix(names, ratios, h, r);
      RankedPrefix(names, ratios, h - 1, r);
      MedianAndCount(s, c, r);
    }
  }

  lemma MedianAndCount(s: seq<real>, c: nat, r: real)
    requires |s| >= 3
    requires var h := |s| / 2;
             && s[h - 1] <= s[h]
             && (s[h] > r ==> c <= h) && (s[h] <= r ==> c >= h + 1)
             && (s[h - 1] <= r ==> c >= h) 
    ensures 2 * c > |s| ==> MedianOfSorted(s) <= r
    ensures 2 * c < |s| ==> MedianOfSorted(s) > r
  {
    var h := |s| / 2;
    if 2 * c > |s| {
      assert s[h] <= r;
    }
    if 2 * c < |s| {
      assert s[h] > r;
      assert |s| % 2 == 0 ==> s[h - 1] > r;
    }
  }

  /** Files that are excluded, provisional or unregistered cannot move the factor. */
  lemma FactorIgnoresTheJudged(x: real, y: real, before: Seconds, after: Seconds, weights: Seconds,
                               exclude: set<string>, provisional: set<string>)
    requires forall f :: f !in exclude && f !in provisional && f in weights && weights[f] > 0.0 ==>
               (f in before <==> f in after) && (f in before ==> before[f] == after[f])
    requires IsFactor(x, ControlRatios(before, weights, exclude, provisional))
    requires IsFactor(y, ControlRatios(after, weights, exclude, provisional))
    ensures x == y
  {
    assert ControlRatios(before, weights, exclude, provisional) == ControlRatios(after, weights, exclude, provisional);
    FactorIsUnique(x, y, ControlRatios(before, weights, exclude, provisional));
  }

  /** Sorting names by ratio and sorting the ratios give the same list. */
  lemma {:induction false} InsertByRatio(ratios: Seconds, f: string, names: seq<string>)
    ensures var le := (a, b) => RealLe(At(ratios, a), At(ratios, b));
            Values(ratios, Insert(le, f, names)) == Insert(RealLe, At(ratios, f), Values(ratios, names))
  {
    var le := (a, b) => RealLe(At(ratios, a), At(ratios, b));
    if names != [] && !le(f, names[0]) {
      InsertByRatio(ratios, f, names[1..]);
      assert Values(ratios, names)[1..] == Values(ratios, names[1..]);
    }
  }

  lemma {:induction false} SortByRatio(ratios: Seconds, names: seq<string>)
    ensures var le := (a, b) => RealLe(At(ratios, a), At(ratios, b));
            Values(ratios, Sort(le, names)) == Sort(RealLe, Values(ratios, names))
  {
    var le := (a, b) => RealLe(At(ratios, a), At(ratios, b));
    if names != [] {
      SortByRatio(ratios, names[1..]);
      assert Values(ratios, names)[1..] == Values(ratios, names[1..]);
      InsertByRatio(ratios, names[0], Sort(le, names[1..]));
    }
  }

  /** The factor of the sorted list of ratios is the factor, whatever the dictionary order. */
  lemma SortedRatiosGiveFactor(ratios: Seconds, names: seq<string>)
    requires NoDuplicates(names) && Elements(names) == ratios.Keys
    ensures IsFactor(FactorOfSorted(Sort(RealLe, Values(ratios, names))), ratios)
  {
    var le := (a, b) => RealLe(At(ratios, a), At(ratios, b));
    SortSorted(le, names);
    SortMultiset(le, names);
    SortByRatio(ratios, names);
    var ranked := Sort(le, names);
    PermutationIff(ranked, names);
    assert forall i, j :: 0 <= i < j < |ranked| ==> le(ranked[i], ranked[j]);
    assert Ranking(ranked, ratios);
  }

  lemma {:induction false} SomeOrder(s: set<string>) returns (names: seq<string>)
    ensures NoDuplicates(names) && Elements(names) == s
  {
    if s == {} {
      names := [];
    } else {
      var f :| f in s;
      var rest := SomeOrder(s - {f});
      names := [f] + rest;
      assert f !in Elements(rest);
      assert Elements(names) == {f} + Elements(rest);
    }
  }

  ghost function Factor(ratios: Seconds): (x: real)
    ensures IsFactor(x, ratios)
    ensures 1.0 <= x <= RUNNER_FACTOR_CAP
  {
    var names := AnOrder(ratios.Keys);
    SortedRatiosGiveFactor(ratios, names);
    FactorOfSorted(Sort(RealLe, Values(ratios, names)))
  }

  ghost function AnOrder(s: set<string>): (names: seq<string>)
    ensures NoDuplicates(names) && Elements(names) == s
  {
    OrderExists(s);
    var names: seq<string> :| NoDuplicates(names) && Elements(names) == s;
    names
  }

  lemma OrderExists(s: set<string>)
    ensures exists names: seq<string> :: NoDuplicates(names) && Elements(names) == s
  {
    var names := SomeOrder(s);
  }

  method RunnerSpeedFactor(elapsed: Seconds, weights: Seconds, exclude: set<string>, provisional: set<string>)
    returns (factor: real)
    ensures factor == Factor(ControlRatios(elapsed, weights, exclude, provisional))
  {
    var control := ControlRatios(elapsed, weights, exclude, provisional);
    var ratios: seq<real> := [];
    ghost var names: seq<string> := [];
    var todo := control.Keys;
    while todo != {}
      invariant NoDuplicates(names) && Elements(names) == control.Keys - todo && todo <= control.Keys
      invariant ratios == Values(control, names)
      decreases |todo|
    {
      var f :| f in todo;
      assert f !in Elements(names);
      assert Elements(names + [f]) == Elements(names) + {f};
      names := names + [f];
      ratios := ratios + [control[f]];
      todo := todo - {f};
    }
    factor := FactorOfSorted(Sort(RealLe, ratios));
    SortedRatiosGiveFactor(control, names);
    FactorIsUnique(factor, Factor(control), control);
  }
}

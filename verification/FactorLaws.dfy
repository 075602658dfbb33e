/** What the runner factor is, in terms of the measurements and the registered weights alone: the median quotient
    of the control files, kept between 1 and 1.5, and 1 with fewer than three of them. */
module FactorLaws {
  import opened Text
  import opened Sorting
  import opened SlowTestJudge
  import opened SlowTestVerdict

  /** The files the factor is taken from. */
  ghost function Controls(elapsed: Seconds, weights: Seconds, exclude: set<string>, provisional: set<string>)
    : set<string>
  {
    set f | f in elapsed && f in weights && weights[f] > 0.0 && f !in exclude && f !in provisional
  }

  ghost function FactorOf(elapsed: Seconds, weights: Seconds, exclude: set<string>, provisional: set<string>): real {
    Factor(ControlRatios(elapsed, weights, exclude, provisional))
  }

  /** The controls that took at most `r` times their weight. */
  ghost function WithinTimes(elapsed: Seconds, weights: Seconds, controls: set<string>, r: real): set<string>
    requires controls <= elapsed.Keys && controls <= weights.Keys
  {
    set f | f in controls && elapsed[f] <= r * weights[f]
  }

  lemma RatiosOfControls(elapsed: Seconds, weights: Seconds, exclude: set<string>, provisional: set<string>, r: real)
    ensures var ratios, c := ControlRatios(elapsed, weights, exclude, provisional),
                             Controls(elapsed, weights, exclude, provisional);
            && ratios.Keys == c && |ratios| == |c|
            && AtMost(ratios, r) == WithinTimes(elapsed, weights, c, r)
  {
    var ratios, c := ControlRatios(elapsed, weights, exclude, provisional),
                     Controls(elapsed, weights, exclude, provisional);
    assert ratios.Keys == c;
    forall f | f in c ensures ratios[f] <= r <==> elapsed[f] <= r * weights[f] {
      QuotientAtMost(elapsed[f], weights[f], r);
    }
  }

  lemma QuotientAtMost(x: real, w: real, r: real)
    requires w > 0.0
    ensures x / w <= r <==> x <= r * w
  {
    CompareScaled(x / w, r, w, x);
  }

  lemma CompareScaled(q: real, r: real, w: real, x: real)
    requires w > 0.0 && x == q * w
    ensures q <= r <==> x <= r * w
  {
    if q <= r {
      ScaledBy(w, q, r);
    } else {
      StrictlyScaled(w, r, q);
    }
  }

  lemma StrictlyScaled(w: real, r: real, q: real)
    requires w > 0.0 && r < q
    ensures r * w < q * w
  {
  }

  /** The factor lies between 1 and 1.5 and is 1 with fewer than three controls. When more than half of the controls
      took at most `r` times their weight, it is at most the larger of 1 and `r`; when fewer than half of at least
      three did, it is above `r`, up to 1.5. */
  lemma FactorFollowsTheControls(elapsed: Seconds, weights: Seconds, exclude: set<string>, provisional: set<string>,
                                 r: real)
    ensures var c := Controls(elapsed, weights, exclude, provisional);
            var x := FactorOf(elapsed, weights, exclude, provisional);
            var low := WithinTimes(elapsed, weights, c, r);
            && 1.0 <= x <= 1.5
            && (|c| < 3 ==> x == 1.0)
            && (2 * |low| > |c| ==> x <= 1.0 || x <= r)
            && (|c| >= 3 && 2 * |low| < |c| && r < 1.5 ==> x > r)
  {
    var ratios := ControlRatios(elapsed, weights, exclude, provisional);
    RatiosOfControls(elapsed, weights, exclude, provisional, r);
    FactorFollowsTheMajority(Factor(ratios), ratios, r);
    FewRatios(ratios);
  }

  lemma RankingOf(ratios: Seconds) returns (names: seq<string>, s: seq<real>)
    ensures Ranking(names, ratios) && s == Values(ratios, names) && Factor(ratios) == FactorOfSorted(s)
    ensures |s| == |names| == |ratios|
  {
    assert IsFactor(Factor(ratios), ratios);
    names :| Ranking(names, ratios) && Factor(ratios) == FactorOfSorted(Values(ratios, names));
    s := Values(ratios, names);
    DistinctCount(names);
  }

  lemma FewRatios(ratios: Seconds)
    ensures |ratios| < 3 ==> Factor(ratios) == 1.0
  {
    var names, s := RankingOf(ratios);
  }

  // ---------- the exact value ----------

  /** Keeping a value between 1 and 1.5. */
  function Kept(x: real): real {
    if x < 1.0 then 1.0 else if x > 1.5 then 1.5 else x
  }

  /** `mid` is in the middle: `low` are no slower for their weight, `high` no faster. */
  ghost predicate Between(ratios: Seconds, low: set<string>, mid: string, high: set<string>) {
    && low + {mid} + high == ratios.Keys && mid !in low && mid !in high
    && (forall f :: f in low ==> ratios[f] <= ratios[mid])
    && (forall f :: f in high ==> ratios[f] >= ratios[mid])
  }

  /** Its place in the ranking is the number of files below it. */
  lemma PlaceOfMiddle(names: seq<string>, ratios: Seconds, low: set<string>, mid: string, high: set<string>)
    requires Ranking(names, ratios) && Between(ratios, low, mid, high)
    ensures |low| < |names| && At(ratios, names[|low|]) == ratios[mid]
  {
    var k := |low|;
    DistinctCount(names);
    assert |low + {mid}| == k + 1;
    SetLe(low + {mid}, ratios.Keys);
    RankedPrefix(names, ratios, k, ratios[mid]);
    SetLe(low + {mid}, AtMost(ratios, ratios[mid]));
    var r := At(ratios, names[k]);
    RankedPrefix(names, ratios, k, r);
    if r < ratios[mid] {
      assert AtMost(ratios, r) <= low;
      SetLe(AtMost(ratios, r), low);
    }
  }

  lemma OddMedian(ratios: Seconds, low: set<string>, mid: string, high: set<string>)
    requires Between(ratios, low, mid, high) && |low| == |high| && |ratios| == 2 * |low| + 1 && |ratios| >= 3
    ensures Factor(ratios) == Kept(ratios[mid])
  {
    var names, s := RankingOf(ratios);
    PlaceOfMiddle(names, ratios, low, mid, high);
    MedianOf(s, |low|, ratios[mid]);
  }

  lemma MedianOf(s: seq<real>, h: nat, mid: real)
    requires |s| == 2 * h + 1 && |s| >= 3 && s[h] == mid
    ensures FactorOfSorted(s) == Kept(mid)
  {
  }

  lemma EvenMedian(ratios: Seconds, low: set<string>, a: string, b: string, high: set<string>)
    requires Between(ratios, low, a, high + {b}) && Between(ratios, low + {a}, b, high)
    requires |low| == |high| && |ratios| == 2 * |low| + 2 && |ratios| >= 3
    ensures Factor(ratios) == Kept((ratios[a] + ratios[b]) / 2.0)
  {
    var names, s := RankingOf(ratios);
    assert |low + {a}| == |low| + 1;
    PlaceOfMiddle(names, ratios, low, a, high + {b});
    PlaceOfMiddle(names, ratios, low + {a}, b, high);
    MedianOfTwo(s, |low|, |low| + 1, ratios[a], ratios[b]);
  }

  lemma MedianOfTwo(s: seq<real>, h: nat, next: nat, a: real, b: real)
    requires next == h + 1 && |s| == next + next && |s| >= 3 && s[h] == a && s[next] == b
    ensures FactorOfSorted(s) == Kept((a + b) / 2.0)
  {
    assert |s| / 2 == next;
  }

  /** `f` took no longer for its weight than `g` did. */
  ghost predicate NoSlower(elapsed: Seconds, weights: Seconds, f: string, g: string)
    requires f in elapsed && f in weights && weights[f] > 0.0 && g in elapsed && g in weights && weights[g] > 0.0
  {
    elapsed[f] / weights[f] <= elapsed[g] / weights[g]
  }

  /** With an odd number of controls, three or more, the factor is the quotient of the one in the middle. */
  lemma FactorOfOdd(elapsed: Seconds, weights: Seconds, exclude: set<string>, provisional: set<string>,
                    low: set<string>, mid: string, high: set<string>)
    requires low + {mid} + high == Controls(elapsed, weights, exclude, provisional)
    requires low !! high && mid !in low && mid !in high && |low| == |high| >= 1
    requires forall f :: f in low ==> NoSlower(elapsed, weights, f, mid)
    requires forall f :: f in high ==> NoSlower(elapsed, weights, mid, f)
    ensures FactorOf(elapsed, weights, exclude, provisional) == Kept(elapsed[mid] / weights[mid])
  {
    var ratios := ControlRatios(elapsed, weights, exclude, provisional);
    RatiosOfControls(elapsed, weights, exclude, provisional, 0.0);
    forall f | f in low ensures ratios[f] <= ratios[mid] {
      assert NoSlower(elapsed, weights, f, mid);
    }
    forall f | f in high ensures ratios[f] >= ratios[mid] {
      assert NoSlower(elapsed, weights, mid, f);
    }
    assert mid in low + {mid} + high;
    assert |low + {mid} + high| == |low| + 1 + |high|;
    OddMedian(ratios, low, mid, high);
  }

  /** With an even number, four or more, it is the mean of the quotients of the two in the middle. */
  lemma FactorOfEven(elapsed: Seconds, weights: Seconds, exclude: set<string>, provisional: set<string>,
                     low: set<string>, a: string, b: string, high: set<string>)
    requires low + {a, b} + high == Controls(elapsed, weights, exclude, provisional)
    requires low !! high && a != b && a !in low + high && b !in low + high && |low| == |high| >= 1
    requires NoSlower(elapsed, weights, a, b)
    requires forall f :: f in low ==> NoSlower(elapsed, weights, f, a)
    requires forall f :: f in high ==> NoSlower(elapsed, weights, b, f)
    ensures FactorOf(elapsed, weights, exclude, provisional) ==
            Kept((elapsed[a] / weights[a] + elapsed[b] / weights[b]) / 2.0)
  {
    var ratios := ControlRatios(elapsed, weights, exclude, provisional);
    RatiosOfControls(elapsed, weights, exclude, provisional, 0.0);
    CountEven(low, a, b, high);
    MiddleTwo(elapsed, weights, ratios, low, a, b, high);
    EvenMedian(ratios, low, a, b, high);
  }

  lemma MiddleTwo(elapsed: Seconds, weights: Seconds, ratios: Seconds, low: set<string>, a: string, b: string,
                  high: set<string>)
    requires ratios.Keys == low + {a, b} + high && a != b && a !in low + high && b !in low + high
    requires forall f :: f in ratios ==>
               f in elapsed && f in weights && weights[f] > 0.0 && ratios[f] == elapsed[f] / weights[f]
    requires NoSlower(elapsed, weights, a, b)
    requires forall f :: f in low ==> NoSlower(elapsed, weights, f, a)
    requires forall f :: f in high ==> NoSlower(elapsed, weights, b, f)
    ensures Between(ratios, low, a, high + {b}) && Between(ratios, low + {a}, b, high)
  {
    forall f | f in low ensures ratios[f] <= ratios[a] {
      assert NoSlower(elapsed, weights, f, a);
    }
    forall f | f in high ensures ratios[f] >= ratios[b] {
      assert NoSlower(elapsed, weights, b, f);
    }
  }

  lemma CountEven(low: set<string>, a: string, b: string, high: set<string>)
    requires low !! high && a != b && a !in low + high && b !in low + high
    ensures |low + {a, b} + high| == |low| + 2 + |high|
    ensures low + {a, b} + high == low + {a} + (high + {b}) == low + {a} + {b} + high
  {
    assert |low + {a, b}| == |low| + 2;
  }

  // ---------- a slower runner ----------

  /** `k` times as long. */
  function Times(k: real, x: real): real {
    k * x
  }

  /** The run in which every file takes `k` times as long. */
  function Slowed(elapsed: Seconds, k: real): Seconds {
    map f | f in elapsed :: Times(k, elapsed[f])
  }

  /** Every ratio grows by the same factor, so the ranking stays and the median grows with them. */
  lemma SlowedValues(ratios: Seconds, slowed: Seconds, k: real, names: seq<string>)
    requires k > 0.0 && slowed.Keys == ratios.Keys && (forall f :: f in ratios ==> slowed[f] == Times(k, ratios[f]))
    requires Ranking(names, ratios)
    ensures Ranking(names, slowed) && |Values(slowed, names)| == |Values(ratios, names)|
    ensures forall i :: 0 <= i < |names| ==> Values(slowed, names)[i] == Times(k, Values(ratios, names)[i])
  {
    forall i | 0 <= i < |names| ensures At(slowed, names[i]) == Times(k, At(ratios, names[i])) {
      assert names[i] in Elements(names);
    }
    forall i, j | 0 <= i < j < |names| ensures At(slowed, names[i]) <= At(slowed, names[j]) {
      TimesIsMonotone(k, At(ratios, names[i]), At(ratios, names[j]));
    }
  }

  lemma TimesIsMonotone(k: real, a: real, b: real)
    requires k >= 0.0 && a <= b
    ensures Times(k, a) <= Times(k, b)
  {
    ScaledBy(k, a, b);
  }

  lemma ScaledBy(k: real, a: real, b: real)
    requires k >= 0.0 && a <= b
    ensures k * a <= k * b
  {
  }

  lemma SlowedMedian(s: seq<real>, t: seq<real>, k: real)
    requires s != [] && |s| == |t| && k > 0.0 && forall i :: 0 <= i < |s| ==> t[i] == Times(k, s[i])
    ensures MedianOfSorted(t) == Times(k, MedianOfSorted(s))
  {
  }

  lemma SlowedFactor(ratios: Seconds, slowed: Seconds, k: real, x: real, y: real)
    requires k > 0.0 && slowed.Keys == ratios.Keys && forall f :: f in ratios ==> slowed[f] == Times(k, ratios[f])
    requires x == Factor(ratios) && y == Times(k, x) && 1.0 < x < 1.5 && 1.0 <= y <= 1.5
    ensures Factor(slowed) == y
  {
    var names, s := RankingOf(ratios);
    SlowedValues(ratios, slowed, k, names);
    var t := Values(slowed, names);
    SlowedSorted(s, t, k, x, y);
    assert IsFactor(y, slowed);
    FactorIsUnique(y, Factor(slowed), slowed);
  }

  lemma SlowedSorted(s: seq<real>, t: seq<real>, k: real, x: real, y: real)
    requires |s| == |t| && k > 0.0 && forall i :: 0 <= i < |s| ==> t[i] == Times(k, s[i])
    requires x == FactorOfSorted(s) && y == Times(k, x) && 1.0 < x < 1.5 && 1.0 <= y <= 1.5
    ensures FactorOfSorted(t) == y
  {
    SlowedMedian(s, t, k);
    assert x == MedianOfSorted(s);
  }

  /** A runner that is `k` times as slow throughout has `k` times the factor, as long as both lie between the
      bounds; and then exactly the same files are over their lines. */
  lemma SlowerRunnerSameVerdict(s: Setup, elapsed: Seconds, k: real)
    requires k > 0.0 && 1.0 < s.RunFactor(elapsed) < 1.5 && 1.0 <= Times(k, s.RunFactor(elapsed)) <= 1.5
    ensures s.RunFactor(Slowed(elapsed, k)) == Times(k, s.RunFactor(elapsed))
    ensures s.Over(Slowed(elapsed, k), s.RunFactor(Slowed(elapsed, k))) == s.Over(elapsed, s.RunFactor(elapsed))
  {
    var x := s.RunFactor(elapsed);
    SlowedRunFactor(s, elapsed, Slowed(elapsed, k), k, x, Times(k, x));
    SlowedOver(s, elapsed, Slowed(elapsed, k), k, x, Times(k, x));
  }

  lemma SlowedRunFactor(s: Setup, elapsed: Seconds, slow: Seconds, k: real, x: real, y: real)
    requires slow == Slowed(elapsed, k) && k > 0.0 && x == s.RunFactor(elapsed) && y == Times(k, x)
    requires 1.0 < x < 1.5 && 1.0 <= y <= 1.5
    ensures s.RunFactor(slow) == y
  {
    var ratios := ControlRatios(elapsed, s.weights, s.Exclude(), s.provisional);
    var slowed := ControlRatios(slow, s.weights, s.Exclude(), s.provisional);
    assert slowed.Keys == ratios.Keys;
    forall f | f in ratios ensures slowed[f] == Times(k, ratios[f]) {
      SlowedQuotient(k, elapsed[f], s.weights[f]);
    }
    SlowedFactor(ratios, slowed, k, x, y);
  }

  lemma SlowedOver(s: Setup, elapsed: Seconds, slow: Seconds, k: real, x: real, y: real)
    requires slow == Slowed(elapsed, k) && k > 0.0 && x >= 1.0 && y == Times(k, x) && y >= 1.0
    ensures s.Over(slow, y) == s.Over(elapsed, x)
  {
    forall f | f in elapsed ensures f in s.Over(slow, y) <==> f in s.Over(elapsed, x) {
      if f in s.weights { SlowedWithin(elapsed[f], slow[f], s.weights[f], x, y, k); }
    }
  }

  lemma SlowedWithin(sec: real, slow: real, weight: real, x: real, y: real, k: real)
    requires k > 0.0 && slow == Times(k, sec) && x >= 1.0 && y == Times(k, x) && y >= 1.0
    ensures Within(slow, weight, y) <==> Within(sec, weight, x)
  {
    var line := AbsoluteLine(weight);
    SlowedLine(sec, line * x, k);
    Associates(line, k, x);
  }

  lemma Associates(a: real, k: real, x: real)
    ensures a * (k * x) == k * (a * x)
  {
  }

  lemma SlowedQuotient(k: real, x: real, w: real)
    requires w > 0.0
    ensures Times(k, x) / w == Times(k, x / w)
  {
    var q := x / w;
    assert q * w == x;
    assert k * x == (k * q) * w;
  }

  lemma SlowedLine(sec: real, line: real, k: real)
    requires k > 0.0
    ensures k * sec <= k * line <==> sec <= line
  {
    if sec <= line { ScaledBy(k, sec, line); }
    if sec > line { StrictlyScaled(k, line, sec); }
  }
}

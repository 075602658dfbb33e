/** Greedy "longest processing time first" scheduling, the rule both shard scripts use: take the
    files heaviest first and give each one to the shard that is least loaded so far.

    Weights are reals, so the same theory serves the per-file test counts of the non-destructive
    split and the per-file seconds of the destructive one. */
module Lpt {

  /** `a[j]` is the shard that gets the `j`-th weight. */
  ghost predicate IsAssignment(a: seq<nat>, n: nat, m: nat) {
    |a| == n && forall j :: 0 <= j < n ==> a[j] < m
  }

  function Sum(w: seq<real>): real {
    if w == [] then 0.0 else Sum(w[..|w| - 1]) + w[|w| - 1]
  }

  /** Total weight that assignment `a` puts on shard `p`. */
  function Load(w: seq<real>, a: seq<nat>, p: nat): real
    requires |a| == |w|
  {
    if w == [] then 0.0
    else
      var n := |w| - 1;
      Load(w[..n], a[..n], p) + if a[n] == p then w[n] else 0.0
  }

  function Loads(w: seq<real>, a: seq<nat>, m: nat): (loads: seq<real>)
    requires |a| == |w|
    ensures |loads| == m
    ensures forall p :: 0 <= p < m ==> loads[p] == Load(w, a, p)
  {
    seq(m, p requires 0 <= p < m => Load(w, a, p))
  }

  /** The first index that holds a least element: Python's `min(range(n), key=lambda k: (loads[k], k))`
      and `totals.index(min(totals))`. */
  function LeastLoaded(loads: seq<real>): (i: nat)
    requires loads != []
    ensures i < |loads|
    ensures forall p :: 0 <= p < |loads| ==> loads[i] <= loads[p]
    ensures forall p :: 0 <= p < i ==> loads[i] < loads[p]
  {
    if |loads| == 1 then 0
    else
      var n := |loads| - 1;
      var i := LeastLoaded(loads[..n]);
      assert forall p :: 0 <= p < n ==> loads[..n][p] == loads[p];
      if loads[n] < loads[i] then n else i
  }

  /** The assignment the greedy loop computes, one weight at a time. */
  function Greedy(w: seq<real>, m: nat): (a: seq<nat>)
    requires m >= 1
    ensures IsAssignment(a, |w|, m)
  {
    if w == [] then []
    else
      var n := |w| - 1;
      var a := Greedy(w[..n], m);
      a + [LeastLoaded(Loads(w[..n], a, m))]
  }

  ghost predicate Descending(w: seq<real>) {
    forall i, j :: 0 <= i <= j < |w| ==> w[i] >= w[j]
  }

  ghost predicate NonNegative(w: seq<real>) {
    forall i :: 0 <= i < |w| ==> w[i] >= 0.0
  }

  /** Every shard of the assignment carries at most `b`. */
  ghost predicate FitsIn(w: seq<real>, a: seq<nat>, m: nat, b: real)
    requires |a| == |w|
  {
    forall p :: 0 <= p < m ==> Load(w, a, p) <= b
  }

  // ---------- sums over shards ----------

  ghost function SumLoads(w: seq<real>, a: seq<nat>, m: nat): real
    requires |a| == |w|
  {
    if m == 0 then 0.0 else SumLoads(w, a, m - 1) + Load(w, a, m - 1)
  }

  lemma {:induction false} SumLoadsEmpty(m: nat)
    ensures SumLoads([], [], m) == 0.0
  {
    if m > 0 { SumLoadsEmpty(m - 1); }
  }

  lemma {:induction false} SumLoadsStep(w: seq<real>, a: seq<nat>, m: nat)
    requires |a| == |w| > 0
    ensures SumLoads(w, a, m) ==
            SumLoads(w[..|w| - 1], a[..|w| - 1], m) + if a[|w| - 1] < m then w[|w| - 1] else 0.0
  {
    if m > 0 { SumLoadsStep(w, a, m - 1); }
  }

  /** No weight is lost or counted twice: the loads of any assignment add up to the total. */
  lemma {:induction false} LoadsAddUp(w: seq<real>, a: seq<nat>, m: nat)
    requires IsAssignment(a, |w|, m)
    ensures SumLoads(w, a, m) == Sum(w)
  {
    if w == [] {
      SumLoadsEmpty(m);
    } else {
      LoadsAddUp(w[..|w| - 1], a[..|w| - 1], m);
      SumLoadsStep(w, a, m);
    }
  }

  lemma {:induction false} SumLoadsAtLeast(w: seq<real>, a: seq<nat>, m: nat, x: real)
    requires |a| == |w|
    requires forall p :: 0 <= p < m ==> x <= Load(w, a, p)
    ensures m as real * x <= SumLoads(w, a, m)
  {
    if m > 0 {
      SumLoadsAtLeast(w, a, m - 1, x);
      assert m as real * x == (m - 1) as real * x + x;
    }
  }

  lemma {:induction false} SumLoadsAtMost(w: seq<real>, a: seq<nat>, m: nat, x: real)
    requires |a| == |w|
    requires FitsIn(w, a, m, x)
    ensures SumLoads(w, a, m) <= m as real * x
  {
    if m > 0 {
      SumLoadsAtMost(w, a, m - 1, x);
      assert m as real * x == (m - 1) as real * x + x;
    }
  }

  // ---------- monotonicity of a single load ----------

  /** A load covers each of its own members, and dropping the last weight never raises a load. */
  lemma {:induction false} LoadCovers(w: seq<real>, a: seq<nat>, j: nat)
    requires |a| == |w| && j < |w| && NonNegative(w)
    ensures Load(w, a, a[j]) >= w[j]
  {
    var n := |w| - 1;
    LoadNonNegative(w[..n], a[..n], a[j]);
    if j < n { LoadCovers(w[..n], a[..n], j); }
  }

  lemma {:induction false} LoadNonNegative(w: seq<real>, a: seq<nat>, p: nat)
    requires |a| == |w| && NonNegative(w)
    ensures Load(w, a, p) >= 0.0
  {
    if w != [] { LoadNonNegative(w[..|w| - 1], a[..|w| - 1], p); }
  }

  lemma FitsInPrefix(w: seq<real>, a: seq<nat>, m: nat, b: real)
    requires |a| == |w| > 0 && NonNegative(w) && FitsIn(w, a, m, b)
    ensures FitsIn(w[..|w| - 1], a[..|w| - 1], m, b)
  {
    var n := |w| - 1;
    forall p | 0 <= p < m ensures Load(w[..n], a[..n], p) <= b {
      assert Load(w, a, p) <= b;
    }
  }

  // ---------- the large-weight case ----------

  /** Counting weight of a job when the newest job weighs `b - t`: a job heavier than `t` fills a
      shard of capacity `b` by itself, so it counts for two. */
  function Slots(w: seq<real>, t: real): (f: seq<real>)
    ensures |f| == |w|
    ensures forall j :: 0 <= j < |w| ==> f[j] == if w[j] > t then 2.0 else 1.0
  {
    seq(|w|, j requires 0 <= j < |w| => if w[j] > t then 2.0 else 1.0)
  }

  /** A shard loaded beyond `t` takes at least two slots. */
  lemma {:induction false} OverloadedTakesTwo(w: seq<real>, a: seq<nat>, p: nat, t: real)
    requires |a| == |w| && t >= 0.0
    ensures var f := Load(Slots(w, t), a, p);
            (f == 0.0 && Load(w, a, p) == 0.0) || (f == 1.0 && Load(w, a, p) <= t) || f >= 2.0
  {
    if w != [] {
      var n := |w| - 1;
      OverloadedTakesTwo(w[..n], a[..n], p, t);
      assert Slots(w, t)[..n] == Slots(w[..n], t);
    }
  }

  /** If every weight is at least `c` and more than a third of `b`, a shard within `b` takes at most
      two slots. */
  lemma {:induction false} FittingTakesAtMostTwo(w: seq<real>, a: seq<nat>, p: nat, b: real, c: real)
    requires |a| == |w| && 3.0 * c > b >= c
    requires forall j :: 0 <= j < |w| ==> w[j] >= c
    ensures var f := Load(Slots(w, b - c), a, p);
            var l := Load(w, a, p);
            || (f == 0.0 && l == 0.0)
            || (f == 1.0 && l >= c)
            || (f == 2.0 && (l >= 2.0 * c || l > b - c))
            || (f >= 3.0 && l > b)
  {
    if w != [] {
      var n := |w| - 1;
      FittingTakesAtMostTwo(w[..n], a[..n], p, b, c);
      assert Slots(w, b - c)[..n] == Slots(w[..n], b - c);
    }
  }

  /** Every shard already carries more than `t`. */
  ghost predicate AllAbove(w: seq<real>, a: seq<nat>, m: nat, t: real)
    requires |a| == |w|
  {
    forall p :: 0 <= p < m ==> Load(w, a, p) > t
  }

  /** When even the lightest weight `c` exceeds a third of what a rival assignment needs per shard,
      some shard still has room for it: the rival fits one job more into the same shards, so by
      counting slots not all shards can be above `b - c`. */
  lemma RoomForTheLightest(w: seq<real>, other: seq<nat>, a: seq<nat>, m: nat, b: real)
    requires |w| > 0 && m >= 1 && NonNegative(w) && Descending(w)
    requires IsAssignment(other, |w|, m) && FitsIn(w, other, m, b)
    requires IsAssignment(a, |w| - 1, m)
    requires 3.0 * w[|w| - 1] > b
    ensures !AllAbove(w[..|w| - 1], a, m, b - w[|w| - 1])
  {
    var n := |w| - 1;
    var c := w[n];
    var t := b - c;
    LoadCovers(w, other, n);
    var f := Slots(w, t);
    assert f[..n] == Slots(w[..n], t);
    assert Sum(f) == Sum(f[..n]) + f[n];
    LoadsAddUp(f[..n], a, m);
    LoadsAddUp(f, other, m);
    forall p | 0 <= p < m ensures Load(f, other, p) <= 2.0 {
      FittingTakesAtMostTwo(w, other, p, b, c);
    }
    SumLoadsAtMost(f, other, m, 2.0);
    if AllAbove(w[..n], a, m, t) {
      forall p | 0 <= p < m ensures 2.0 <= Load(f[..n], a, p) {
        OverloadedTakesTwo(w[..n], a, p, t);
      }
      SumLoadsAtLeast(f[..n], a, m, 2.0);
    }
  }

  // ---------- the bounds ----------

  /** The greedy step, seen from the loads. */
  lemma GreedyStep(w: seq<real>, m: nat)
    requires m >= 1 && |w| > 0
    ensures var n := |w| - 1;
            var a := Greedy(w[..n], m);
            var i := LeastLoaded(Loads(w[..n], a, m));
            && Greedy(w, m) == a + [i]
            && (forall p :: 0 <= p < m ==> Load(w[..n], a, i) <= Load(w[..n], a, p))
            && (forall p :: 0 <= p < m ==>
                  Load(w, Greedy(w, m), p) == Load(w[..n], a, p) + if p == i then w[n] else 0.0)
  {
    var n := |w| - 1;
    var a := Greedy(w[..n], m);
    assert Greedy(w, m)[..n] == a;
    var loads := Loads(w[..n], a, m);
    var i := LeastLoaded(loads);
    forall p | 0 <= p < m ensures Load(w[..n], a, i) <= Load(w[..n], a, p) {
      assert loads[i] <= loads[p];
    }
  }

  /** Jobs above a third of the rival's largest load never push a shard past that load. */
  lemma {:induction false} LargeWeightsAreOptimal(w: seq<real>, other: seq<nat>, m: nat, b: real)
    requires m >= 1 && NonNegative(w) && Descending(w)
    requires IsAssignment(other, |w|, m) && FitsIn(w, other, m, b)
    requires w == [] || 3.0 * w[|w| - 1] > b
    requires b >= 0.0
    ensures FitsIn(w, Greedy(w, m), m, b)
  {
    if w != [] {
      var n := |w| - 1;
      FitsInPrefix(w, other, m, b);
      LargeWeightsAreOptimal(w[..n], other[..n], m, b);
      GreedyStep(w, m);
      RoomForTheLightest(w, other, Greedy(w[..n], m), m, b);
    }
  }

  /** `l` is within the factor `4/3 - 1/(3m)` of `b`, without the division. */
  ghost predicate WithinFourThirds(l: real, b: real, m: nat) {
    3.0 * m as real * l <= (4.0 * m as real - 1.0) * b
  }

  /** Graham's bound, for every assignment of the same weights to the same number of shards: the
      largest greedy load is at most `4/3 - 1/(3m)` times the largest load of that assignment. */
  lemma {:induction false} GreedyWithinFourThirds(w: seq<real>, other: seq<nat>, m: nat, b: real, p: nat)
    requires m >= 1 && NonNegative(w) && Descending(w)
    requires IsAssignment(other, |w|, m) && FitsIn(w, other, m, b)
    requires p < m
    ensures WithinFourThirds(Load(w, Greedy(w, m), p), b, m)
    decreases |w|
  {
    LoadNonNegative(w, other, p);
    if w == [] {
      ScaleByThreeM(0.0, b, m);
    } else {
      var n := |w| - 1;
      FitsInPrefix(w, other, m, b);
      GreedyStep(w, m);
      if p == LeastLoaded(Loads(w[..n], Greedy(w[..n], m), m)) {
        GrownLoadWithinFourThirds(w, other, m, b, p);
      } else {
        GreedyWithinFourThirds(w[..n], other[..n], m, b, p);
      }
    }
  }

  lemma GrownLoadWithinFourThirds(w: seq<real>, other: seq<nat>, m: nat, b: real, p: nat)
    requires m >= 1 && |w| > 0 && b >= 0.0 && NonNegative(w) && Descending(w)
    requires IsAssignment(other, |w|, m) && FitsIn(w, other, m, b)
    requires p == LeastLoaded(Loads(w[..|w| - 1], Greedy(w[..|w| - 1], m), m))
    ensures WithinFourThirds(Load(w, Greedy(w, m), p), b, m)
  {
    var n := |w| - 1;
    var a := Greedy(w[..n], m);
    var l := Load(w[..n], a, p);
    GreedyStep(w, m);
    if 3.0 * w[n] > b {
      LargeWeightsAreOptimal(w, other, m, b);
      ScaleByThreeM(l + w[n], b, m);
    } else {
      AverageRoom(w, w[..n], other, a, m, b, l);
      AverageArgument(l, w[n], b, m);
    }
  }

  /** The least load and the new weight fit the rival's total. */
  lemma AverageRoom(w: seq<real>, u: seq<real>, other: seq<nat>, a: seq<nat>, m: nat, b: real, l: real)
    requires |w| > 0 && IsAssignment(other, |w|, m) && FitsIn(w, other, m, b)
    requires u == w[..|w| - 1] && IsAssignment(a, |u|, m)
    requires forall p :: 0 <= p < m ==> l <= Load(u, a, p)
    ensures m as real * l + w[|w| - 1] <= m as real * b
  {
    SumLoadsAtLeast(u, a, m, l);
    LoadsAddUp(u, a, m);
    SumLoadsAtMost(w, other, m, b);
    LoadsAddUp(w, other, m);
  }

  lemma ScaleByThreeM(l: real, b: real, m: nat)
    requires m >= 1 && 0.0 <= b && l <= b
    ensures WithinFourThirds(l, b, m)
  {
    var k := m as real;
    assert k * l <= k * b;
    assert b <= k * b;
  }

  lemma AverageArgument(l: real, c: real, b: real, m: nat)
    requires m >= 1 && m as real * l + c <= m as real * b && 3.0 * c <= b
    ensures WithinFourThirds(l + c, b, m)
  {
    var k := m as real;
    assert (k - 1.0) * (3.0 * c) <= (k - 1.0) * b;
    assert 3.0 * k * (l + c) == 3.0 * (k * l + c) + (k - 1.0) * (3.0 * c);
  }

  /** The spread between any two shards is at most the heaviest weight (no order needed). */
  lemma {:induction false} GreedySpread(w: seq<real>, m: nat, x: real, p: nat, q: nat)
    requires m >= 1 && p < m && q < m && x >= 0.0
    requires forall j :: 0 <= j < |w| ==> 0.0 <= w[j] <= x
    ensures Load(w, Greedy(w, m), p) - Load(w, Greedy(w, m), q) <= x
    decreases |w|
  {
    if w != [] {
      GreedySpread(w[..|w| - 1], m, x, p, q);
      GreedyStep(w, m);
    }
  }

  lemma LoadSnoc(w: seq<real>, x: real, a: seq<nat>, i: nat, p: nat)
    requires |a| == |w|
    ensures Load(w + [x], a + [i], p) == Load(w, a, p) + if i == p then x else 0.0
  {
    assert (w + [x])[..|w|] == w && (a + [i])[..|w|] == a;
  }
}

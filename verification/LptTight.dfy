/** The greedy bound is attained for every number of shards `m`: weights 2m-1, 2m-1, 2m-2, 2m-2, ...,
    m+1, m+1, m, m, m fit into 3m a shard, and greedy needs 4m-1. */
module LptTight {
  import opened Lpt

  /** The `j`-th weight of the family. */
  function Weight(m: nat, j: nat): (x: nat)
    requires m >= 1 && j <= 2 * m
    ensures m <= x <= 2 * m - 1
  {
    if j < 2 * m then 2 * m - 1 - j / 2 else m
  }

  function Weights(m: nat, n: nat): (w: seq<real>)
    requires m >= 1 && n <= 2 * m + 1
    ensures |w| == n
    ensures forall j :: 0 <= j < n ==> w[j] == Weight(m, j) as real
  {
    seq(n, j requires 0 <= j < n => Weight(m, j) as real)
  }

  lemma WeightsNext(m: nat, n: nat)
    requires m >= 1 && n < 2 * m + 1
    ensures Weights(m, n + 1)[..n] == Weights(m, n)
  {
  }

  // ---------- what greedy does ----------

  /** The greedy loads after `n` weights. */
  ghost predicate GreedyLoads(m: nat, n: nat, l: seq<nat>) {
    && m >= 1 && n <= 2 * m + 1 && |l| == m
    && forall p :: 0 <= p < m ==> Load(Weights(m, n), Greedy(Weights(m, n), m), p) == l[p] as real
  }

  /** Shard `i` is the first of the least loaded ones. */
  ghost predicate IsNext(l: seq<nat>, i: nat) {
    && i < |l|
    && (forall p :: 0 <= p < |l| ==> l[i] <= l[p])
    && (forall p :: 0 <= p < i ==> l[i] < l[p])
  }

  lemma Place(m: nat, n: nat, next: nat, l: seq<nat>, i: nat) returns (l': seq<nat>)
    requires m >= 1 && n < 2 * m + 1 && next == n + 1 && GreedyLoads(m, n, l) && IsNext(l, i)
    ensures l' == l[i := l[i] + Weight(m, n)] && GreedyLoads(m, next, l')
  {
    l' := l[i := l[i] + Weight(m, n)];
    var w := Weights(m, n);
    WeightsNext(m, n);
    GreedyStep(Weights(m, n + 1), m);
    var loads := Loads(w, Greedy(w, m), m);
    NextIsLeast(loads, l, i);
  }

  lemma NextIsLeast(loads: seq<real>, l: seq<nat>, i: nat)
    requires |loads| == |l| && IsNext(l, i) && forall p :: 0 <= p < |l| ==> loads[p] == l[p] as real
    ensures LeastLoaded(loads) == i
  {
    var k := LeastLoaded(loads);
    assert loads[k] <= loads[i] && l[i] <= l[k];
  }

  /** After `j` weights of the first round each has a shard of its own. */
  function FirstRound(m: nat, j: nat): seq<nat>
    requires m >= 1
  {
    seq(m, p requires 0 <= p < m => if p < j then Weight(m, p) else 0)
  }

  lemma {:induction false} FirstRoundLoads(m: nat, j: nat) returns (l: seq<nat>)
    requires m >= 1 && j <= m
    ensures l == FirstRound(m, j) && GreedyLoads(m, j, l)
  {
    if j == 0 {
      l := FirstRound(m, 0);
      assert Weights(m, 0) == [];
    } else {
      var before := FirstRoundLoads(m, j - 1);
      FirstRoundStep(m, j - 1);
      l := Place(m, j - 1, j, before, j - 1);
    }
  }

  lemma FirstRoundStep(m: nat, j: nat)
    requires m >= 1 && j < m
    ensures var l := FirstRound(m, j);
            IsNext(l, j) && l[j := l[j] + Weight(m, j)] == FirstRound(m, j + 1)
  {
  }

  /** In the second round the shards are filled from the last down; of two that carry the same, the lower
      first. With `q + 1` shards to go, shard `p` has only its first weight. */
  predicate Waiting(m: nat, q: int, p: nat) {
    if q % 2 == 1 || q == m - 1 then p <= q else p < q || p == q + 1
  }

  function Next(m: nat, q: nat): nat {
    if q % 2 == 1 then q - 1 else if q + 1 < m then q + 1 else q
  }

  function SecondRound(m: nat, q: int): seq<nat>
    requires m >= 1
  {
    seq(m, p requires 0 <= p < m => if Waiting(m, q, p) then Weight(m, p) else 3 * m - 1)
  }

  lemma NextIsNext(m: nat, q: nat)
    requires m >= 1 && q < m
    ensures IsNext(SecondRound(m, q), Next(m, q)) && Waiting(m, q, Next(m, q))
  {
  }

  /** The weight that is placed completes the shard to 3m-1. */
  lemma Completes(m: nat, q: nat)
    requires m >= 1 && q < m
    ensures Weight(m, Next(m, q)) + Weight(m, 2 * m - 1 - q) == 3 * m - 1
    ensures forall p: nat :: p < m ==> (Waiting(m, q - 1, p) <==> Waiting(m, q, p) && p != Next(m, q))
  {
    assert Next(m, q) / 2 == q / 2;
    assert q / 2 + (2 * m - 1 - q) / 2 == m - 1;
  }

  lemma {:induction false} SecondRoundLoads(m: nat, n: nat) returns (l: seq<nat>)
    requires 1 <= m <= n <= 2 * m
    ensures l == SecondRound(m, 2 * m - 1 - n) && GreedyLoads(m, n, l)
    decreases n
  {
    if n == m {
      l := RoundsMeet(m);
    } else {
      var before := SecondRoundLoads(m, n - 1);
      l := SecondRoundPlace(m, n - 1, n, 2 * m - n, before);
    }
  }

  lemma SecondRoundPlace(m: nat, n: nat, next: nat, q: nat, before: seq<nat>) returns (l: seq<nat>)
    requires m >= 1 && q < m && n == 2 * m - 1 - q && next == n + 1
    requires before == SecondRound(m, q) && GreedyLoads(m, n, before)
    ensures l == SecondRound(m, q - 1) && GreedyLoads(m, next, l)
  {
    var i, after := SecondRoundStep(m, q, n, before);
    l := Place(m, n, next, before, i);
  }

  lemma RoundsMeet(m: nat) returns (l: seq<nat>)
    requires m >= 1
    ensures l == SecondRound(m, m - 1) && GreedyLoads(m, m, l)
  {
    l := FirstRoundLoads(m, m);
    assert l == SecondRound(m, m - 1);
  }

  lemma SecondRoundStep(m: nat, q: nat, n: nat, l: seq<nat>) returns (i: nat, after: seq<nat>)
    requires m >= 1 && q < m && n == 2 * m - 1 - q && l == SecondRound(m, q)
    ensures IsNext(l, i) && after == l[i := l[i] + Weight(m, n)] == SecondRound(m, q - 1)
  {
    i := Next(m, q);
    NextIsNext(m, q);
    Completes(m, q);
    after := l[i := l[i] + Weight(m, n)];
  }

  // ---------- what is possible ----------

  /** A better assignment: the three weights m together, the others in pairs that make 3m. */
  function Better(m: nat, n: nat): (a: seq<nat>)
    requires m >= 1 && n <= 2 * m + 1
    ensures IsAssignment(a, n, m)
  {
    seq(n, j requires 0 <= j < n => BetterShard(m, j))
  }

  function BetterShard(m: nat, j: nat): (p: nat)
    requires m >= 1 && j <= 2 * m
    ensures p < m
  {
    if j >= 2 * m - 2 then m - 1 else if j < m - 1 then j else 2 * m - 3 - j
  }

  function BetterLoad(m: nat, n: nat, p: nat): nat
    requires m >= 1 && n <= 2 * m + 1 && p < m
  {
    if p == m - 1 then (if n > 2 * m - 2 then m * (n - (2 * m - 2)) else 0)
    else (if n > p then Weight(m, p) else 0) + (if n > 2 * m - 3 - p then Weight(m, 2 * m - 3 - p) else 0)
  }

  lemma {:induction false} BetterLoads(m: nat, n: nat, p: nat)
    requires m >= 1 && n <= 2 * m + 1 && p < m
    ensures Load(Weights(m, n), Better(m, n), p) == BetterLoad(m, n, p) as real
  {
    if n > 0 {
      BetterLoads(m, n - 1, p);
      BetterLoadsNext(m, n - 1, n, p);
    }
  }

  lemma BetterLoadsNext(m: nat, j: nat, n: nat, p: nat)
    requires m >= 1 && j <= 2 * m && n == j + 1 && p < m
    requires Load(Weights(m, j), Better(m, j), p) == BetterLoad(m, j, p) as real
    ensures Load(Weights(m, n), Better(m, n), p) == BetterLoad(m, n, p) as real
  {
    WeightsNext(m, j);
    assert Better(m, n)[..j] == Better(m, j);
    BetterLoadNext(m, j, p);
  }

  lemma BetterLoadNext(m: nat, j: nat, p: nat)
    requires m >= 1 && j <= 2 * m && p < m
    ensures BetterLoad(m, j + 1, p) == BetterLoad(m, j, p) + if BetterShard(m, j) == p then Weight(m, j) else 0
  {
    if j >= 2 * m - 2 {
      assert Weight(m, j) == m;
      assert m * (j + 1 - (2 * m - 2)) == m * (j - (2 * m - 2)) + m;
    }
  }

  lemma BetterFits(m: nat, p: nat)
    requires m >= 1 && p < m
    ensures BetterLoad(m, 2 * m + 1, p) == 3 * m
  {
    if p < m - 1 {
      assert p / 2 + (2 * m - 3 - p) / 2 == m - 2;
    }
  }

  // ---------- the bound is attained ----------

  /** For every number of shards there are descending weights and an assignment within 3m a shard where the
      largest greedy load is 4m-1, which is exactly 4/3 - 1/(3m) of 3m. */
  lemma FourThirdsIsTight(m: nat)
    requires m >= 1
    ensures var w, a := Weights(m, 2 * m + 1), Better(m, 2 * m + 1);
            var b := 3.0 * m as real;
            && Descending(w) && NonNegative(w) && IsAssignment(a, |w|, m) && FitsIn(w, a, m, b)
            && exists p: nat :: p < m && 3.0 * m as real * Load(w, Greedy(w, m), p) == (4.0 * m as real - 1.0) * b
  {
    var w := Weights(m, 2 * m + 1);
    BetterFitsAll(m, w, Better(m, 2 * m + 1));
    var load := GreedyReaches(m, w);
    AtTheBound(m, load);
  }

  lemma BetterFitsAll(m: nat, w: seq<real>, a: seq<nat>)
    requires m >= 1 && w == Weights(m, 2 * m + 1) && a == Better(m, 2 * m + 1)
    ensures FitsIn(w, a, m, 3.0 * m as real)
  {
    forall p | 0 <= p < m ensures Load(w, a, p) <= 3.0 * m as real {
      BetterLoads(m, 2 * m + 1, p);
      BetterFits(m, p);
    }
  }

  lemma GreedyReaches(m: nat, w: seq<real>) returns (load: real)
    requires m >= 1 && w == Weights(m, 2 * m + 1)
    ensures load == Load(w, Greedy(w, m), 0) == (4 * m - 1) as real
  {
    var l := SecondRoundLoads(m, 2 * m);
    l := Place(m, 2 * m, 2 * m + 1, l, 0);
    load := Load(w, Greedy(w, m), 0);
  }

  lemma AtTheBound(m: nat, load: real)
    requires m >= 1 && load == (4 * m - 1) as real
    ensures 3.0 * m as real * load == (4.0 * m as real - 1.0) * (3.0 * m as real)
  {
    assert load == 4.0 * m as real - 1.0;
  }
}

/** The split of the destructive-schema suite: measured seconds per file as weights, the average for
    files that have none. */
module ShardDestructive {
  import opened Text
  import opened Lpt
  import opened Sorting
  import opened Shards

  /** A registered weight: seconds of a file. The registry is a dictionary, given as its entries. */
  datatype Weight = Weight(file: string, sec: real)

  function Lookup(weights: seq<Weight>, f: string): Option<real> {
    if weights == [] then None
    else if weights[0].file == f then Some(weights[0].sec)
    else Lookup(weights[1..], f)
  }

  function TotalSeconds(weights: seq<Weight>): real {
    if weights == [] then 0.0 else weights[0].sec + TotalSeconds(weights[1..])
  }

  function AverageWeight(weights: seq<Weight>): real {
    if weights == [] then 1.0 else TotalSeconds(weights) / |weights| as real
  }

  function WeightOr(weights: seq<Weight>, fallback: real, f: string): real {
    match Lookup(weights, f) case Some(sec) => sec case None => fallback
  }

  /** `weights.get(f, avg)`. */
  function WeightOf(weights: seq<Weight>): string -> real {
    var avg := AverageWeight(weights);
    f => WeightOr(weights, avg, f)
  }

  predicate HeavierFirst(w: string -> real, x: string, y: string) {
    w(x) >= w(y)
  }

  /** `sorted(files, key=..., reverse=True)`: heaviest first, equal weights in the given order. */
  function Ordered(files: seq<string>, weights: seq<Weight>): seq<string> {
    var w := WeightOf(weights);
    Sort((x, y) => HeavierFirst(w, x, y), files)
  }

  /** `None` is the `ValueError` for a shard count below one. */
  method Partition(files: seq<string>, weights: seq<Weight>, shardCount: int)
    returns (r: Option<(seq<Shard>, seq<real>)>)
    ensures shardCount < 1 ==> r == None
    ensures shardCount >= 1 ==>
      && r.Some?
      && r.value.0 == GreedySplit(Ordered(files, weights), WeightOf(weights), shardCount)
      && |r.value.1| == shardCount
      && forall p :: 0 <= p < shardCount ==> r.value.1[p] == ShardLoad(WeightOf(weights), r.value.0[p])
  {
    if shardCount < 1 {
      return None;
    }
    var o := Ordered(files, weights);
    ghost var w := WeightsOf(o, WeightOf(weights));
    var shards, totals := PlaceAll(o, weights, shardCount, w);
    TotalsAreLoads(o, WeightOf(weights), w, shardCount, shards, totals);
    return Some((shards, totals));
  }

  /** The loop over files that are already ordered. */
  method PlaceAll(o: seq<string>, weights: seq<Weight>, m: nat, ghost w: seq<real>)
    returns (shards: seq<Shard>, totals: seq<real>)
    requires m >= 1 && |w| == |o|
    requires forall j :: 0 <= j < |o| ==> w[j] == WeightOr(weights, AverageWeight(weights), o[j])
    ensures |shards| == |totals| == m
    ensures shards == SplitBy(o, Greedy(w, m), m) && totals == Loads(w, Greedy(w, m), m)
  {
    var avg := AverageWeight(weights);
    shards, totals := EmptyShards(m), NoTotals(m);
    NothingPlaced(o, w, m);
    var j := 0;
    while j < |o|
      invariant 0 <= j <= |o| && |totals| == |shards| == m
      invariant shards == ShardsUpTo(o, w, m, j)
      invariant totals == LoadsUpTo(w, m, j)
    {
      shards, totals := PlaceNext(o, w, m, j, j + 1, shards, totals, WeightOr(weights, avg, o[j]));
      j := j + 1;
    }
    AllPlaced(o, w, m);
  }

  /** One file goes to the shard that is lightest now. */
  method PlaceNext(o: seq<string>, ghost w: seq<real>, ghost m: nat, j: nat, ghost next: nat,
                   shards: seq<Shard>, totals: seq<real>, weight: real)
    returns (shards': seq<Shard>, totals': seq<real>)
    requires m >= 1 && |w| == |o| && j < |o| && next == j + 1 && |totals| == |shards| == m && weight == w[j]
    requires shards == ShardsUpTo(o, w, m, j) && totals == LoadsUpTo(w, m, j)
    ensures |totals'| == |shards'| == m && shards' == ShardsUpTo(o, w, m, next) && totals' == LoadsUpTo(w, m, next)
  {
    var i := LeastLoaded(totals);
    OneMoreFile(o, w, m, j, next, i, shards, totals);
    OneMoreLoad(w, m, j, next, i, totals);
    shards' := shards[i := shards[i] + [o[j]]];
    totals' := totals[i := totals[i] + weight];
  }

  lemma OneMoreFile(o: seq<string>, w: seq<real>, m: nat, j: nat, next: nat, i: nat, shards: seq<Shard>,
                    totals: seq<real>)
    requires m >= 1 && |w| == |o| && j < |o| && next == j + 1 && |totals| == |shards| == m
    requires shards == ShardsUpTo(o, w, m, j) && totals == LoadsUpTo(w, m, j) && i == LeastLoaded(totals)
    ensures shards[i := shards[i] + [o[j]]] == ShardsUpTo(o, w, m, next)
  {
    PlaceFile(o, w, m, j);
  }

  lemma OneMoreLoad(w: seq<real>, m: nat, j: nat, next: nat, i: nat, totals: seq<real>)
    requires m >= 1 && j < |w| && next == j + 1 && |totals| == m
    requires totals == LoadsUpTo(w, m, j) && i == LeastLoaded(totals)
    ensures totals[i := totals[i] + w[j]] == LoadsUpTo(w, m, next)
  {
    PlaceLoad(w, m, j);
  }

  lemma TotalsAreLoads(o: seq<string>, weight: string -> real, w: seq<real>, m: nat, shards: seq<Shard>,
                       totals: seq<real>)
    requires m >= 1 && w == WeightsOf(o, weight) && |shards| == |totals| == m
    requires shards == SplitBy(o, Greedy(w, m), m) && totals == Loads(w, Greedy(w, m), m)
    ensures shards == GreedySplit(o, weight, m)
    ensures forall p :: 0 <= p < m ==> totals[p] == ShardLoad(weight, shards[p])
  {
    forall p | 0 <= p < m ensures totals[p] == ShardLoad(weight, shards[p]) {
      MembersLoad(o, Greedy(w, m), weight, p);
    }
  }

  function NoTotals(m: nat): (r: seq<real>)
    ensures |r| == m && forall p :: 0 <= p < m ==> r[p] == 0.0
  {
    seq(m, _ => 0.0)
  }

  // ---------- the weights ----------

  /** One entry per file, as in a dictionary. */
  ghost predicate DistinctFiles(weights: seq<Weight>) {
    forall i, j :: 0 <= i < j < |weights| ==> weights[i].file != weights[j].file
  }

  /** A registered file weighs the seconds of its entry. */
  lemma {:induction false} RegisteredWeight(weights: seq<Weight>, i: nat)
    requires DistinctFiles(weights) && i < |weights|
    ensures WeightOf(weights)(weights[i].file) == weights[i].sec
  {
    LookupAt(weights, i);
  }

  lemma {:induction false} LookupAt(weights: seq<Weight>, i: nat)
    requires DistinctFiles(weights) && i < |weights|
    ensures Lookup(weights, weights[i].file) == Some(weights[i].sec)
  {
    if i > 0 {
      assert weights[0].file != weights[i].file;
      assert DistinctFiles(weights[1..]);
      LookupAt(weights[1..], i - 1);
    }
  }

  /** Any other file weighs the mean: as many of it as there are entries make up their sum; one second when there
      are none. */
  lemma UnregisteredWeight(weights: seq<Weight>, f: string)
    requires forall i :: 0 <= i < |weights| ==> weights[i].file != f
    ensures WeightOf(weights)(f) * |weights| as real == SumOf((w: Weight) => w.sec, weights)
    ensures weights == [] ==> WeightOf(weights)(f) == 1.0
  {
    NotFound(weights, f);
    TotalIsSum(weights);
    MeanTimesCount(weights);
  }

  lemma MeanTimesCount(weights: seq<Weight>)
    ensures AverageWeight(weights) * |weights| as real == TotalSeconds(weights)
  {
    if weights != [] {
      var n := |weights| as real;
      QuotientTimes(TotalSeconds(weights), n);
    }
  }

  lemma QuotientTimes(x: real, n: real)
    requires n > 0.0
    ensures x / n * n == x
  {
  }

  lemma {:induction false} NotFound(weights: seq<Weight>, f: string)
    requires forall i :: 0 <= i < |weights| ==> weights[i].file != f
    ensures Lookup(weights, f) == None
  {
    if weights != [] { NotFound(weights[1..], f); }
  }

  lemma {:induction false} TotalIsSum(weights: seq<Weight>)
    ensures TotalSeconds(weights) == SumOf((w: Weight) => w.sec, weights)
  {
    if weights != [] { TotalIsSum(weights[1..]); }
  }

  /** Heaviest first, and files of equal weight in the order they were given: each file stands behind the heavier
      ones and the equally heavy ones given before it. */
  lemma OrderedPlaces(files: seq<string>, weights: seq<Weight>, i: nat)
    requires i < |files|
    ensures Heavier(files, WeightOf(weights), i, 0) < |files|
    ensures Ordered(files, weights)[Heavier(files, WeightOf(weights), i, 0)] == files[i]
  {
    var w := WeightOf(weights);
    var le := (x, y) => HeavierFirst(w, x, y);
    assert TotalPreorder(le);
    SortPlaces(le, files, i);
    RankIsHeavier(files, w, le, i, 0);
    assert files[0..] == files;
  }

  /** How many files from the `j`-th on stand before file `i`. */
  function Heavier(files: seq<string>, w: string -> real, i: nat, j: nat): nat
    requires i < |files| && j <= |files|
    decreases |files| - j
  {
    if j == |files| then 0
    else
      (if w(files[j]) > w(files[i]) || (w(files[j]) == w(files[i]) && j < i) then 1 else 0)
      + Heavier(files, w, i, j + 1)
  }

  lemma {:induction false} RankIsHeavier(files: seq<string>, w: string -> real, le: (string, string) -> bool,
                                         i: nat, j: nat)
    requires j <= i < |files| && forall x, y :: le(x, y) <==> w(x) >= w(y)
    ensures Rank(le, files[j..], i - j) == Heavier(files, w, i, j)
    decreases i - j
  {
    var rest := files[j..];
    assert rest[0] == files[j] && rest[i - j] == files[i] && rest[1..] == files[j + 1..];
    if j == i {
      CountIsHeavier(files, w, le, i, i + 1);
    } else {
      RankIsHeavier(files, w, le, i, j + 1);
    }
  }

  lemma {:induction false} CountIsHeavier(files: seq<string>, w: string -> real, le: (string, string) -> bool,
                                          i: nat, j: nat)
    requires i < |files| && i < j <= |files| && forall x, y :: le(x, y) <==> w(x) >= w(y)
    ensures CountBefore(le, files[j..], files[i]) == Heavier(files, w, i, j)
    decreases |files| - j
  {
    if j < |files| {
      CountIsHeavier(files, w, le, i, j + 1);
      assert files[j..][1..] == files[j + 1..] && files[j..][0] == files[j];
    }
  }

  // ---------- what the split guarantees ----------

  ghost predicate NonNegativeWeights(weights: seq<Weight>) {
    forall i :: 0 <= i < |weights| ==> weights[i].sec >= 0.0
  }

  lemma {:induction false} TotalNonNegative(weights: seq<Weight>)
    requires NonNegativeWeights(weights)
    ensures TotalSeconds(weights) >= 0.0
  {
    if weights != [] { TotalNonNegative(weights[1..]); }
  }

  lemma {:induction false} LookupNonNegative(weights: seq<Weight>, f: string)
    requires NonNegativeWeights(weights)
    ensures Lookup(weights, f).Some? ==> Lookup(weights, f).value >= 0.0
  {
    if weights != [] { LookupNonNegative(weights[1..], f); }
  }

  lemma OrderedIsDescending(files: seq<string>, weights: seq<Weight>)
    requires NonNegativeWeights(weights)
    ensures var w := WeightsOf(Ordered(files, weights), WeightOf(weights));
            Descending(w) && NonNegative(w)
    ensures multiset(Ordered(files, weights)) == multiset(files)
  {
    var w := WeightOf(weights);
    var le := (x, y) => HeavierFirst(w, x, y);
    assert TotalPreorder(le);
    SortSorted(le, files);
    SortMultiset(le, files);
    TotalNonNegative(weights);
    var o := Ordered(files, weights);
    forall i | 0 <= i < |o| ensures w(o[i]) >= 0.0 {
      LookupNonNegative(weights, o[i]);
    }
    forall i, j | 0 <= i <= j < |o| ensures w(o[i]) >= w(o[j]) {
      assert i < j ==> le(o[i], o[j]);
    }
  }

  /** Lossless for any input, duplicates in the file list included. */
  lemma PartitionIsLossless(files: seq<string>, weights: seq<Weight>, m: nat)
    requires m >= 1
    ensures multiset(Flatten(GreedySplit(Ordered(files, weights), WeightOf(weights), m))) == multiset(files)
  {
    var o, w := Ordered(files, weights), WeightOf(weights);
    SortMultiset((x, y) => HeavierFirst(w, x, y), files);
    SplitIsLossless(o, Greedy(WeightsOf(o, w), m), m);
  }

  /** Against every other split of the same files into as many shards. */
  lemma PartitionWithinFourThirds(files: seq<string>, weights: seq<Weight>, other: seq<Shard>, b: real, p: nat)
    requires NonNegativeWeights(weights) && |other| >= 1 && p < |other|
    requires multiset(Flatten(other)) == multiset(files)
    requires forall q :: 0 <= q < |other| ==> ShardLoad(WeightOf(weights), other[q]) <= b
    ensures var s := GreedySplit(Ordered(files, weights), WeightOf(weights), |other|);
            WithinFourThirds(ShardLoad(WeightOf(weights), s[p]), b, |other|)
  {
    OrderedIsDescending(files, weights);
    GreedySplitWithinFourThirds(Ordered(files, weights), WeightOf(weights), other, b, p);
  }

  /** Two shards differ by at most the heaviest file, files without a weight counted at the average. */
  lemma PartitionSpread(files: seq<string>, weights: seq<Weight>, m: nat, heaviest: real, p: nat, q: nat)
    requires NonNegativeWeights(weights) && m >= 1 && p < m && q < m && heaviest >= 0.0
    requires forall f :: f in files ==> WeightOf(weights)(f) <= heaviest
    ensures var s := GreedySplit(Ordered(files, weights), WeightOf(weights), m);
            ShardLoad(WeightOf(weights), s[p]) - ShardLoad(WeightOf(weights), s[q]) <= heaviest
  {
    var o, w := Ordered(files, weights), WeightOf(weights);
    OrderedIsDescending(files, weights);
    forall i | 0 <= i < |o| ensures 0.0 <= w(o[i]) <= heaviest {
      assert o[i] in multiset(o) && WeightsOf(o, w)[i] >= 0.0;
    }
    GreedySplitSpread(o, w, m, heaviest, p, q);
  }
}

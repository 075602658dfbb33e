/** Splits of a list of files into shards, and what the greedy assignment means for them: nothing
    lost, nothing duplicated, and loads close to those of any other split. */
module Shards {
  import opened Lpt
  import opened Sorting

  type Shard = seq<string>

  function WeightsOf(files: seq<string>, w: string -> real): (r: seq<real>)
    ensures |r| == |files|
    ensures forall i :: 0 <= i < |files| ==> r[i] == w(files[i])
  {
    seq(|files|, i requires 0 <= i < |files| => w(files[i]))
  }

  /** The files that assignment `a` gives to shard `p`, in order. */
  function Members(files: seq<string>, a: seq<nat>, p: nat): Shard
    requires |a| == |files|
  {
    if files == [] then []
    else
      var n := |files| - 1;
      Members(files[..n], a[..n], p) + if a[n] == p then [files[n]] else []
  }

  function SplitBy(files: seq<string>, a: seq<nat>, m: nat): (r: seq<Shard>)
    requires |a| == |files|
    ensures |r| == m
    ensures forall p :: 0 <= p < m ==> r[p] == Members(files, a, p)
  {
    seq(m, p requires 0 <= p < m => Members(files, a, p))
  }

  /** The greedy split of files that are already in the order they are assigned. */
  function GreedySplit(files: seq<string>, w: string -> real, m: nat): (r: seq<Shard>)
    requires m >= 1
    ensures |r| == m
  {
    SplitBy(files, Greedy(WeightsOf(files, w), m), m)
  }

  function Flatten(shards: seq<Shard>): seq<string> {
    if shards == [] then [] else Flatten(shards[..|shards| - 1]) + shards[|shards| - 1]
  }

  function ShardLoad(w: string -> real, shard: Shard): real {
    SumOf(w, shard)
  }

  // ---------- one step of the greedy loop ----------

  /** Shards and loads after the first `j` files. */
  function ShardsUpTo(files: seq<string>, w: seq<real>, m: nat, j: nat): (r: seq<Shard>)
    requires |w| == |files| && j <= |files| && m >= 1
    ensures |r| == m
  {
    SplitBy(files[..j], Greedy(w[..j], m), m)
  }

  function LoadsUpTo(w: seq<real>, m: nat, j: nat): (r: seq<real>)
    requires j <= |w| && m >= 1
    ensures |r| == m
  {
    Loads(w[..j], Greedy(w[..j], m), m)
  }

  /** `[[] for _ in range(m)]`. */
  function EmptyShards(m: nat): (r: seq<Shard>)
    ensures |r| == m && forall p :: 0 <= p < m ==> r[p] == []
  {
    seq(m, _ => [])
  }

  lemma NothingPlaced(files: seq<string>, w: seq<real>, m: nat)
    requires |w| == |files| && m >= 1
    ensures ShardsUpTo(files, w, m, 0) == EmptyShards(m)
    ensures forall p :: 0 <= p < m ==> LoadsUpTo(w, m, 0)[p] == 0.0
  {
  }

  lemma AllPlaced(files: seq<string>, w: seq<real>, m: nat)
    requires |w| == |files| && m >= 1
    ensures ShardsUpTo(files, w, m, |files|) == SplitBy(files, Greedy(w, m), m)
    ensures LoadsUpTo(w, m, |w|) == Loads(w, Greedy(w, m), m)
  {
    assert w[..|w|] == w && files[..|files|] == files;
  }

  /** The greedy assignment grows by one entry per file. */
  lemma GreedyPrefix(w: seq<real>, m: nat, j: nat, next: nat) returns (a: seq<nat>, i: nat)
    requires j < |w| && m >= 1 && next == j + 1
    ensures a == Greedy(w[..j], m) && i == LeastLoaded(LoadsUpTo(w, m, j)) && i < m
    ensures Greedy(w[..next], m) == a + [i]
  {
    a, i := Greedy(w[..j], m), LeastLoaded(LoadsUpTo(w, m, j));
    assert w[..next][..j] == w[..j];
    GreedyStep(w[..next], m);
  }

  lemma TakeOneMore<T>(s: seq<T>, j: nat, next: nat)
    requires j < |s| && next == j + 1
    ensures s[..next] == s[..j] + [s[j]]
  {
  }

  /** Placing file `j`: it goes to the least loaded shard, and only that shard changes. */
  lemma PlaceFile(files: seq<string>, w: seq<real>, m: nat, j: nat)
    requires |w| == |files| && j < |files| && m >= 1
    ensures var i := LeastLoaded(LoadsUpTo(w, m, j));
            var s := ShardsUpTo(files, w, m, j);
            ShardsUpTo(files, w, m, j + 1) == s[i := s[i] + [files[j]]]
  {
    var next := j + 1;
    var a, i := GreedyPrefix(w, m, j, next);
    TakeOneMore(files, j, next);
    SplitSnoc(files[..j], files[j], a, i, m);
  }

  lemma SplitSnoc(files: seq<string>, f: string, a: seq<nat>, i: nat, m: nat)
    requires |a| == |files| && i < m
    ensures var s := SplitBy(files, a, m);
            SplitBy(files + [f], a + [i], m) == s[i := s[i] + [f]]
  {
    var s, s' := SplitBy(files, a, m), SplitBy(files + [f], a + [i], m);
    forall p | 0 <= p < m ensures s'[p] == if p == i then s[p] + [f] else s[p] {
      MembersSnoc(files, f, a, i, p);
    }
  }

  lemma MembersSnoc(files: seq<string>, f: string, a: seq<nat>, i: nat, p: nat)
    requires |a| == |files|
    ensures Members(files + [f], a + [i], p) == Members(files, a, p) + if i == p then [f] else []
  {
    assert (files + [f])[..|files|] == files && (a + [i])[..|files|] == a;
  }

  lemma PlaceLoad(w: seq<real>, m: nat, j: nat)
    requires j < |w| && m >= 1
    ensures var l := LoadsUpTo(w, m, j);
            var i := LeastLoaded(l);
            LoadsUpTo(w, m, j + 1) == l[i := l[i] + w[j]]
  {
    var next := j + 1;
    var a, i := GreedyPrefix(w, m, j, next);
    TakeOneMore(w, j, next);
    LoadsSnoc(w[..j], w[j], a, i, m);
  }

  lemma LoadsSnoc(w: seq<real>, x: real, a: seq<nat>, i: nat, m: nat)
    requires |a| == |w| && i < m
    ensures var l := Loads(w, a, m);
            Loads(w + [x], a + [i], m) == l[i := l[i] + x]
  {
    var l, l' := Loads(w, a, m), Loads(w + [x], a + [i], m);
    forall p | 0 <= p < m ensures l'[p] == if p == i then l[p] + x else l[p] {
      LoadSnoc(w, x, a, i, p);
    }
  }

  // ---------- nothing lost, nothing twice ----------

  lemma {:induction false} FlattenOfEmpties(shards: seq<Shard>)
    requires forall p :: 0 <= p < |shards| ==> shards[p] == []
    ensures Flatten(shards) == []
  {
    if shards != [] { FlattenOfEmpties(shards[..|shards| - 1]); }
  }

  /** Every file is in exactly one shard, as often as it was in the list. */
  lemma {:induction false} SplitIsLossless(files: seq<string>, a: seq<nat>, m: nat)
    requires IsAssignment(a, |files|, m)
    ensures multiset(Flatten(SplitBy(files, a, m))) == multiset(files)
  {
    if files == [] {
      FlattenOfEmpties(SplitBy(files, a, m));
    } else {
      var n := |files| - 1;
      var u, f, b, i := files[..n], files[n], a[..n], a[n];
      SplitIsLossless(u, b, m);
      assert files == u + [f] && a == b + [i];
      SplitSnoc(u, f, b, i, m);
      OneMoreFile(SplitBy(u, b, m), i, f);
    }
  }

  lemma OneMoreFile(shards: seq<Shard>, i: nat, f: string)
    requires i < |shards|
    ensures multiset(Flatten(shards[i := shards[i] + [f]])) == multiset(Flatten(shards)) + multiset{f}
  {
    var more := shards[i := shards[i] + [f]];
    FlattenUpdate(more, i, shards[i], f);
    assert more[i := shards[i]] == shards;
  }

  /** The load of a shard is the sum of the weights of its files. */
  lemma {:induction false} MembersLoad(files: seq<string>, a: seq<nat>, w: string -> real, p: nat)
    requires |a| == |files|
    ensures ShardLoad(w, Members(files, a, p)) == Load(WeightsOf(files, w), a, p)
  {
    if files != [] {
      var n := |files| - 1;
      MembersLoad(files[..n], a[..n], w, p);
      assert WeightsOf(files, w)[..n] == WeightsOf(files[..n], w);
      var more := if a[n] == p then [files[n]] else [];
      SumConcat(w, Members(files[..n], a[..n], p), more);
      assert more != [] ==> more[1..] == [];
    }
  }

  // ---------- any other split is an assignment ----------

  lemma {:induction false} FlattenUpdate(shards: seq<Shard>, p: nat, s: Shard, x: string)
    requires p < |shards| && multiset(shards[p]) == multiset(s) + multiset{x}
    ensures multiset(Flatten(shards)) == multiset(Flatten(shards[p := s])) + multiset{x}
  {
    var n := |shards| - 1;
    if p < n {
      FlattenUpdate(shards[..n], p, s, x);
      assert shards[p := s][..n] == shards[..n][p := s];
    } else {
      assert shards[p := s][..n] == shards[..n];
    }
  }

  lemma {:induction false} FindInShards(shards: seq<Shard>, x: string) returns (p: nat, i: nat)
    requires x in Flatten(shards)
    ensures p < |shards| && i < |shards[p]| && shards[p][i] == x
  {
    var n := |shards| - 1;
    if x in shards[n] {
      p := n;
      i :| 0 <= i < |shards[n]| && shards[n][i] == x;
    } else {
      p, i := FindInShards(shards[..n], x);
    }
  }

  lemma {:induction false} FlattenEmpty(shards: seq<Shard>, p: nat)
    requires p < |shards| && Flatten(shards) == []
    ensures shards[p] == []
  {
    if p < |shards| - 1 { FlattenEmpty(shards[..|shards| - 1], p); }
  }

  lemma Cancel(a: multiset<string>, b: multiset<string>, x: string)
    requires a + multiset{x} == b + multiset{x}
    ensures a == b
  {
    assert a == (a + multiset{x}) - multiset{x};
    assert b == (b + multiset{x}) - multiset{x};
  }

  /** Take the last file out of the shard that holds it. */
  lemma TakeLast(files: seq<string>, other: seq<Shard>) returns (p: nat, less: seq<Shard>)
    requires files != [] && multiset(Flatten(other)) == multiset(files)
    ensures p < |other| == |less|
    ensures multiset(other[p]) == multiset(less[p]) + multiset{files[|files| - 1]}
    ensures forall q :: 0 <= q < |other| && q != p ==> less[q] == other[q]
    ensures multiset(Flatten(less)) == multiset(files[..|files| - 1])
  {
    var n, x := |files| - 1, files[|files| - 1];
    assert files == files[..n] + [x];
    assert x in multiset(Flatten(other));
    var i;
    p, i := FindInShards(other, x);
    var s := Without(other[p], i);
    MultisetWithout(other[p], i);
    FlattenUpdate(other, p, s, x);
    less := other[p := s];
    Cancel(multiset(Flatten(less)), multiset(files[..n]), x);
  }

  /** Any split of the same files, in whatever order, gives each file a shard. */
  lemma {:induction false} SplitAsAssignment(files: seq<string>, other: seq<Shard>) returns (a: seq<nat>)
    requires multiset(Flatten(other)) == multiset(files)
    ensures IsAssignment(a, |files|, |other|)
    ensures forall p :: 0 <= p < |other| ==> multiset(Members(files, a, p)) == multiset(other[p])
    decreases |files|
  {
    if files == [] {
      a := [];
      assert |multiset(Flatten(other))| == 0;
      forall p | 0 <= p < |other| ensures multiset(Members(files, a, p)) == multiset(other[p]) {
        FlattenEmpty(other, p);
      }
    } else {
      var n, x := |files| - 1, files[|files| - 1];
      var p, less := TakeLast(files, other);
      var a' := SplitAsAssignment(files[..n], less);
      a := ExtendAssignment(files, other, less, a', p, x);
    }
  }

  lemma ExtendAssignment(files: seq<string>, other: seq<Shard>, less: seq<Shard>, a': seq<nat>, p: nat, x: string)
    returns (a: seq<nat>)
    requires |files| > 0 && files[|files| - 1] == x && p < |other| == |less|
    requires multiset(other[p]) == multiset(less[p]) + multiset{x}
    requires forall q :: 0 <= q < |other| && q != p ==> less[q] == other[q]
    requires IsAssignment(a', |files| - 1, |other|)
    requires forall q :: 0 <= q < |other| ==> multiset(Members(files[..|files| - 1], a', q)) == multiset(less[q])
    ensures IsAssignment(a, |files|, |other|)
    ensures forall q :: 0 <= q < |other| ==> multiset(Members(files, a, q)) == multiset(other[q])
  {
    var n := |files| - 1;
    a := a' + [p];
    assert a[..n] == a';
    forall q | 0 <= q < |other| ensures multiset(Members(files, a, q)) == multiset(other[q]) {
      var before := Members(files[..n], a', q);
      assert Members(files, a, q) == before + if p == q then [x] else [];
    }
  }

  // ---------- the greedy split against any other ----------

  lemma LoadsOfAssignment(files: seq<string>, w: string -> real, other: seq<Shard>, a: seq<nat>, b: real)
    requires |a| == |files|
    requires forall p :: 0 <= p < |other| ==> multiset(Members(files, a, p)) == multiset(other[p])
    requires forall p :: 0 <= p < |other| ==> ShardLoad(w, other[p]) <= b
    ensures FitsIn(WeightsOf(files, w), a, |other|, b)
  {
    forall p | 0 <= p < |other| ensures Load(WeightsOf(files, w), a, p) <= b {
      MembersLoad(files, a, w, p);
      SumPermuted(w, Members(files, a, p), other[p]);
    }
  }

  /** For every other split of the same files into as many shards: if its shards carry at most `b`,
      each greedy shard carries at most `(4/3 - 1/(3m)) * b`. */
  lemma GreedySplitWithinFourThirds(files: seq<string>, w: string -> real, other: seq<Shard>, b: real, p: nat)
    requires |other| >= 1 && p < |other|
    requires NonNegative(WeightsOf(files, w)) && Descending(WeightsOf(files, w))
    requires multiset(Flatten(other)) == multiset(files)
    requires forall q :: 0 <= q < |other| ==> ShardLoad(w, other[q]) <= b
    ensures WithinFourThirds(ShardLoad(w, GreedySplit(files, w, |other|)[p]), b, |other|)
  {
    var m := |other|;
    var weights := WeightsOf(files, w);
    var a := SplitAsAssignment(files, other);
    LoadsOfAssignment(files, w, other, a, b);
    GreedyWithinFourThirds(weights, a, m, b, p);
    MembersLoad(files, Greedy(weights, m), w, p);
  }

  /** Two greedy shards differ by at most the heaviest file. */
  lemma GreedySplitSpread(files: seq<string>, w: string -> real, m: nat, x: real, p: nat, q: nat)
    requires m >= 1 && p < m && q < m && x >= 0.0
    requires forall i :: 0 <= i < |files| ==> 0.0 <= w(files[i]) <= x
    ensures ShardLoad(w, GreedySplit(files, w, m)[p]) - ShardLoad(w, GreedySplit(files, w, m)[q]) <= x
  {
    var weights := WeightsOf(files, w);
    GreedySpread(weights, m, x, p, q);
    MembersLoad(files, Greedy(weights, m), w, p);
    MembersLoad(files, Greedy(weights, m), w, q);
  }
}

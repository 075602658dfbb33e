/** The split of the non-destructive test suite: `partition` and `verify_partition`. The collected
    counts are a dictionary, given here as its entries in enumeration order. */
module ShardNondestructive {
  import opened Text
  import opened Lpt
  import opened Sorting
  import opened Shards

  /** A test file and the number of tests collected from it. */
  datatype Item = Item(name: string, tests: nat)

  function Names(items: seq<Item>): (r: seq<string>)
    ensures |r| == |items|
    ensures forall i :: 0 <= i < |items| ==> r[i] == items[i].name
  {
    seq(|items|, i requires 0 <= i < |items| => items[i].name)
  }

  /** A dictionary: every file once. */
  ghost predicate IsDict(items: seq<Item>) {
    NoDuplicates(Names(items))
  }

  /** `counts.get(f, 0)`. */
  function CountOf(items: seq<Item>, f: string): nat {
    if items == [] then 0 else if items[0].name == f then items[0].tests else CountOf(items[1..], f)
  }

  /** A file that was not collected counts for nothing. */
  lemma {:induction false} UnknownCountsNothing(items: seq<Item>, f: string)
    requires forall i :: 0 <= i < |items| ==> items[i].name != f
    ensures CountOf(items, f) == 0
  {
    if items != [] { UnknownCountsNothing(items[1..], f); }
  }

  function TestsIn(items: seq<Item>): string -> real {
    f => CountOf(items, f) as real
  }

  /** Heaviest first, ties by name: `sorted(..., key=lambda kv: (-kv[1], kv[0]))`. */
  predicate HeavierFirst(x: Item, y: Item) {
    x.tests > y.tests || (x.tests == y.tests && NameLe(x.name, y.name))
  }

  lemma HeavierFirstIsAnOrder()
    ensures TotalPreorder(HeavierFirst) && Antisymmetric(HeavierFirst)
  {
    forall x, y ensures HeavierFirst(x, y) || HeavierFirst(y, x) { NameTotal(x.name, y.name); }
    forall x, y, z ensures HeavierFirst(x, y) && HeavierFirst(y, z) ==> HeavierFirst(x, z) {
      NameTransitive(x.name, y.name, z.name);
    }
    forall x, y ensures HeavierFirst(x, y) && HeavierFirst(y, x) ==> x == y { NameAntisymmetric(x.name, y.name); }
  }

  function Ordered(items: seq<Item>): seq<Item> {
    Sort(HeavierFirst, items)
  }

  /** The files are placed with most tests first, and files with as many tests in the order of their names. */
  lemma OrderedByTestsThenName(items: seq<Item>, i: nat, j: nat)
    requires i < j < |items|
    ensures multiset(Ordered(items)) == multiset(items) && |Ordered(items)| == |items|
    ensures var o := Ordered(items);
            o[i].tests > o[j].tests || (o[i].tests == o[j].tests && NameLe(o[i].name, o[j].name))
  {
    HeavierFirstIsAnOrder();
    SortSorted(HeavierFirst, items);
    SortMultiset(HeavierFirst, items);
  }

  function TestCounts(items: seq<Item>): (r: seq<real>)
    ensures |r| == |items|
    ensures forall i :: 0 <= i < |items| ==> r[i] == items[i].tests as real
  {
    seq(|items|, i requires 0 <= i < |items| => items[i].tests as real)
  }

  /** The plan `partition` computes: the greedy shards, each sorted by name. */
  function Plan(items: seq<Item>, m: nat): (r: seq<Shard>)
    requires m >= 1
    ensures |r| == m
  {
    var o := Ordered(items);
    var split := SplitBy(Names(o), Greedy(TestCounts(o), m), m);
    seq(m, p requires 0 <= p < m => Sort(NameLe, split[p]))
  }

  function AsReals(loads: seq<nat>): (r: seq<real>)
    ensures |r| == |loads|
    ensures forall i :: 0 <= i < |loads| ==> r[i] == loads[i] as real
  {
    seq(|loads|, i requires 0 <= i < |loads| => loads[i] as real)
  }

  /** The assignment loop, over items that are already ordered. */
  method AssignAll(o: seq<Item>, m: nat) returns (shards: seq<Shard>)
    requires m >= 1
    ensures shards == SplitBy(Names(o), Greedy(TestCounts(o), m), m)
  {
    var loads: seq<nat> := NoLoads(m);
    shards := EmptyShards(m);
    ghost var names, w := Names(o), TestCounts(o);
    NothingPlaced(names, w, m);
    assert AsReals(loads) == LoadsUpTo(w, m, 0);
    var j := 0;
    while j < |o|
      invariant 0 <= j <= |o| && |loads| == |shards| == m
      invariant shards == ShardsUpTo(names, w, m, j)
      invariant AsReals(loads) == LoadsUpTo(w, m, j)
    {
      var i := LeastLoaded(AsReals(loads));
      OneMorePlaced(o, names, w, m, j, j + 1, i, shards, loads);
      shards := shards[i := shards[i] + [o[j].name]];
      loads := loads[i := loads[i] + o[j].tests];
      j := j + 1;
    }
    AllPlaced(names, w, m);
  }

  lemma OneMorePlaced(o: seq<Item>, names: seq<string>, w: seq<real>, m: nat, j: nat, next: nat, i: nat,
                      shards: seq<Shard>, loads: seq<nat>)
    requires m >= 1 && names == Names(o) && w == TestCounts(o) && j < |o| && next == j + 1
    requires |loads| == |shards| == m && shards == ShardsUpTo(names, w, m, j) && AsReals(loads) == LoadsUpTo(w, m, j)
    requires i == LeastLoaded(AsReals(loads))
    ensures shards[i := shards[i] + [o[j].name]] == ShardsUpTo(names, w, m, next)
    ensures AsReals(loads[i := loads[i] + o[j].tests]) == LoadsUpTo(w, m, next)
  {
    PlaceFile(names, w, m, j);
    PlaceLoad(w, m, j);
    AddLoad(loads, i, o[j].tests);
  }

  /** `[0] * m`. */
  function NoLoads(m: nat): (r: seq<nat>)
    ensures |r| == m && forall p :: 0 <= p < m ==> r[p] == 0
  {
    seq(m, _ => 0)
  }

  lemma AddLoad(loads: seq<nat>, i: nat, t: nat)
    requires i < |loads|
    ensures AsReals(loads[i := loads[i] + t]) == AsReals(loads)[i := AsReals(loads)[i] + t as real]
  {
  }

  /** `None` is the `ValueError` for a shard count below one. */
  method Partition(items: seq<Item>, shardCount: int) returns (r: Option<seq<Shard>>)
    ensures shardCount < 1 ==> r == None
    ensures shardCount >= 1 ==> r == Some(Plan(items, shardCount))
  {
    if shardCount < 1 {
      return None;
    }
    var shards := AssignAll(Ordered(items), shardCount);
    var sorted := seq(shardCount, p requires 0 <= p < shardCount => Sort(NameLe, shards[p]));
    return Some(sorted);
  }

  // ---------- the split is a function of the collected counts alone ----------

  /** Any enumeration order of the same counts yields the identical plan. */
  lemma PlanIgnoresEnumeration(items: seq<Item>, items': seq<Item>, m: nat)
    requires m >= 1 && multiset(items) == multiset(items')
    ensures Plan(items, m) == Plan(items', m)
  {
    HeavierFirstIsAnOrder();
    SortSorted(HeavierFirst, items);
    SortSorted(HeavierFirst, items');
    SortMultiset(HeavierFirst, items);
    SortMultiset(HeavierFirst, items');
    SortedIsUnique(HeavierFirst, Ordered(items), Ordered(items'));
  }

  // ---------- lossless ----------

  lemma {:induction false} NamesMultiset(s: seq<Item>, t: seq<Item>)
    requires multiset(s) == multiset(t)
    ensures multiset(Names(s)) == multiset(Names(t))
    decreases |s|
  {
    if s == [] {
      assert |multiset(t)| == 0;
    } else {
      assert s[0] in multiset(t);
      var i :| 0 <= i < |t| && t[i] == s[0];
      MultisetWithout(s, 0);
      MultisetWithout(t, i);
      assert multiset(Without(s, 0)) == multiset(s) - multiset{s[0]} == multiset(Without(t, i));
      NamesMultiset(Without(s, 0), Without(t, i));
      NamesWithout(s, 0);
      NamesWithout(t, i);
      MultisetWithout(Names(s), 0);
      MultisetWithout(Names(t), i);
    }
  }

  lemma NamesWithout(s: seq<Item>, i: nat)
    requires i < |s|
    ensures Names(Without(s, i)) == Without(Names(s), i)
  {
  }

  lemma {:induction false} FlattenSorted(a: seq<Shard>, b: seq<Shard>)
    requires |a| == |b| && forall p :: 0 <= p < |a| ==> multiset(a[p]) == multiset(b[p])
    ensures multiset(Flatten(a)) == multiset(Flatten(b))
  {
    if a != [] {
      var n := |a| - 1;
      FlattenSorted(a[..n], b[..n]);
    }
  }

  /** Every collected file is in exactly one shard of the plan. */
  lemma PlanIsLossless(items: seq<Item>, m: nat)
    requires m >= 1
    ensures multiset(Flatten(Plan(items, m))) == multiset(Names(items))
  {
    var o := Ordered(items);
    var a := Greedy(TestCounts(o), m);
    var split := SplitBy(Names(o), a, m);
    forall p | 0 <= p < m ensures multiset(Plan(items, m)[p]) == multiset(split[p]) {
      SortMultiset(NameLe, split[p]);
    }
    FlattenSorted(Plan(items, m), split);
    SplitIsLossless(Names(o), a, m);
    SortMultiset(HeavierFirst, items);
    NamesMultiset(o, items);
  }

  // ---------- balance ----------

  lemma {:induction false} CountOfMember(items: seq<Item>, i: nat)
    requires IsDict(items) && i < |items|
    ensures CountOf(items, items[i].name) == items[i].tests
  {
    if i > 0 {
      assert Names(items)[0] != Names(items)[i];
      assert Names(items[1..]) == Names(items)[1..];
      CountOfMember(items[1..], i - 1);
    }
  }

  lemma OrderedWeights(items: seq<Item>)
    requires IsDict(items)
    ensures var o := Ordered(items);
            && TestCounts(o) == WeightsOf(Names(o), TestsIn(items))
            && Descending(TestCounts(o)) && NonNegative(TestCounts(o))
  {
    var o := Ordered(items);
    HeavierFirstIsAnOrder();
    SortSorted(HeavierFirst, items);
    SortMultiset(HeavierFirst, items);
    forall i | 0 <= i < |o| ensures TestCounts(o)[i] == WeightsOf(Names(o), TestsIn(items))[i] {
      assert o[i] in multiset(items);
      var k :| 0 <= k < |items| && items[k] == o[i];
      CountOfMember(items, k);
    }
  }

  lemma PlanLoad(items: seq<Item>, m: nat, p: nat)
    requires IsDict(items) && m >= 1 && p < m
    ensures ShardLoad(TestsIn(items), Plan(items, m)[p]) ==
            ShardLoad(TestsIn(items), GreedySplit(Names(Ordered(items)), TestsIn(items), m)[p])
  {
    OrderedWeights(items);
    var o := Ordered(items);
    var s := Members(Names(o), Greedy(TestCounts(o), m), p);
    SortMultiset(NameLe, s);
    SumPermuted(TestsIn(items), Sort(NameLe, s), s);
  }

  /** No split of the same files into as many shards has a largest load below
      `1 / (4/3 - 1/(3m))` of the plan's. */
  lemma PlanWithinFourThirds(items: seq<Item>, other: seq<Shard>, b: real, p: nat)
    requires IsDict(items) && |other| >= 1 && p < |other|
    requires multiset(Flatten(other)) == multiset(Names(items))
    requires forall q :: 0 <= q < |other| ==> ShardLoad(TestsIn(items), other[q]) <= b
    ensures WithinFourThirds(ShardLoad(TestsIn(items), Plan(items, |other|)[p]), b, |other|)
  {
    OrderedWeights(items);
    PlanLoad(items, |other|, p);
    SortMultiset(HeavierFirst, items);
    NamesMultiset(Ordered(items), items);
    GreedySplitWithinFourThirds(Names(Ordered(items)), TestsIn(items), other, b, p);
  }

  /** Two shards differ by at most the tests of the largest file. */
  lemma PlanSpread(items: seq<Item>, m: nat, largest: nat, p: nat, q: nat)
    requires IsDict(items) && m >= 1 && p < m && q < m
    requires forall i :: 0 <= i < |items| ==> items[i].tests <= largest
    ensures ShardLoad(TestsIn(items), Plan(items, m)[p]) - ShardLoad(TestsIn(items), Plan(items, m)[q])
            <= largest as real
  {
    OrderedWeights(items);
    PlanLoad(items, m, p);
    PlanLoad(items, m, q);
    var o := Ordered(items);
    SortMultiset(HeavierFirst, items);
    forall i | 0 <= i < |o| ensures 0.0 <= TestsIn(items)(Names(o)[i]) <= largest as real {
      assert o[i] in multiset(items);
      assert TestCounts(o)[i] == WeightsOf(Names(o), TestsIn(items))[i];
    }
    GreedySplitSpread(Names(o), TestsIn(items), m, largest as real, p, q);
  }

  // ---------- verify_partition ----------

  datatype Problem =
    | DuplicateFile
    | UnionDiffers(missing: set<string>, extra: set<string>)
    | TotalDiffers(shards: real, collected: real)

  ghost predicate IsSplit(items: seq<Item>, shards: seq<Shard>) {
    multiset(Flatten(shards)) == multiset(Names(items))
  }

  ghost function TotalOf(items: seq<Item>): real {
    SumOf(TestsIn(items), Names(items))
  }

  method CollectedTotal(items: seq<Item>) returns (total: real)
    requires IsDict(items)
    ensures total == TotalOf(items)
  {
    total := 0.0;
    var i := 0;
    while i < |items|
      invariant 0 <= i <= |items|
      invariant total == SumOf(TestsIn(items), Names(items)[..i])
    {
      CountOfMember(items, i);
      SumSnoc(TestsIn(items), Names(items), i);
      total := total + items[i].tests as real;
      i := i + 1;
    }
    assert Names(items)[..i] == Names(items);
  }

  method ShardsTotal(items: seq<Item>, shards: seq<Shard>) returns (sum: real)
    ensures sum == SumOf(TestsIn(items), Flatten(shards))
  {
    sum := 0.0;
    var p := 0;
    while p < |shards|
      invariant 0 <= p <= |shards|
      invariant sum == SumOf(TestsIn(items), Flatten(shards[..p]))
    {
      assert shards[..p + 1][..p] == shards[..p];
      SumConcat(TestsIn(items), Flatten(shards[..p]), shards[p]);
      var per := SumOf(TestsIn(items), shards[p]);
      sum := sum + per;
      p := p + 1;
    }
    assert shards[..p] == shards;
  }

  method VerifyPartition(items: seq<Item>, shards: seq<Shard>) returns (problems: seq<Problem>)
    requires IsDict(items)
    ensures problems == [] <==> IsSplit(items, shards)
    ensures DuplicateFile in problems <==> !NoDuplicates(Flatten(shards))
    ensures forall missing, extra :: UnionDiffers(missing, extra) in problems <==>
              && missing == Elements(Names(items)) - Elements(Flatten(shards))
              && extra == Elements(Flatten(shards)) - Elements(Names(items))
              && Elements(Flatten(shards)) != Elements(Names(items))
  {
    var flat := Flatten(shards);
    var have := set f | f in flat;
    var want := set f | f in Names(items);
    assert have == Elements(flat) && want == Elements(Names(items));
    DistinctCount(flat);
    SplitIff(items, shards);
    var duplicates := if |flat| != |have| then [DuplicateFile] else [];
    var union := if have != want then [UnionDiffers(want - have, have - want)] else [];
    var total := CollectedTotal(items);
    var sum := ShardsTotal(items, shards);
    var totals := if sum != total then [TotalDiffers(sum, total)] else [];
    problems := duplicates + union + totals;
  }

  /** The first two checks decide: a split without duplicates over the same files already has the
      right number of tests. */
  lemma SplitIff(items: seq<Item>, shards: seq<Shard>)
    requires IsDict(items)
    ensures IsSplit(items, shards) <==>
            NoDuplicates(Flatten(shards)) && Elements(Flatten(shards)) == Elements(Names(items))
    ensures IsSplit(items, shards) ==> SumOf(TestsIn(items), Flatten(shards)) == TotalOf(items)
  {
    PermutationIff(Flatten(shards), Names(items));
    if IsSplit(items, shards) {
      SumPermuted(TestsIn(items), Flatten(shards), Names(items));
    }
  }

  lemma SumSnoc(f: string -> real, s: seq<string>, i: nat)
    requires i < |s|
    ensures SumOf(f, s[..i + 1]) == SumOf(f, s[..i]) + f(s[i])
  {
    assert s[..i + 1] == s[..i] + [s[i]];
    SumConcat(f, s[..i], [s[i]]);
    assert [s[i]][1..] == [];
  }

  /** Planning and checking the plan: the plan of any counts passes, for any shard count of at least one. */
  method PlanAndVerify(items: seq<Item>, shardCount: int) returns (r: Option<seq<Shard>>, problems: seq<Problem>)
    requires IsDict(items)
    ensures shardCount < 1 ==> r == None
    ensures shardCount >= 1 ==> r == Some(Plan(items, shardCount)) && problems == []
  {
    problems := [];
    r := Partition(items, shardCount);
    if r.Some? {
      PlanIsLossless(items, shardCount);
      problems := VerifyPartition(items, r.value);
    }
  }

  lemma {:induction false} FlattenMultiplicity(shards: seq<Shard>, f: string, p: nat)
    requires p < |shards|
    ensures multiset(Flatten(shards))[f] >= multiset(shards[p])[f]
    ensures forall q :: 0 <= q < |shards| && q != p ==>
            multiset(Flatten(shards))[f] >= multiset(shards[p])[f] + multiset(shards[q])[f]
  {
    var n := |shards| - 1;
    if p < n {
      FlattenMultiplicity(shards[..n], f, p);
    } else {
      forall q | 0 <= q < n ensures multiset(Flatten(shards))[f] >= multiset(shards[p])[f] + multiset(shards[q])[f] {
        FlattenMultiplicity(shards[..n], f, q);
      }
    }
  }

  /** An accepted plan, wherever it came from, runs each collected file on exactly one shard, once. */
  lemma AcceptedPlanRunsEachFileOnce(items: seq<Item>, shards: seq<Shard>, f: string) returns (p: nat)
    requires IsDict(items) && IsSplit(items, shards) && f in Names(items)
    ensures p < |shards| && multiset(shards[p])[f] == 1
    ensures forall q :: 0 <= q < |shards| && q != p ==> f !in shards[q]
  {
    DistinctMultiplicity(Names(items), f);
    assert f in multiset(Flatten(shards));
    var i;
    p, i := FindInShards(shards, f);
    assert f in multiset(shards[p]);
    FlattenMultiplicity(shards, f, p);
    forall q | 0 <= q < |shards| && q != p ensures f !in shards[q] {
      assert multiset(shards[q])[f] == 0;
      assert f !in multiset(shards[q]);
    }
  }
}

/** A bounded, least-recently-used cache whose entries also expire: the structure behind both
    `SeenIdsCache` (event de-duplication) and `_ScopeCache` (per-key tool scopes).

    The store is the `OrderedDict` as a sequence, least recently used entry first. The theorems are
    about whole histories of operations, not about one store. */
module LruTtl {

  datatype Entry<V> = Entry(key: string, at: real, val: V)

  type Store<V> = seq<Entry<V>>

  ghost predicate DistinctKeys<V>(s: Store<V>) {
    forall i, j :: 0 <= i < j < |s| ==> s[i].key != s[j].key
  }

  /** Position of `k`, or `|s|` when it is absent. */
  function Find<V>(s: Store<V>, k: string): (i: nat)
    ensures i <= |s|
    ensures i < |s| ==> s[i].key == k
    ensures forall j :: 0 <= j < i ==> s[j].key != k
  {
    if s == [] then 0 else if s[0].key == k then 0 else 1 + Find(s[1..], k)
  }

  predicate Has<V>(s: Store<V>, k: string) {
    Find(s, k) < |s|
  }

  /** `del store[k]` (a no-op when `k` is absent). */
  function Remove<V>(s: Store<V>, k: string): Store<V> {
    var i := Find(s, k);
    if i < |s| then s[..i] + s[i + 1..] else s
  }

  /** `store.move_to_end(k)`. */
  function MoveToEnd<V>(s: Store<V>, k: string): Store<V> {
    var i := Find(s, k);
    if i < |s| then s[..i] + s[i + 1..] + [s[i]] else s
  }

  /** Drop every entry older than `ttl`. */
  function Unexpired<V>(s: Store<V>, now: real, ttl: real): (r: Store<V>)
    ensures |r| <= |s|
  {
    if s == [] then []
    else if now - s[0].at > ttl then Unexpired(s[1..], now, ttl)
    else [s[0]] + Unexpired(s[1..], now, ttl)
  }

  /** `while len(store) > max: store.popitem(last=False)`. */
  function Trim<V>(s: Store<V>, max: nat): Store<V> {
    if |s| > max then s[|s| - max..] else s
  }

  /** A look-up hits when the key is present and not expired. */
  predicate Live<V>(s: Store<V>, k: string, now: real, ttl: real) {
    Has(s, k) && now - s[Find(s, k)].at <= ttl
  }

  /** The store after a look-up: refreshed on a hit, lazily cleaned on an expired entry. */
  function AfterLook<V>(s: Store<V>, k: string, now: real, ttl: real): Store<V> {
    if !Has(s, k) then s
    else if Live(s, k, now, ttl) then MoveToEnd(s, k)
    else Remove(s, k)
  }

  /** The store after an insertion: a fresh stamp, most recent position, then the size bound. */
  function AfterPut<V>(s: Store<V>, k: string, now: real, v: V, max: nat): Store<V> {
    Trim(Remove(s, k) + [Entry(k, now, v)], max)
  }

  // ---------- histories ----------

  datatype Op<V> =
    | Look(key: string, now: real)
    | Sweep(now: real)
    | Put(key: string, now: real, val: V)

  function Apply<V>(s: Store<V>, op: Op<V>, max: nat, ttl: real): Store<V> {
    match op
    case Look(k, now) => AfterLook(s, k, now, ttl)
    case Sweep(now) => Unexpired(s, now, ttl)
    case Put(k, now, v) => AfterPut(s, k, now, v, max)
  }

  /** The store a history leaves behind, starting empty. */
  function Run<V>(h: seq<Op<V>>, max: nat, ttl: real): Store<V> {
    if h == [] then []
    else Apply(Run(h[..|h| - 1], max, ttl), h[|h| - 1], max, ttl)
  }

  /** The clock never goes back. */
  ghost predicate Monotone<V>(h: seq<Op<V>>) {
    forall i, j :: 0 <= i <= j < |h| ==> h[i].now <= h[j].now
  }

  /** Operation `op` uses key `k` on store `s`: it inserts it, or looks it up and hits. */
  predicate Uses<V>(s: Store<V>, op: Op<V>, k: string, ttl: real) {
    match op
    case Look(k', now) => k' == k && Live(s, k, now, ttl)
    case Sweep(_) => false
    case Put(k', _, _) => k' == k
  }

  /** The last insertion of `k` in the history, as a one-element or empty sequence. */
  function LastPut<V>(h: seq<Op<V>>, k: string): (r: seq<Op<V>>)
    ensures r != [] ==> |r| == 1 && r[0] in h && r[0].Put? && r[0].key == k
  {
    if h == [] then []
    else
      var op := h[|h| - 1];
      if op.Put? && op.key == k then [op] else LastPut(h[..|h| - 1], k)
  }

  /** The distinct other keys used since `k` was last used (all keys used, if `k` never was). */
  ghost function Rivals<V>(h: seq<Op<V>>, k: string, max: nat, ttl: real): set<string> {
    if h == [] then {}
    else
      var p := h[..|h| - 1];
      var op := h[|h| - 1];
      var s := Run(p, max, ttl);
      if Uses(s, op, k, ttl) then {}
      else if !op.Sweep? && Uses(s, op, op.key, ttl) then Rivals(p, k, max, ttl) + {op.key}
      else Rivals(p, k, max, ttl)
  }

  // ---------- store facts ----------

  /** An entry that survives a sweep comes from the store, in the same order, and is not expired. */
  lemma {:induction false} SweptPair<V>(s: Store<V>, now: real, ttl: real, i: nat, j: nat) returns (i': nat, j': nat)
    requires i < j < |Unexpired(s, now, ttl)|
    ensures i' < j' < |s| && s[i'] == Unexpired(s, now, ttl)[i] && s[j'] == Unexpired(s, now, ttl)[j]
  {
    if now - s[0].at > ttl {
      i', j' := SweptPair(s[1..], now, ttl, i, j);
      i', j' := i' + 1, j' + 1;
    } else if i == 0 {
      j' := Swept(s[1..], now, ttl, j - 1);
      i', j' := 0, j' + 1;
    } else {
      i', j' := SweptPair(s[1..], now, ttl, i - 1, j - 1);
      i', j' := i' + 1, j' + 1;
    }
  }

  lemma {:induction false} Swept<V>(s: Store<V>, now: real, ttl: real, i: nat) returns (i': nat)
    requires i < |Unexpired(s, now, ttl)|
    ensures i' < |s| && s[i'] == Unexpired(s, now, ttl)[i] && now - s[i'].at <= ttl
  {
    if now - s[0].at > ttl {
      i' := Swept(s[1..], now, ttl, i);
      i' := i' + 1;
    } else if i == 0 {
      i' := 0;
    } else {
      i' := Swept(s[1..], now, ttl, i - 1);
      i' := i' + 1;
    }
  }

  /** A sweep keeps every entry that is not expired. */
  lemma {:induction false} KeptBySweep<V>(s: Store<V>, now: real, ttl: real, i: nat)
    requires i < |s| && now - s[i].at <= ttl
    ensures s[i] in Unexpired(s, now, ttl)
  {
    if i > 0 { KeptBySweep(s[1..], now, ttl, i - 1); }
  }

  /** Distinct keys: the entries from `lo` on have that many different keys. */
  lemma {:induction false} TailKeys<V>(s: Store<V>, lo: nat)
    requires DistinctKeys(s) && lo <= |s|
    ensures |set i | lo <= i < |s| :: s[i].key| == |s| - lo
    decreases |s| - lo
  {
    var tail := set i | lo <= i < |s| :: s[i].key;
    if lo < |s| {
      TailKeys(s, lo + 1);
      var rest := set i | lo + 1 <= i < |s| :: s[i].key;
      assert tail == rest + {s[lo].key};
    } else {
      assert tail == {};
    }
  }

  lemma SubsetSize(a: set<string>, b: set<string>)
    requires a <= b
    ensures |a| <= |b|
  {
    assert b == a + (b - a);
  }

  // ---------- the invariant ----------

  /** Every cached entry is the last insertion of its key, and the entries after it in the store
      are among its rivals. */
  ghost predicate Accurate<V>(h: seq<Op<V>>, max: nat, ttl: real) {
    var s := Run(h, max, ttl);
    && DistinctKeys(s)
    && |s| <= max
    && (forall i :: 0 <= i < |s| ==> LastPut(h, s[i].key) == [Put(s[i].key, s[i].at, s[i].val)])
    && (forall i, j :: 0 <= i < j < |s| ==> s[j].key in Rivals(h, s[i].key, max, ttl))
  }

  /** A key that was inserted and is gone has expired or was pushed out by `max` rivals. */
  ghost predicate Accounted<V>(h: seq<Op<V>>, max: nat, ttl: real, k: string) {
    LastPut(h, k) != [] && !Has(Run(h, max, ttl), k) ==>
      || h[|h| - 1].now - LastPut(h, k)[0].now > ttl
      || |Rivals(h, k, max, ttl)| >= max
  }

  /** One more operation. */
  lemma RunSnoc<V>(h: seq<Op<V>>, op: Op<V>, max: nat, ttl: real)
    ensures Run(h + [op], max, ttl) == Apply(Run(h, max, ttl), op, max, ttl)
  {
    assert (h + [op])[..|h|] == h;
  }

  /** Where entry `i` comes from once the entry at `f` is taken out. */
  function Source(f: nat, i: nat): nat {
    if i < f then i else i + 1
  }

  lemma TakeOut<T>(s: seq<T>, f: nat)
    requires f < |s|
    ensures var r := s[..f] + s[f + 1..];
            |r| == |s| - 1 && forall i :: 0 <= i < |r| ==> r[i] == s[Source(f, i)]
  {
    var r := s[..f] + s[f + 1..];
    forall i | 0 <= i < |r| ensures r[i] == s[Source(f, i)] {
      if i >= f { assert r[i] == s[f + 1..][i - f]; }
    }
  }

  lemma MoveToEndAt<V>(s: Store<V>, k: string)
    requires Has(s, k)
    ensures var r, f := MoveToEnd(s, k), Find(s, k);
            && |r| == |s|
            && (forall i :: 0 <= i < |s| - 1 ==> r[i] == s[Source(f, i)])
            && r[|s| - 1] == s[f]
  {
    var f := Find(s, k);
    TakeOut(s, f);
    var rest := s[..f] + s[f + 1..];
    assert MoveToEnd(s, k) == rest + [s[f]];
  }

  lemma RemoveAt<V>(s: Store<V>, k: string)
    ensures var r, f := Remove(s, k), Find(s, k);
            && |r| == (if f < |s| then |s| - 1 else |s|)
            && (forall i :: 0 <= i < |r| ==> r[i] == s[Source(f, i)])
  {
    var f := Find(s, k);
    if f < |s| { TakeOut(s, f); }
  }

  lemma TrimAt<V>(u: Store<V>, max: nat) returns (d: nat)
    ensures d <= |u| && Trim(u, max) == u[d..] && |u| - d <= max
  {
    d := if |u| > max then |u| - max else 0;
  }

  lemma RemoveTail<V>(s: Store<V>, k: string)
    requires s != [] && s[0].key != k
    ensures Remove(s, k) == [s[0]] + Remove(s[1..], k)
  {
    var i := Find(s[1..], k);
    assert Find(s, k) == i + 1;
    if i < |s[1..]| { TailWithout(s, i, i + 1, i + 2); }
  }

  lemma TailWithout<T>(s: seq<T>, i: nat, i1: nat, i2: nat)
    requires i1 == i + 1 && i2 == i + 2 <= |s|
    ensures s[..i1] + s[i2..] == [s[0]] + (s[1..][..i] + s[1..][i1..])
  {
  }

  lemma RemoveDistinct<V>(s: Store<V>, k: string)
    requires DistinctKeys(s)
    ensures DistinctKeys(Remove(s, k))
  {
    RemoveAt(s, k);
  }

  /** After a hit on its key, every other key has that key as a rival. */
  lemma HitRivals<V>(h: seq<Op<V>>, max: nat, ttl: real, k: string)
    requires h != [] && h[|h| - 1].Look?
    requires Live(Run(h[..|h| - 1], max, ttl), h[|h| - 1].key, h[|h| - 1].now, ttl)
    requires k != h[|h| - 1].key
    ensures Rivals(h, k, max, ttl) == Rivals(h[..|h| - 1], k, max, ttl) + {h[|h| - 1].key}
  {
  }

  lemma HitKeeps<V>(h: seq<Op<V>>, max: nat, ttl: real)
    requires h != [] && Accurate(h[..|h| - 1], max, ttl)
    requires var op := h[|h| - 1]; op.Look? && Live(Run(h[..|h| - 1], max, ttl), op.key, op.now, ttl)
    ensures Accurate(h, max, ttl)
  {
    var r := Run(h, max, ttl);
    assert r == MoveToEnd(Run(h[..|h| - 1], max, ttl), h[|h| - 1].key);
    MoveToEndAt(Run(h[..|h| - 1], max, ttl), h[|h| - 1].key);
    forall i, j | 0 <= i < j < |r| ensures r[i].key != r[j].key && r[j].key in Rivals(h, r[i].key, max, ttl) {
      HitKeepsPair(h, max, ttl, i, j);
    }
  }

  lemma HitKeepsPair<V>(h: seq<Op<V>>, max: nat, ttl: real, i: nat, j: nat)
    requires h != [] && Accurate(h[..|h| - 1], max, ttl)
    requires var op := h[|h| - 1]; op.Look? && Live(Run(h[..|h| - 1], max, ttl), op.key, op.now, ttl)
    requires i < j < |MoveToEnd(Run(h[..|h| - 1], max, ttl), h[|h| - 1].key)|
    ensures var r := MoveToEnd(Run(h[..|h| - 1], max, ttl), h[|h| - 1].key);
            r[i].key != r[j].key && r[j].key in Rivals(h, r[i].key, max, ttl)
  {
    var s, key := Run(h[..|h| - 1], max, ttl), h[|h| - 1].key;
    var r, f := MoveToEnd(s, key), Find(s, key);
    MoveToEndAt(s, key);
    assert r[i] == s[Source(f, i)] && r[i].key != key;
    HitRivals(h, max, ttl, r[i].key);
    if j < |s| - 1 { assert r[j] == s[Source(f, j)]; }
  }

  lemma MissRivals<V>(h: seq<Op<V>>, max: nat, ttl: real, k: string)
    requires h != [] && h[|h| - 1].Look?
    requires !Live(Run(h[..|h| - 1], max, ttl), h[|h| - 1].key, h[|h| - 1].now, ttl)
    ensures Rivals(h, k, max, ttl) == Rivals(h[..|h| - 1], k, max, ttl)
  {
  }

  lemma MissKeeps<V>(h: seq<Op<V>>, max: nat, ttl: real)
    requires h != [] && Accurate(h[..|h| - 1], max, ttl)
    requires var op := h[|h| - 1]; op.Look? && !Live(Run(h[..|h| - 1], max, ttl), op.key, op.now, ttl)
    ensures Accurate(h, max, ttl)
  {
    var p, op := h[..|h| - 1], h[|h| - 1];
    var s, r := Run(p, max, ttl), Run(h, max, ttl);
    var f := Find(s, op.key);
    RemoveAt(s, op.key);
    assert r == Remove(s, op.key);
    forall i, j | 0 <= i < j < |r| ensures r[i].key != r[j].key && r[j].key in Rivals(h, r[i].key, max, ttl) {
      assert r[i] == s[Source(f, i)] && r[j] == s[Source(f, j)];
      MissRivals(h, max, ttl, r[i].key);
    }
  }

  lemma SweepKeeps<V>(h: seq<Op<V>>, max: nat, ttl: real)
    requires h != [] && Accurate(h[..|h| - 1], max, ttl) && h[|h| - 1].Sweep?
    ensures Accurate(h, max, ttl)
  {
    var p, op := h[..|h| - 1], h[|h| - 1];
    var s, r := Run(p, max, ttl), Run(h, max, ttl);
    forall i | 0 <= i < |r| ensures LastPut(h, r[i].key) == [Put(r[i].key, r[i].at, r[i].val)] {
      var i' := Swept(s, op.now, ttl, i);
    }
    forall i, j | 0 <= i < j < |r| ensures r[i].key != r[j].key && r[j].key in Rivals(h, r[i].key, max, ttl) {
      var i', j' := SweptPair(s, op.now, ttl, i, j);
    }
  }

  /** The store just before an insertion is trimmed to size. */
  ghost function Untrimmed<V>(h: seq<Op<V>>, max: nat, ttl: real): Store<V>
    requires h != [] && h[|h| - 1].Put?
  {
    var op := h[|h| - 1];
    Remove(Run(h[..|h| - 1], max, ttl), op.key) + [Entry(op.key, op.now, op.val)]
  }

  /** Entry `i` of the untrimmed store: an old entry of another key, or the new one at the end. */
  lemma UntrimmedAt<V>(h: seq<Op<V>>, max: nat, ttl: real, i: nat)
    requires h != [] && Accurate(h[..|h| - 1], max, ttl) && h[|h| - 1].Put?
    requires i < |Untrimmed(h, max, ttl)|
    ensures var op, s, u := h[|h| - 1], Run(h[..|h| - 1], max, ttl), Untrimmed(h, max, ttl);
            if i == |u| - 1 then u[i] == Entry(op.key, op.now, op.val)
            else
              var o := Source(Find(s, op.key), i);
              && o < |s| && u[i] == s[o] && u[i].key != op.key
              && LastPut(h, u[i].key) == LastPut(h[..|h| - 1], u[i].key)
              && Rivals(h, u[i].key, max, ttl) == Rivals(h[..|h| - 1], u[i].key, max, ttl) + {op.key}
  {
    var op, s, u := h[|h| - 1], Run(h[..|h| - 1], max, ttl), Untrimmed(h, max, ttl);
    RemoveAt(s, op.key);
    if i < |u| - 1 {
      assert u[i] == Remove(s, op.key)[i];
      PutRivals(h, max, ttl, u[i].key);
    }
  }

  lemma PutRivals<V>(h: seq<Op<V>>, max: nat, ttl: real, k: string)
    requires h != [] && h[|h| - 1].Put? && h[|h| - 1].key != k
    ensures LastPut(h, k) == LastPut(h[..|h| - 1], k)
    ensures Rivals(h, k, max, ttl) == Rivals(h[..|h| - 1], k, max, ttl) + {h[|h| - 1].key}
  {
  }

  lemma PutBeforeTrim<V>(h: seq<Op<V>>, max: nat, ttl: real)
    requires h != [] && Accurate(h[..|h| - 1], max, ttl) && h[|h| - 1].Put?
    ensures var u := Untrimmed(h, max, ttl);
            && DistinctKeys(u)
            && (forall i :: 0 <= i < |u| ==> LastPut(h, u[i].key) == [Put(u[i].key, u[i].at, u[i].val)])
            && (forall i, j :: 0 <= i < j < |u| ==> u[j].key in Rivals(h, u[i].key, max, ttl))
  {
    var u := Untrimmed(h, max, ttl);
    forall i | 0 <= i < |u| ensures LastPut(h, u[i].key) == [Put(u[i].key, u[i].at, u[i].val)] {
      UntrimmedAt(h, max, ttl, i);
    }
    forall i, j | 0 <= i < j < |u| ensures u[i].key != u[j].key && u[j].key in Rivals(h, u[i].key, max, ttl) {
      UntrimmedAt(h, max, ttl, i);
      UntrimmedAt(h, max, ttl, j);
    }
  }

  lemma PutKeeps<V>(h: seq<Op<V>>, max: nat, ttl: real)
    requires h != [] && Accurate(h[..|h| - 1], max, ttl) && h[|h| - 1].Put?
    ensures Accurate(h, max, ttl)
  {
    PutBeforeTrim(h, max, ttl);
    var u, r := Untrimmed(h, max, ttl), Run(h, max, ttl);
    var d := TrimAt(u, max);
    assert r == u[d..];
    forall i, j | 0 <= i < j < |r| ensures r[i].key != r[j].key && r[j].key in Rivals(h, r[i].key, max, ttl) {
      assert r[i] == u[d + i] && r[j] == u[d + j];
    }
  }

  lemma {:induction false} RunIsAccurate<V>(h: seq<Op<V>>, max: nat, ttl: real)
    ensures Accurate(h, max, ttl)
  {
    if h != [] {
      var p, op := h[..|h| - 1], h[|h| - 1];
      RunIsAccurate(p, max, ttl);
      match op
      case Look(k, now) =>
        if Live(Run(p, max, ttl), k, now, ttl) { HitKeeps(h, max, ttl); } else { MissKeeps(h, max, ttl); }
      case Sweep(_) => SweepKeeps(h, max, ttl);
      case Put(_, _, _) => PutKeeps(h, max, ttl);
    }
  }

  /** An insertion only pushes out keys that already have `max` rivals. */
  lemma PutAccounts<V>(h: seq<Op<V>>, max: nat, ttl: real, i: nat)
    requires h != [] && Accurate(h[..|h| - 1], max, ttl) && h[|h| - 1].Put?
    requires i < |Untrimmed(h, max, ttl)|
    ensures var k := Untrimmed(h, max, ttl)[i].key;
            Has(Run(h, max, ttl), k) || |Rivals(h, k, max, ttl)| >= max
  {
    PutBeforeTrim(h, max, ttl);
    var u := Untrimmed(h, max, ttl);
    if i + max >= |u| {
      KeptByTrim(u, max, i);
      PresentIsFound(Trim(u, max), u[i]);
    } else {
      TailKeys(u, i + 1);
      SubsetSize(set j | i + 1 <= j < |u| :: u[j].key, Rivals(h, u[i].key, max, ttl));
    }
  }

  lemma KeptByTrim<V>(u: Store<V>, max: nat, i: nat)
    requires i < |u| <= i + max
    ensures u[i] in Trim(u, max)
  {
    var d := if |u| > max then |u| - max else 0;
    assert Trim(u, max)[i - d] == u[i];
  }

  lemma UntrimmedHas<V>(h: seq<Op<V>>, max: nat, ttl: real, k: string) returns (i: nat)
    requires h != [] && h[|h| - 1].Put?
    requires h[|h| - 1].key == k || Has(Run(h[..|h| - 1], max, ttl), k)
    ensures i < |Untrimmed(h, max, ttl)| && Untrimmed(h, max, ttl)[i].key == k
  {
    var op, s := h[|h| - 1], Run(h[..|h| - 1], max, ttl);
    if op.key == k {
      i := |Remove(s, op.key)|;
    } else {
      i := RemovedHas(s, op.key, k);
    }
  }

  lemma RemovedHas<V>(s: Store<V>, gone: string, k: string) returns (i: nat)
    requires gone != k && Has(s, k)
    ensures i < |Remove(s, gone)| && Remove(s, gone)[i].key == k
  {
    RemoveAt(s, gone);
    var f, j := Find(s, gone), Find(s, k);
    i := if f < j then j - 1 else j;
    assert Remove(s, gone)[i] == s[Source(f, i)];
  }

  lemma {:induction false} EveryKeyIsAccounted<V>(h: seq<Op<V>>, max: nat, ttl: real, k: string)
    requires Monotone(h)
    ensures Accounted(h, max, ttl, k)
  {
    if h != [] {
      var p, op := h[..|h| - 1], h[|h| - 1];
      var s := Run(p, max, ttl);
      EveryKeyIsAccounted(p, max, ttl, k);
      RunIsAccurate(p, max, ttl);
      if op.Put? && (op.key == k || Has(s, k)) {
        var i := UntrimmedHas(h, max, ttl, k);
        PutAccounts(h, max, ttl, i);
      } else if Has(s, k) {
        LostByLookOrSweep(h, max, ttl, k);
      } else {
        StillGone(h, max, ttl, k);
      }
    }
  }

  /** Look-ups and sweeps only remove expired entries. */
  lemma LostByLookOrSweep<V>(h: seq<Op<V>>, max: nat, ttl: real, k: string)
    requires h != [] && Accurate(h[..|h| - 1], max, ttl) && !h[|h| - 1].Put?
    requires Has(Run(h[..|h| - 1], max, ttl), k)
    ensures Accounted(h, max, ttl, k)
  {
    var p, op := h[..|h| - 1], h[|h| - 1];
    var s := Run(p, max, ttl);
    var i := Find(s, k);
    assert LastPut(h, k) == LastPut(p, k) == [Put(k, s[i].at, s[i].val)];
    if op.now - s[i].at <= ttl {
      if op.Sweep? {
        KeptBySweep(s, op.now, ttl, i);
      } else {
        KeptByLook(s, op.key, op.now, ttl, i);
      }
      PresentIsFound(Run(h, max, ttl), s[i]);
    }
  }

  lemma KeptByLook<V>(s: Store<V>, k: string, now: real, ttl: real, i: nat)
    requires i < |s| && DistinctKeys(s) && now - s[i].at <= ttl
    ensures s[i] in AfterLook(s, k, now, ttl)
  {
    if Has(s, k) {
      if now - s[Find(s, k)].at > ttl {
        KeptByRemove(s, k, i);
      } else {
        KeptByMove(s, k, i);
      }
    }
  }

  lemma KeptByRemove<V>(s: Store<V>, k: string, i: nat)
    requires i < |s| && i != Find(s, k)
    ensures s[i] in Remove(s, k)
  {
    RemoveAt(s, k);
    if Has(s, k) { StillThere(s, Remove(s, k), Find(s, k), i); }
  }

  lemma KeptByMove<V>(s: Store<V>, k: string, i: nat)
    requires i < |s| && Has(s, k)
    ensures s[i] in MoveToEnd(s, k)
  {
    MoveToEndAt(s, k);
    if i == Find(s, k) {
      assert MoveToEnd(s, k)[|s| - 1] == s[i];
    } else {
      StillThere(s, MoveToEnd(s, k), Find(s, k), i);
    }
  }

  lemma StillThere<T>(s: seq<T>, r: seq<T>, f: nat, i: nat)
    requires i < |s| && f < |s| && i != f && |s| - 1 <= |r|
    requires forall j :: 0 <= j < |s| - 1 ==> r[j] == s[Source(f, j)]
    ensures s[i] in r
  {
    assert r[if i < f then i else i - 1] == s[i];
  }

  lemma PresentIsFound<V>(s: Store<V>, e: Entry<V>)
    requires e in s
    ensures Has(s, e.key)
  {
  }

  /** Absence only gets older: the clock moves on and rivals accumulate. */
  lemma StillGone<V>(h: seq<Op<V>>, max: nat, ttl: real, k: string)
    requires h != [] && Monotone(h) && Accounted(h[..|h| - 1], max, ttl, k)
    requires !Has(Run(h[..|h| - 1], max, ttl), k) && !(h[|h| - 1].Put? && h[|h| - 1].key == k)
    ensures Accounted(h, max, ttl, k)
  {
    var p := h[..|h| - 1];
    if LastPut(p, k) != [] {
      assert h[|p| - 1].now <= h[|p|].now;
      SubsetSize(Rivals(p, k, max, ttl), Rivals(h, k, max, ttl));
    }
  }

  // ---------- what a look-up means ----------

  /** The size bound holds after every history. */
  lemma NeverAboveMax<V>(h: seq<Op<V>>, max: nat, ttl: real)
    ensures |Run(h, max, ttl)| <= max
  {
    RunIsAccurate(h, max, ttl);
  }

  /** A hit is sound: it returns the value of the last insertion of that very key, made at most
      `ttl` ago. */
  lemma HitIsLastPut<V>(h: seq<Op<V>>, max: nat, ttl: real, k: string, now: real)
    requires Live(Run(h, max, ttl), k, now, ttl)
    ensures var s := Run(h, max, ttl);
            && LastPut(h, k) != []
            && s[Find(s, k)].val == LastPut(h, k)[0].val
            && now - LastPut(h, k)[0].now <= ttl
  {
    RunIsAccurate(h, max, ttl);
  }

  /** A miss is justified: the key was never inserted, its last insertion expired, or at least
      `max` distinct other keys were used since it was last used. */
  lemma MissIsJustified<V>(h: seq<Op<V>>, max: nat, ttl: real, k: string, now: real)
    requires Monotone(h) && (h != [] ==> h[|h| - 1].now <= now)
    requires !Live(Run(h, max, ttl), k, now, ttl)
    ensures || LastPut(h, k) == []
            || now - LastPut(h, k)[0].now > ttl
            || |Rivals(h, k, max, ttl)| >= max
  {
    RunIsAccurate(h, max, ttl);
    EveryKeyIsAccounted(h, max, ttl, k);
  }
}

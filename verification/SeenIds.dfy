/** `SeenIdsCache` of the SSE bridge: the ids of the events already handed to the agent, bounded in
    number and in age, and what that bound means for duplicates over a whole run. */
module SeenIds {
  import opened LruTtl

  type Store = LruTtl.Store<()>
  type History = seq<LruTtl.Op<()>>

  // ---------- the cache object ----------

  function ExpiredKeys(s: Store, now: real, ttl: real): seq<string> {
    if s == [] then []
    else (if now - s[0].at > ttl then [s[0].key] else []) + ExpiredKeys(s[1..], now, ttl)
  }

  lemma {:induction false} ExpiredKeyIsPresent(s: Store, now: real, ttl: real, k: string)
    requires k in ExpiredKeys(s, now, ttl)
    ensures exists i :: 0 <= i < |s| && s[i].key == k
  {
    if s[0].key != k {
      ExpiredKeyIsPresent(s[1..], now, ttl, k);
      var i :| 0 <= i < |s[1..]| && s[1..][i].key == k;
      assert s[i + 1].key == k;
    }
  }

  /** Deleting the first expired key takes exactly that key off the work list. */
  lemma {:induction false} DeleteFirstExpired(s: Store, now: real, ttl: real)
    requires DistinctKeys(s) && ExpiredKeys(s, now, ttl) != []
    ensures var ks := ExpiredKeys(s, now, ttl);
            var r := Remove(s, ks[0]);
            && ExpiredKeys(r, now, ttl) == ks[1..]
            && Unexpired(r, now, ttl) == Unexpired(s, now, ttl)
  {
    var ks := ExpiredKeys(s, now, ttl);
    var t := s[1..];
    if now - s[0].at > ttl {
      assert Remove(s, ks[0]) == t;
    } else {
      ExpiredKeyIsPresent(t, now, ttl, ks[0]);
      DeleteFirstExpired(t, now, ttl);
      RemoveTail(s, ks[0]);
      assert Remove(s, ks[0])[1..] == Remove(t, ks[0]);
    }
  }

  lemma {:induction false} NothingExpired(s: Store, now: real, ttl: real)
    requires ExpiredKeys(s, now, ttl) == []
    ensures Unexpired(s, now, ttl) == s
  {
    if s != [] { NothingExpired(s[1..], now, ttl); }
  }

  class SeenIdsCache {
    const maxSize: nat
    const ttl: real
    var store: Store

    /** The store is a dictionary: one entry per id. */
    ghost predicate Valid() reads this {
      DistinctKeys(store)
    }

    constructor (maxSize: nat, ttl: real)
      ensures Valid() && store == [] && this.maxSize == maxSize && this.ttl == ttl
    {
      this.maxSize, this.ttl, store := maxSize, ttl, [];
    }

    /** `event_id in seen_ids`, at clock reading `now`. */
    method Contains(id: string, now: real) returns (hit: bool)
      requires Valid()
      modifies this
      ensures Valid()
      ensures hit == Live(old(store), id, now, ttl)
      ensures store == AfterLook(old(store), id, now, ttl)
    {
      var i := Find(store, id);
      if i == |store| {
        return false;
      }
      if now - store[i].at > ttl {
        RemoveAt(store, id);
        store := store[..i] + store[i + 1..];
        return false;
      }
      MoveToEndAt(store, id);
      store := store[..i] + store[i + 1..] + [store[i]];
      return true;
    }

    /** `add`: `evict` and `stamp` are the two clock readings it takes. */
    method Add(id: string, evict: real, stamp: real)
      requires Valid()
      modifies this
      ensures Valid()
      ensures store == if Has(old(store), id) then MoveToEnd(old(store), id)
                       else AfterPut(Unexpired(old(store), evict, ttl), id, stamp, (), maxSize)
    {
      var i := Find(store, id);
      if i < |store| {
        MoveToEndAt(store, id);
        store := store[..i] + store[i + 1..] + [store[i]];
        return;
      }
      ghost var before := store;
      EvictExpired(evict);
      assert forall j :: 0 <= j < |store| ==> store[j].key != id by {
        forall j | 0 <= j < |store| ensures store[j].key != id {
          var j' := Swept(before, evict, ttl, j);
        }
      }
      RemoveAt(store, id);
      ghost var full := store + [Entry(id, stamp, ())];
      store := store + [Entry(id, stamp, ())];
      while |store| > maxSize
        invariant |store| <= |full| && store == full[|full| - |store|..]
        invariant |store| >= maxSize || store == full
        invariant DistinctKeys(full)
      {
        store := store[1..];
      }
    }

    method EvictExpired(now: real)
      requires Valid()
      modifies this
      ensures Valid()
      ensures store == Unexpired(old(store), now, ttl)
    {
      var expired := ExpiredKeys(store, now, ttl);
      var j := 0;
      while j < |expired|
        invariant 0 <= j <= |expired|
        invariant DistinctKeys(store)
        invariant ExpiredKeys(store, now, ttl) == expired[j..]
        invariant Unexpired(store, now, ttl) == Unexpired(old(store), now, ttl)
      {
        DeleteFirstExpired(store, now, ttl);
        RemoveDistinct(store, expired[j]);
        var i := Find(store, expired[j]);
        store := if i < |store| then store[..i] + store[i + 1..] else store;
        j := j + 1;
      }
      NothingExpired(store, now, ttl);
    }
  }

  // ---------- runs ----------

  /** The clock readings of one `_handle` call: the look-up, and, on a miss, the two of `add`. */
  datatype Clock = Clock(look: real, evict: real, stamp: real)

  datatype Touch = Touch(id: string, clock: Clock)

  /** One de-duplication step: look the id up, and add it on a miss. */
  function Step(h: History, t: Touch, max: nat, ttl: real): History {
    if Live(Run(h, max, ttl), t.id, t.clock.look, ttl) then h + [Look(t.id, t.clock.look)]
    else h + [Look(t.id, t.clock.look)] + [Sweep(t.clock.evict)] + [Put(t.id, t.clock.stamp, ())]
  }

  function HistoryOf(ts: seq<Touch>, max: nat, ttl: real): History {
    if ts == [] then [] else Step(HistoryOf(ts[..|ts| - 1], max, ttl), ts[|ts| - 1], max, ttl)
  }

  /** The `j`-th event is handed over (a miss) rather than skipped as a duplicate. */
  predicate Delivered(ts: seq<Touch>, j: nat, max: nat, ttl: real)
    requires j < |ts|
  {
    !Live(Run(HistoryOf(ts[..j], max, ttl), max, ttl), ts[j].id, ts[j].clock.look, ttl)
  }

  ghost predicate InOrder(c: Clock) {
    c.look <= c.evict <= c.stamp
  }

  /** The clock does not go back within a step or from one step to the next. */
  ghost predicate ClockMonotone(ts: seq<Touch>) {
    && (forall i :: 0 <= i < |ts| ==> InOrder(ts[i].clock))
    && (forall i, j :: 0 <= i < j < |ts| ==> ts[i].clock.stamp <= ts[j].clock.look)
  }

  /** The distinct other ids seen since `id` was last seen. */
  ghost function SeenSince(ts: seq<Touch>, id: string): set<string> {
    if ts == [] || ts[|ts| - 1].id == id then {}
    else SeenSince(ts[..|ts| - 1], id) + {ts[|ts| - 1].id}
  }

  /** The store after a step is what `Contains` and `Add` leave behind. */
  lemma StepStore(h: History, t: Touch, max: nat, ttl: real)
    ensures var s := Run(h, max, ttl);
            var looked := AfterLook(s, t.id, t.clock.look, ttl);
            Run(Step(h, t, max, ttl), max, ttl) ==
              if Live(s, t.id, t.clock.look, ttl) then looked
              else AfterPut(Unexpired(looked, t.clock.evict, ttl), t.id, t.clock.stamp, (), max)
  {
    var look, sweep := Look(t.id, t.clock.look), Sweep(t.clock.evict);
    RunSnoc(h, look, max, ttl);
    RunSnoc(h + [look], sweep, max, ttl);
    RunSnoc(h + [look] + [sweep], Put(t.id, t.clock.stamp, ()), max, ttl);
  }

  /** What one step does to the last insertion and to the rivals of any key. */
  lemma StepFacts(h: History, t: Touch, max: nat, ttl: real, k: string)
    ensures var h' := Step(h, t, max, ttl);
            var hit := Live(Run(h, max, ttl), t.id, t.clock.look, ttl);
            && LastPut(h', k) == (if !hit && t.id == k then [Put(k, t.clock.stamp, ())] else LastPut(h, k))
            && Rivals(h', k, max, ttl) <= (if t.id == k then {} else Rivals(h, k, max, ttl) + {t.id})
  {
    var look := [Look(t.id, t.clock.look)];
    var sweep := [Sweep(t.clock.evict)];
    var hl, hls := h + look, h + look + sweep;
    assert hl[..|h|] == h;
    if !Live(Run(h, max, ttl), t.id, t.clock.look, ttl) {
      assert hls[..|h| + 1] == hl;
      var all := hls + [Put(t.id, t.clock.stamp, ())];
      assert all[..|h| + 2] == hls;
      assert LastPut(hls, k) == LastPut(hl, k) == LastPut(h, k);
      assert Rivals(hls, k, max, ttl) == Rivals(hl, k, max, ttl) == Rivals(h, k, max, ttl);
    }
  }

  lemma StepMonotone(h: History, t: Touch, max: nat, ttl: real)
    requires Monotone(h) && InOrder(t.clock)
    requires h != [] ==> h[|h| - 1].now <= t.clock.look
    ensures var h' := Step(h, t, max, ttl);
            && Monotone(h')
            && h' != [] && h'[|h'| - 1].now <= t.clock.stamp
  {
    var h' := Step(h, t, max, ttl);
    forall i, j | 0 <= i <= j < |h'| ensures h'[i].now <= h'[j].now {
      if i < |h| {
        assert h[i].now <= h[|h| - 1].now;
      }
    }
  }

  lemma {:induction false} HistoryMonotone(ts: seq<Touch>, max: nat, ttl: real)
    requires ClockMonotone(ts)
    ensures var h := HistoryOf(ts, max, ttl);
            && Monotone(h)
            && (ts != [] ==> h != [] && h[|h| - 1].now <= ts[|ts| - 1].clock.stamp)
            && (ts == [] ==> h == [])
  {
    if ts != [] {
      var p := ts[..|ts| - 1];
      HistoryMonotone(p, max, ttl);
      if p != [] {
        assert ts[|p| - 1].clock.stamp <= ts[|p|].clock.look;
      }
      StepMonotone(HistoryOf(p, max, ttl), ts[|p|], max, ttl);
    }
  }

  lemma {:induction false} RivalsWereSeen(ts: seq<Touch>, max: nat, ttl: real, k: string)
    ensures Rivals(HistoryOf(ts, max, ttl), k, max, ttl) <= SeenSince(ts, k)
  {
    if ts != [] {
      RivalsWereSeen(ts[..|ts| - 1], max, ttl, k);
      StepFacts(HistoryOf(ts[..|ts| - 1], max, ttl), ts[|ts| - 1], max, ttl, k);
    }
  }

  /** Index of the last delivery of `k`, or -1. */
  function LastDelivery(ts: seq<Touch>, k: string, max: nat, ttl: real): (i: int)
    ensures -1 <= i < |ts| && (i >= 0 ==> ts[i].id == k)
  {
    if ts == [] then -1
    else
      var n := |ts| - 1;
      if ts[n].id == k && Delivered(ts, n, max, ttl) then n else LastDelivery(ts[..n], k, max, ttl)
  }

  lemma DeliveredInPrefix(ts: seq<Touch>, n: nat, j: nat, max: nat, ttl: real)
    requires j < n <= |ts|
    ensures Delivered(ts[..n], j, max, ttl) == Delivered(ts, j, max, ttl)
  {
    assert ts[..n][..j] == ts[..j];
  }

  /** `k` was inserted at time `since` or later. */
  ghost predicate InsertedBy(h: History, k: string, since: real) {
    var put := LastPut(h, k);
    put != [] && since <= put[0].now
  }

  lemma StillInserted(h: History, t: Touch, max: nat, ttl: real, k: string, since: real)
    requires InsertedBy(h, k, since) && since <= t.clock.stamp
    ensures InsertedBy(Step(h, t, max, ttl), k, since)
  {
    StepFacts(h, t, max, ttl, k);
  }

  lemma HistoryNext(ts: seq<Touch>, n: nat, max: nat, ttl: real)
    requires n < |ts|
    ensures HistoryOf(ts[..n + 1], max, ttl) == Step(HistoryOf(ts[..n], max, ttl), ts[n], max, ttl)
  {
    assert ts[..n + 1][..n] == ts[..n];
  }

  /** An insertion is only ever replaced by a later one. */
  lemma {:induction false} InsertedSince(ts: seq<Touch>, max: nat, ttl: real, i: nat, n: nat, k: string, since: real)
    requires i <= n <= |ts| && InsertedBy(HistoryOf(ts[..i], max, ttl), k, since)
    requires forall j :: i <= j < n ==> since <= ts[j].clock.stamp
    ensures InsertedBy(HistoryOf(ts[..n], max, ttl), k, since)
  {
    if i < n {
      InsertedSince(ts, max, ttl, i, n - 1, k, since);
      HistoryNext(ts, n - 1, max, ttl);
      StillInserted(HistoryOf(ts[..n - 1], max, ttl), ts[n - 1], max, ttl, k, since);
    }
  }

  lemma LaterStamps(ts: seq<Touch>, i: nat)
    requires ClockMonotone(ts) && i < |ts|
    ensures forall j :: i <= j < |ts| ==> ts[i].clock.stamp <= ts[j].clock.stamp
  {
    forall j | i < j < |ts| ensures ts[i].clock.stamp <= ts[j].clock.stamp {
      assert InOrder(ts[j].clock);
    }
  }

  lemma JustInserted(h: History, t: Touch, max: nat, ttl: real)
    requires !Live(Run(h, max, ttl), t.id, t.clock.look, ttl)
    ensures InsertedBy(Step(h, t, max, ttl), t.id, t.clock.stamp)
  {
    StepFacts(h, t, max, ttl, t.id);
  }

  /** The last insertion of an id in the cache history is its last delivery. */
  lemma {:induction false} LastPutIsLastDelivery(ts: seq<Touch>, max: nat, ttl: real, k: string)
    ensures var i := LastDelivery(ts, k, max, ttl);
            if i < 0 then LastPut(HistoryOf(ts, max, ttl), k) == []
            else Delivered(ts, i, max, ttl) && LastPut(HistoryOf(ts, max, ttl), k) == [Put(k, ts[i].clock.stamp, ())]
  {
    if ts != [] {
      var n := |ts| - 1;
      var p := ts[..n];
      StepFacts(HistoryOf(p, max, ttl), ts[n], max, ttl, k);
      LastPutIsLastDelivery(p, max, ttl, k);
      var i := LastDelivery(p, k, max, ttl);
      if i >= 0 { DeliveredInPrefix(ts, n, i, max, ttl); }
    }
  }

  /** Two deliveries of the same id are more than the TTL apart, or at least `max` distinct other
      ids were seen since that id was last seen. */
  lemma RepeatedDelivery(ts: seq<Touch>, i: nat, j: nat, max: nat, ttl: real)
    requires ClockMonotone(ts) && i < j < |ts| && ts[i].id == ts[j].id
    requires Delivered(ts, i, max, ttl) && Delivered(ts, j, max, ttl)
    ensures || ts[j].clock.look - ts[i].clock.stamp > ttl
            || |SeenSince(ts[..j], ts[j].id)| >= max
  {
    var p, k := ts[..j], ts[j].id;
    var h := HistoryOf(p, max, ttl);
    HistoryMonotone(p, max, ttl);
    assert ts[j - 1].clock.stamp <= ts[j].clock.look;
    JustInserted(HistoryOf(ts[..i], max, ttl), ts[i], max, ttl);
    HistoryNext(ts, i, max, ttl);
    LaterStamps(ts, i);
    InsertedSince(ts, max, ttl, i + 1, j, k, ts[i].clock.stamp);
    MissIsJustified(h, max, ttl, k, ts[j].clock.look);
    RivalsWereSeen(p, max, ttl, k);
    SubsetSize(Rivals(h, k, max, ttl), SeenSince(p, k));
  }

  /** Only duplicates are skipped: a skipped event has an earlier delivery of the same id, at most
      the TTL ago. */
  lemma SkippedWasDelivered(ts: seq<Touch>, j: nat, max: nat, ttl: real) returns (i: nat)
    requires j < |ts| && !Delivered(ts, j, max, ttl)
    ensures i < j && ts[i].id == ts[j].id && Delivered(ts, i, max, ttl)
    ensures ts[j].clock.look - ts[i].clock.stamp <= ttl
  {
    var p, k := ts[..j], ts[j].id;
    HitIsLastPut(HistoryOf(p, max, ttl), max, ttl, k, ts[j].clock.look);
    LastPutIsLastDelivery(p, max, ttl, k);
    i := LastDelivery(p, k, max, ttl);
    DeliveredInPrefix(ts, j, i, max, ttl);
  }
}

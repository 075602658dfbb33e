/** The de-duplication cache while a server sends numbered events. Ids are written as decimals. First what
    any use of the cache keeps, whatever the server does; then the window of events a server may replay when
    it does not go back, and other ids take their places in the cache as well. */
module ReplayWindow {
  import opened Text
  import opened LruTtl
  import opened SeenIds
  import opened SseBridge

  /** The `id:` of event `q`. */
  function EventId(q: nat): string {
    Decimal(q)
  }

  /** The ids of events `lo..hi`. */
  ghost function Ids(lo: int, hi: int): set<string> {
    set q: nat | lo <= q <= hi :: EventId(q)
  }

  lemma {:induction false} IdsSize(lo: int, hi: int)
    requires lo <= hi + 1
    ensures |Ids(lo, hi)| <= hi - lo + 1
    decreases hi - lo + 1
  {
    if lo <= hi {
      IdsSize(lo, hi - 1);
      var all, less := Ids(lo, hi), Ids(lo, hi - 1);
      if hi >= 0 {
        assert all == less + {EventId(hi)};
      } else {
        assert all == less;
      }
    } else {
      assert Ids(lo, hi) == {};
    }
  }

  lemma IdsNarrow(lo: int, lo': int, hi: int)
    requires lo <= lo'
    ensures Ids(lo', hi) <= Ids(lo, hi)
  {
  }

  lemma LaterIdsDiffer(q: nat, hi: int)
    ensures EventId(q) !in Ids(q + 1, hi)
  {
    forall p: nat | q + 1 <= p <= hi ensures EventId(p) != EventId(q) {
      DecimalInjective(p, q);
    }
  }

  // ---------- what is remembered ----------

  ghost predicate NotBefore(h: History, now: real) {
    h != [] ==> h[|h| - 1].now <= now
  }

  ghost predicate Timely(h: History, c: Clock) {
    InOrder(c) && NotBefore(h, c.look)
  }

  /** If it was added, then at most the TTL before `now`. */
  ghost predicate InTime(cfg: Config, h: History, key: string, now: real) {
    var put := LastPut(h, key);
    put != [] ==> now - put[0].now <= cfg.ttl
  }

  /** Added, in time, and fewer other ids than the cache holds were used since it was used last. */
  ghost predicate Remembered(cfg: Config, h: History, key: string, now: real) {
    && LastPut(h, key) != [] && InTime(cfg, h, key, now)
    && |Rivals(h, key, cfg.maxSize, cfg.ttl)| < cfg.maxSize
  }

  lemma RememberedIsKnown(cfg: Config, h: History, key: string, now: real)
    requires Monotone(h) && NotBefore(h, now) && Remembered(cfg, h, key, now)
    ensures Knows(cfg, h, key, now)
  {
    if !Knows(cfg, h, key, now) {
      MissIsJustified(h, cfg.maxSize, cfg.ttl, key, now);
    }
  }

  // ---------- what every use keeps ----------

  /** Event `q` was inserted exactly if it is among the received ones `f..top`. */
  ghost predicate InsertedUpTo(h: History, f: nat, top: int) {
    && (forall q: nat :: f <= q <= top ==> LastPut(h, EventId(q)) != [])
    && (forall q: nat :: q > top ==> LastPut(h, EventId(q)) == [])
  }

  ghost predicate Healthy(h: History, f: nat, top: int) {
    Monotone(h) && InsertedUpTo(h, f, top)
  }

  /** A key that is no event's id. */
  ghost predicate IsStranger(key: string) {
    forall q: nat :: EventId(q) != key
  }

  /** A touch inserts at most the key touched. */
  lemma TouchPuts(cfg: Config, h: History, key: string, c: Clock, k: string)
    ensures var h' := Touched(cfg, h, key, c);
            if key == k && !Knows(cfg, h, key, c.look) then LastPut(h', k) != [] else LastPut(h', k) == LastPut(h, k)
  {
    StepFacts(h, Touch(key, c), cfg.maxSize, cfg.ttl, k);
  }

  lemma TouchIsMonotone(cfg: Config, h: History, key: string, c: Clock)
    requires Monotone(h) && Timely(h, c)
    ensures Monotone(Touched(cfg, h, key, c)) && NotBefore(Touched(cfg, h, key, c), c.stamp)
  {
    StepMonotone(h, Touch(key, c), cfg.maxSize, cfg.ttl);
  }

  /** Using an event that was received. */
  lemma UseKeepsHealthy(cfg: Config, h: History, f: nat, x: nat, top: int, c: Clock)
    requires Healthy(h, f, top) && Timely(h, c) && f <= x <= top
    ensures Healthy(Touched(cfg, h, EventId(x), c), f, top) && NotBefore(Touched(cfg, h, EventId(x), c), c.stamp)
  {
    TouchIsMonotone(cfg, h, EventId(x), c);
    forall q: nat ensures LastPut(Touched(cfg, h, EventId(x), c), EventId(q)) == [] <==> LastPut(h, EventId(q)) == [] {
      TouchPuts(cfg, h, EventId(x), c, EventId(q));
      assert LastPut(h, EventId(x)) != [];
    }
  }

  /** Receiving the next event: a miss. */
  lemma NewKeepsHealthy(cfg: Config, h: History, f: nat, next: nat, c: Clock)
    requires Healthy(h, f, next - 1) && Timely(h, c)
    ensures !Knows(cfg, h, EventId(next), c.look)
    ensures Healthy(Touched(cfg, h, EventId(next), c), f, next) && NotBefore(Touched(cfg, h, EventId(next), c), c.stamp)
  {
    NewIsUnknown(cfg, h, f, next, c.look);
    TouchIsMonotone(cfg, h, EventId(next), c);
    forall q: nat
      ensures LastPut(Touched(cfg, h, EventId(next), c), EventId(q)) == [] <==>
              q != next && LastPut(h, EventId(q)) == []
    {
      TouchPuts(cfg, h, EventId(next), c, EventId(q));
      DecimalInjective(q, next);
    }
  }

  lemma NewIsUnknown(cfg: Config, h: History, f: nat, next: nat, now: real)
    requires InsertedUpTo(h, f, next - 1)
    ensures !Knows(cfg, h, EventId(next), now)
  {
    if Knows(cfg, h, EventId(next), now) {
      HitIsLastPut(h, cfg.maxSize, cfg.ttl, EventId(next), now);
    }
  }

  /** Using a key that is no event's id. */
  lemma StrangerKeepsHealthy(cfg: Config, h: History, f: nat, key: string, top: int, c: Clock)
    requires Healthy(h, f, top) && Timely(h, c) && IsStranger(key)
    ensures Healthy(Touched(cfg, h, key, c), f, top) && NotBefore(Touched(cfg, h, key, c), c.stamp)
  {
    TouchIsMonotone(cfg, h, key, c);
    forall q: nat ensures LastPut(Touched(cfg, h, key, c), EventId(q)) == LastPut(h, EventId(q)) {
      TouchPuts(cfg, h, key, c, EventId(q));
    }
  }

  // ---------- the window of a server that does not go back ----------

  /** `top` is the last event received, `low` the event the current connection started at, and `next` the
      one it sends next. `width` events are protected; `strangers` are the other ids that may be used. */
  datatype Window = Window(low: nat, next: nat, top: int, width: nat, strangers: set<string>)

  /** Event `q` can only be pushed out by the other events of the last `width`, and strangers. */
  ghost predicate SafeAt(cfg: Config, h: History, w: Window, q: nat) {
    Rivals(h, EventId(q), cfg.maxSize, cfg.ttl) <= (Ids(w.top + 1 - w.width, w.top) - {EventId(q)}) + w.strangers
  }

  /** Event `q` was used on this connection, and since then only the events after it, and strangers. */
  ghost predicate RecentAt(cfg: Config, h: History, w: Window, q: nat) {
    Rivals(h, EventId(q), cfg.maxSize, cfg.ttl) <= Ids(q + 1, w.next - 1) + w.strangers
  }

  ghost predicate SafeFrom(cfg: Config, h: History, w: Window) {
    forall q: nat :: w.low <= q <= w.top && w.top < q + w.width ==> SafeAt(cfg, h, w, q)
  }

  ghost predicate RecentFrom(cfg: Config, h: History, w: Window) {
    forall q: nat :: w.low <= q < w.next ==> RecentAt(cfg, h, w, q)
  }

  ghost predicate Guarded(cfg: Config, h: History, w: Window) {
    SafeFrom(cfg, h, w) && RecentFrom(cfg, h, w)
  }

  ghost predicate HasRoom(cfg: Config, w: Window) {
    w.width + |w.strangers| <= cfg.maxSize
  }

  /** A protected event that comes back in time is remembered. */
  lemma GuardedIsRemembered(cfg: Config, h: History, w: Window, x: nat, now: real)
    requires SafeFrom(cfg, h, w) && HasRoom(cfg, w) && w.low <= x <= w.top < x + w.width
    requires LastPut(h, EventId(x)) != [] && InTime(cfg, h, EventId(x), now)
    ensures Remembered(cfg, h, EventId(x), now)
  {
    assert SafeAt(cfg, h, w, x);
    RoomForOthers(w, x);
    SubsetSize(Rivals(h, EventId(x), cfg.maxSize, cfg.ttl),
               (Ids(w.top + 1 - w.width, w.top) - {EventId(x)}) + w.strangers);
  }

  lemma RoomForOthers(w: Window, x: nat)
    requires x <= w.top < x + w.width
    ensures |(Ids(w.top + 1 - w.width, w.top) - {EventId(x)}) + w.strangers| < w.width + |w.strangers|
  {
    var window := Ids(w.top + 1 - w.width, w.top);
    IdsSize(w.top + 1 - w.width, w.top);
    WithoutOne(window, EventId(x));
    UnionSize(window - {EventId(x)}, w.strangers);
  }

  lemma WithoutOne(s: set<string>, x: string)
    requires x in s
    ensures |s - {x}| == |s| - 1
  {
  }

  lemma UnionSize(a: set<string>, b: set<string>)
    ensures |a + b| <= |a| + |b|
  {
  }

  /** A touch makes the key a rival of every other. */
  lemma TouchRivals(cfg: Config, h: History, key: string, c: Clock, k: string)
    ensures Rivals(Touched(cfg, h, key, c), k, cfg.maxSize, cfg.ttl)
            <= if key == k then {} else Rivals(h, k, cfg.maxSize, cfg.ttl) + {key}
  {
    StepFacts(h, Touch(key, c), cfg.maxSize, cfg.ttl, k);
  }

  lemma UseKeepsSafe(cfg: Config, h: History, w: Window, x: nat, c: Clock)
    requires SafeFrom(cfg, h, w) && w.low <= x <= w.top && (x < w.top ==> w.top < w.low + w.width)
    ensures SafeFrom(cfg, Touched(cfg, h, EventId(x), c), w)
  {
    forall q: nat | w.low <= q <= w.top && w.top < q + w.width
      ensures SafeAt(cfg, Touched(cfg, h, EventId(x), c), w, q)
    {
      assert SafeAt(cfg, h, w, q);
      TouchRivals(cfg, h, EventId(x), c, EventId(q));
      assert EventId(x) in Ids(w.top + 1 - w.width, w.top);
    }
  }

  lemma UseKeepsRecent(cfg: Config, h: History, w: Window, x: nat, after: nat, c: Clock)
    requires RecentFrom(cfg, h, w) && after == x + 1 && (w.next == x || w.next == after)
    ensures RecentFrom(cfg, Touched(cfg, h, EventId(x), c), w.(next := after))
  {
    forall q: nat | w.low <= q < after ensures RecentAt(cfg, Touched(cfg, h, EventId(x), c), w.(next := after), q) {
      if q < x { assert RecentAt(cfg, h, w, q); }
      OneMoreRecent(cfg, h, w, x, after, c, q);
    }
  }

  lemma OneMoreRecent(cfg: Config, h: History, w: Window, x: nat, after: nat, c: Clock, q: nat)
    requires q <= x && after == x + 1 && w.next <= after && (q < x ==> RecentAt(cfg, h, w, q))
    ensures RecentAt(cfg, Touched(cfg, h, EventId(x), c), w.(next := after), q)
  {
    TouchRivals(cfg, h, EventId(x), c, EventId(q));
    if q < x { IdsUpTo(q + 1, w.next, after, x); }
  }

  lemma IdsUpTo(lo: int, next: nat, after: nat, x: nat)
    requires lo <= x && next <= after == x + 1
    ensures Ids(lo, next - 1) + {EventId(x)} <= Ids(lo, after - 1)
  {
  }

  /** Using an event of the window, hit or miss, keeps every event of the window protected. */
  lemma UseKeepsGuarded(cfg: Config, h: History, w: Window, x: nat, after: nat, c: Clock)
    requires Guarded(cfg, h, w) && w.low <= x <= w.top && (x < w.top ==> w.top < w.low + w.width)
    requires after == x + 1 && (w.next == x || w.next == after)
    ensures Guarded(cfg, Touched(cfg, h, EventId(x), c), w.(next := after))
  {
    UseKeepsSafe(cfg, h, w, x, c);
    UseKeepsRecent(cfg, h, w, x, after, c);
    SafeWhereverNext(cfg, Touched(cfg, h, EventId(x), c), w, after);
  }

  lemma SafeWhereverNext(cfg: Config, h: History, w: Window, next: nat)
    requires SafeFrom(cfg, h, w)
    ensures SafeFrom(cfg, h, w.(next := next))
  {
    var w' := w.(next := next);
    forall q: nat | w'.low <= q <= w'.top && w'.top < q + w'.width ensures SafeAt(cfg, h, w', q) {
      assert SafeAt(cfg, h, w, q);
    }
  }

  /** A new event moves the window up by one. */
  lemma NewKeepsGuarded(cfg: Config, h: History, w: Window, next: nat, after: nat, c: Clock)
    requires Guarded(cfg, h, w) && w.next == next == w.top + 1 && after == next + 1
    ensures Guarded(cfg, Touched(cfg, h, EventId(next), c), w.(next := after, top := next))
  {
    var h' := Touched(cfg, h, EventId(next), c);
    UseKeepsRecent(cfg, h, w, next, after, c);
    RecentIsSafe(cfg, h', w.(next := after), next);
  }

  lemma RecentIsSafe(cfg: Config, h: History, w: Window, top: nat)
    requires RecentFrom(cfg, h, w) && w.next == top + 1
    ensures Guarded(cfg, h, w.(top := top))
  {
    var w' := w.(top := top);
    forall q: nat | w'.low <= q < w'.next ensures RecentAt(cfg, h, w', q) {
      assert RecentAt(cfg, h, w, q);
    }
    forall q: nat | w'.low <= q <= w'.top && w'.top < q + w'.width ensures SafeAt(cfg, h, w', q) {
      assert RecentAt(cfg, h, w, q);
      LaterIdsDiffer(q, top);
      IdsNarrow(top + 1 - w.width, q + 1, top);
    }
  }

  /** A stranger takes a place, and protects nothing less. */
  lemma StrangerKeepsGuarded(cfg: Config, h: History, w: Window, key: string, c: Clock)
    requires Guarded(cfg, h, w) && key in w.strangers
    ensures Guarded(cfg, Touched(cfg, h, key, c), w)
  {
    var h' := Touched(cfg, h, key, c);
    forall q: nat | w.low <= q <= w.top && w.top < q + w.width ensures SafeAt(cfg, h', w, q) {
      assert SafeAt(cfg, h, w, q);
      TouchRivals(cfg, h, key, c, EventId(q));
    }
    forall q: nat | w.low <= q < w.next ensures RecentAt(cfg, h', w, q) {
      assert RecentAt(cfg, h, w, q);
      TouchRivals(cfg, h, key, c, EventId(q));
    }
  }

  /** A new connection that starts no earlier. */
  lemma RestartKeepsGuarded(cfg: Config, h: History, w: Window, start: nat)
    requires Guarded(cfg, h, w) && w.low <= start
    ensures Guarded(cfg, h, w.(low := start, next := start))
  {
    var w' := w.(low := start, next := start);
    forall q: nat | w'.low <= q <= w'.top && w'.top < q + w'.width ensures SafeAt(cfg, h, w', q) {
      assert SafeAt(cfg, h, w, q);
    }
  }
}

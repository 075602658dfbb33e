/** Why the server's three promises are asked for. For every cache size, TTL and log: a run that keeps every
    promise but one, in which an event is delivered twice. */
module SseLimits {
  import opened Text
  import opened LruTtl
  import opened SeenIds
  import Parser = SseParser
  import opened SseBridge
  import opened ReplayWindow
  import opened SseWire
  import opened SseDelivery
  import opened SseServer

  // ---------- the wire ----------

  function Events(n: nat): seq<Item> {
    seq(n, _ => Event)
  }

  /** A connection that sends `n` events from `start` on, and nothing else. */
  function Whole(log: Log, start: Number, n: nat): Connection {
    Connection(start, Events(n), |Wire(log, start, Events(n))|)
  }

  const ONE: nat := 1

  function Single(log: Log, start: Number): Connection {
    Whole(log, start, ONE)
  }

  function Plain(start: nat, n: nat): seq<nat> {
    seq(n, i requires 0 <= i < n => start + i)
  }

  lemma {:induction false} NumbersOfWhole(log: Log, start: Number, n: nat)
    requires start + n <= |log| + 1
    ensures Numbers(log, start, Events(n), |Wire(log, start, Events(n))|) == Plain(start, n)
    decreases n
  {
    if n > 0 {
      NumbersOfWhole(log, start + 1, n - 1);
      NumbersOfNext(log, start, start + 1, n, n - 1);
    }
  }

  lemma NumbersOfNext(log: Log, start: Number, next: Number, n: nat, left: nat)
    requires next == start + 1 && n == left + 1 && start <= |log|
    requires Numbers(log, next, Events(left), |Wire(log, next, Events(left))|) == Plain(next, left)
    ensures Numbers(log, start, Events(n), |Wire(log, start, Events(n))|) == Plain(start, n)
  {
    EventsNext(n, left);
    NumbersCons(log, start, next, Events(n), Events(left));
    PlainNext(start, next, n, left);
  }

  lemma EventsNext(n: nat, left: nat)
    requires n == left + 1
    ensures Events(n) != [] && Events(n)[0] == Event && Events(n)[1..] == Events(left)
  {
  }

  lemma PlainNext(start: nat, next: nat, n: nat, left: nat)
    requires n == left + 1 && next == start + 1
    ensures Plain(start, n) == [start] + Plain(next, left)
  {
  }

  lemma NumbersCons(log: Log, start: nat, next: nat, items: seq<Item>, rest: seq<Item>)
    requires 1 <= start <= |log| && next == start + 1 && items != [] && items[0] == Event && items[1..] == rest
    ensures Numbers(log, start, items, |Wire(log, start, items)|) ==
            [start] + Numbers(log, next, rest, |Wire(log, next, rest)|)
  {
    WireCons(log, start, next, items, rest);
    NumbersFirst(log, start, next, items, rest, |Wire(log, start, items)|);
  }

  lemma WireCons(log: Log, start: nat, next: nat, items: seq<Item>, rest: seq<Item>)
    requires 1 <= start <= |log| && next == start + 1 && items != [] && items[0] == Event && items[1..] == rest
    ensures |Wire(log, start, items)| == EventSize(log, start) + |Wire(log, next, rest)|
  {
  }

  lemma NumbersFirst(log: Log, start: nat, next: nat, items: seq<Item>, rest: seq<Item>, n: nat)
    requires 1 <= start <= |log| && next == start + 1 && items != [] && items[0] == Event && items[1..] == rest
    requires n >= EventSize(log, start)
    ensures Numbers(log, start, items, n) == [start] + Numbers(log, next, rest, n - EventSize(log, start))
  {
  }

  lemma {:induction false} FitsPlain(log: Log, start: Number, n: nat, es: seq<Parser.SseEvent>, sticky: string)
    requires start + n <= |log| + 1 && Fits(log, {}, es, Plain(start, n), start, sticky)
    ensures |es| == n && forall i :: 0 <= i < n ==> es[i] == EventAt(log, start + i)
    decreases n
  {
    if n > 0 {
      assert Plain(start, n)[1..] == Plain(start + 1, n - 1);
      FitsPlain(log, start + 1, n - 1, es[1..], EventId(start));
    }
  }

  /** What such a connection hands over. */
  lemma PassOfWhole(log: Log, k: nat, start: Number, n: nat)
    requires Sendable(log) && start + n <= |log| + 1
    ensures var p := PassOf(log, k, Whole(log, start, n));
            && p.nums == Plain(start, n) && |p.es| == n
            && forall i :: 0 <= i < n ==> p.es[i] == EventAt(log, start + i)
  {
    NumbersOfWhole(log, start, n);
    HandedIsARun(log, {}, start, Events(n), |Wire(log, start, Events(n))|, "");
    FitsPlain(log, start, n, PassOf(log, k, Whole(log, start, n)).es, "");
  }

  // ---------- a quiet environment ----------

  const NO_DATA: DataFields := DataFields(None, None)

  function At(now: real): Arrival {
    Arrival(NO_DATA, Clock(now, now, now))
  }

  /** The first connection happens at time zero, the others at `gap`. */
  function Quiet(gap: real): Env {
    (k, j) => if k == 0 then At(0.0) else At(gap)
  }

  lemma QuietAt(gap: real, k: nat, j: nat)
    ensures Quiet(gap)(k, j) == if k == 0 then At(0.0) else At(gap)
  {
  }

  ghost predicate AllAtZero(h: History) {
    forall i :: 0 <= i < |h| ==> h[i].now == 0.0
  }

  lemma PutsAtZero(h: History, key: string)
    requires AllAtZero(h)
    ensures LastPut(h, key) != [] ==> LastPut(h, key)[0].now == 0.0
  {
    assert LastPut(h, key) != [] ==> LastPut(h, key)[0] in h;
  }

  lemma HandleAtZero(cfg: Config, st: BridgeState, e: Parser.SseEvent)
    requires AllAtZero(st.history)
    ensures AllAtZero(Handle(cfg, st, e, At(0.0)).history)
  {
    HandleTouches(cfg, st, e, At(0.0));
  }

  ghost predicate AllNumbered(p: Pass, i: nat) {
    forall j :: i <= j < |p.es| ==> p.NumberAt(j) != 0
  }

  lemma QuietArrival(w: World, st: BridgeState, e: Parser.SseEvent, num: nat)
    requires num != 0 && AllAtZero(st.history) && w.cfg.ttl >= 0.0
    ensures Punctual(w, {}, st, e, num, At(0.0))
  {
    PutsAtZero(st.history, EventId(num));
  }

  lemma {:induction false} QuietPass(w: World, st: BridgeState, p: Pass, i: nat, gap: real)
    requires i <= |p.es| && AllNumbered(p, i) && AllAtZero(st.history) && w.cfg.ttl >= 0.0 && (p.k == 0 || gap == 0.0)
    ensures AllPunctual(w, {}, st, p, i, Quiet(gap))
    decreases |p.es| - i
  {
    if i < |p.es| {
      QuietAt(gap, p.k, i);
      QuietArrival(w, st, p.es[i], p.NumberAt(i));
      HandleAtZero(w.cfg, st, p.es[i]);
      QuietPass(w, Handle(w.cfg, st, p.es[i], At(0.0)), p, i + 1, gap);
    }
  }

  lemma {:induction false} QuietHistory(cfg: Config, st: BridgeState, es: seq<Parser.SseEvent>, i: nat, k: nat,
                                        gap: real)
    requires i <= |es| && AllAtZero(st.history) && (k == 0 || gap == 0.0)
    ensures AllAtZero(Consume(cfg, st, es, i, k, Quiet(gap)).history)
    decreases |es| - i
  {
    if i < |es| {
      QuietAt(gap, k, i);
      HandleAtZero(cfg, st, es[i]);
      QuietHistory(cfg, Handle(cfg, st, es[i], At(0.0)), es, i + 1, k, gap);
    }
  }

  // ---------- runs of whole connections ----------

  lemma RunNext(w: World, before: seq<Connection>, c: Connection, run: seq<Connection>, k: nat, env: Env)
    requires run == before + [c] && k == |before|
    ensures run[..k] == before
    ensures AfterRun(w, run, env) == Consume(w.cfg, AfterRun(w, before, env), PassOf(w.log, k, c).es, 0, k, env)
  {
    assert run[..k] == before;
  }

  lemma PassOfSingle(log: Log, k: nat, start: Number)
    requires Sendable(log) && start <= |log|
    ensures PassOf(log, k, Single(log, start)) == Pass(k, [EventAt(log, start)], [start])
  {
    var p := PassOf(log, k, Single(log, start));
    PassOfWhole(log, k, start, ONE);
    assert p.es[0] == EventAt(log, start + 0);
    OneOfEach(p.es, p.nums, EventAt(log, start), start);
  }

  lemma OneOfEach(es: seq<Parser.SseEvent>, nums: seq<nat>, e: Parser.SseEvent, start: Number)
    requires |es| == 1 && es[0] == e && nums == Plain(start, 1)
    ensures es == [e] && nums == [start]
  {
  }

  /** One more connection, of a single event. */
  lemma OneEvent(w: World, before: seq<Connection>, start: Number, env: Env)
    requires Sendable(w.log) && start <= |w.log|
    ensures AfterRun(w, before + [Single(w.log, start)], env) ==
            Handle(w.cfg, AfterRun(w, before, env), EventAt(w.log, start), env(|before|, 0))
  {
    var c, k := Single(w.log, start), |before|;
    PassOfSingle(w.log, k, start);
    RunNext(w, before, c, before + [c], k, env);
    ConsumeOne(w.cfg, AfterRun(w, before, env), PassOf(w.log, k, c).es, k, env);
  }

  lemma ConsumeOne(cfg: Config, st: BridgeState, es: seq<Parser.SseEvent>, k: nat, env: Env)
    requires |es| == 1
    ensures Consume(cfg, st, es, 0, k, env) == Handle(cfg, st, es[0], env(k, 0))
  {
  }

  /** The events of a run end at `top`, everything happened at time zero, and the server kept its promises. */
  ghost predicate Stands(w: World, run: seq<Connection>, top: nat, gap: real) {
    && ServerKeeps(w, {}, run, Quiet(gap)) && OnlyEvents(run)
    && AllAtZero(AfterRun(w, run, Quiet(gap)).history) && Top(w.first, AfterRun(w, run, Quiet(gap))) == top
  }

  ghost predicate Ready(w: World) {
    Sendable(w.log) && w.cfg.useV2 && w.first <= |w.log| && w.cfg.ttl >= 0.0
  }

  ghost predicate OnlyEvents(run: seq<Connection>) {
    forall c :: c in run ==> Frames(c.items) == {}
  }

  lemma OnlyEventsIsFrameless(run: seq<Connection>)
    requires OnlyEvents(run)
    ensures FramesOf(run) == {}
  {
  }

  lemma WholeIsOnlyEvents(log: Log, start: Number, n: nat)
    ensures Frames(Whole(log, start, n).items) == {}
  {
  }

  lemma {:induction false} PlainEnds(p: Pass, i: nat, start: nat, n: nat)
    requires i <= n == |p.es| && p.nums == Plain(start, n) && start >= 1
    ensures NextAfter(p, i, start + i) == start + n
    decreases n - i
  {
    if i < n { PlainEnds(p, i + 1, start, n); }
  }

  /** New events only: the last one is the last received. */
  lemma {:induction false} NewPass(w: World, p: Pass, i: nat, s: Spot, t: Tracked, env: Env)
    requires Sendable(w.log) && w.cfg.useV2 && Midway(w, {}, p, i, s, t) && AllArriveWell(w, t.st, p, i, env)
    requires AllNumbered(p, i) && Top(w.first, t.st) == s.next - 1
    ensures Top(w.first, TakeAll(w.cfg, t, p, i, env).st) == NextAfter(p, i, s.next) - 1
    decreases |p.es| - i
  {
    if i < |p.es| {
      var s', t' := Advance(s, p.NumberAt(i)), Take(w.cfg, t, p.es[i], p.NumberAt(i), env(p.k, i));
      FitsStep(w.log, {}, p, i, i + 1, s);
      ArrivalKeeps(w, {}, p, i, i + 1, s, t, env(p.k, i));
      NewPass(w, p, i + 1, s', t', env);
      PassNext(w, p, i, i + 1, s, t, t', env);
    }
  }

  /** The first connection sends the first `n` events. */
  lemma FirstIsPromised(w: World, n: nat, c: Connection, p: Pass, gap: real)
    requires Ready(w) && 1 <= n && w.first + n <= |w.log| + 1
    requires c == Whole(w.log, w.first, n) && p == PassOf(w.log, 0, c)
    ensures ServerKeeps(w, {}, [c], Quiet(gap)) && AllAtZero(AfterRun(w, [c], Quiet(gap)).history)
    ensures AllArriveWell(w, Fresh(), p, 0, Quiet(gap))
    ensures AfterRun(w, [c], Quiet(gap)) == Consume(w.cfg, Fresh(), p.es, 0, 0, Quiet(gap))
  {
    PassOfWhole(w.log, 0, w.first, n);
    QuietPass(w, Fresh(), p, 0, gap);
    QuietHistory(w.cfg, Fresh(), p.es, 0, 0, gap);
    RunNext(w, [], c, [c], 0, Quiet(gap));
    RunIsGuarded(w, {}, [c], Quiet(gap));
  }

  lemma FirstTop(w: World, n: nat, c: Connection, p: Pass, gap: real)
    requires Ready(w) && 1 <= n && w.first + n <= |w.log| + 1
    requires c == Whole(w.log, w.first, n) && p == PassOf(w.log, 0, c) && AllArriveWell(w, Fresh(), p, 0, Quiet(gap))
    ensures Top(w.first, Consume(w.cfg, Fresh(), p.es, 0, 0, Quiet(gap))) == w.first + n - 1
    ensures NextAfter(p, 0, w.first) == w.first + n
  {
    var t := Tracked(Fresh(), []);
    PassOfWhole(w.log, 0, w.first, n);
    WholeIsOnlyEvents(w.log, w.first, n);
    StartConnection(w, {}, w.first, t, 0, c);
    NewPass(w, p, 0, Spot(w.first, ""), t, Quiet(gap));
    PlainEnds(p, 0, w.first, n);
    TakeAllConsumes(w.cfg, t, p, 0, Quiet(gap));
  }

  lemma FirstEvents(w: World, n: nat, top: nat, next: nat, c: Connection, run: seq<Connection>, gap: real)
    requires Ready(w) && 1 <= n && next == w.first + n <= |w.log| + 1 && top == next - 1
    requires c == Whole(w.log, w.first, n) && run == [c]
    ensures Stands(w, run, top, gap)
    ensures GuardedAt(w, {}, w.first, next, AfterRun(w, run, Quiet(gap)))
  {
    var p := PassOf(w.log, 0, c);
    FirstIsPromised(w, n, c, p, gap);
    FirstTop(w, n, c, p, gap);
    WholeIsOnlyEvents(w.log, w.first, n);
    FirstIsGuarded(w, c, run, next, gap);
  }

  lemma FirstIsGuarded(w: World, c: Connection, run: seq<Connection>, next: nat, gap: real)
    requires Ready(w) && run == [c] && c.start == w.first && ServerKeeps(w, {}, run, Quiet(gap))
    requires next == NextAfter(PassOf(w.log, 0, c), 0, w.first)
    ensures GuardedAt(w, {}, w.first, next, AfterRun(w, run, Quiet(gap)))
  {
    RunIsGuarded(w, {}, run, Quiet(gap));
  }

  // ---------- what the cache has forgotten ----------

  ghost function Keys(s: SeenIds.Store): set<string> {
    set e | e in s :: e.key
  }

  lemma {:induction false} KeysSize(s: SeenIds.Store)
    ensures |Keys(s)| <= |s|
  {
    if s != [] {
      var n := |s| - 1;
      KeysSize(s[..n]);
      assert s == s[..n] + [s[n]];
      assert Keys(s) == Keys(s[..n]) + {s[n].key};
    }
  }

  lemma KnownHasKey(cfg: Config, h: History, key: string, now: real)
    requires Knows(cfg, h, key, now)
    ensures key in Keys(LruTtl.Run(h, cfg.maxSize, cfg.ttl))
  {
    var s := LruTtl.Run(h, cfg.maxSize, cfg.ttl);
    assert s[Find(s, key)] in s;
  }

  /** A cache that knows as many other ids as it holds has forgotten this one. */
  lemma FullCacheForgets(cfg: Config, h: History, known: set<string>, key: string, now: real)
    requires |known| == cfg.maxSize && key !in known && forall k :: k in known ==> Knows(cfg, h, k, now)
    ensures !Knows(cfg, h, key, now)
  {
    if Knows(cfg, h, key, now) {
      var s := LruTtl.Run(h, cfg.maxSize, cfg.ttl);
      forall k | k in known + {key} ensures k in Keys(s) {
        KnownHasKey(cfg, h, k, now);
      }
      SubsetSize(known + {key}, Keys(s));
      KeysSize(s);
      NeverAboveMax(h, cfg.maxSize, cfg.ttl);
      assert false;
    }
  }

  lemma {:induction false} IdsExactly(lo: nat, hi: int)
    requires lo <= hi + 1
    ensures |Ids(lo, hi)| == hi - lo + 1
    decreases hi - lo + 1
  {
    if lo <= hi {
      IdsExactly(lo, hi - 1);
      assert Ids(lo, hi) == Ids(lo, hi - 1) + {EventId(hi)};
      forall p: nat | lo <= p <= hi - 1 ensures EventId(p) != EventId(hi) {
        DecimalInjective(p, hi);
      }
    } else {
      assert Ids(lo, hi) == {};
    }
  }

  // ---------- one promise broken ----------

  /** An event the cache does not know is handed over, received before or not. */
  lemma DeliveredAgain(w: World, before: seq<Connection>, q: Number, env: Env, now: real)
    requires Sendable(w.log) && w.cfg.useV2 && q <= |w.log| && env(|before|, 0) == At(now)
    requires !Knows(w.cfg, AfterRun(w, before, env).history, EventId(q), now)
    ensures AfterRun(w, before + [Single(w.log, q)], env).delivered ==
            AfterRun(w, before, env).delivered + [w.log[q - 1]]
  {
    OneEvent(w, before, q, env);
    assert SendableAt(w.log, q);
    TakeUnknown(w.cfg, Tracked(AfterRun(w, before, env), []), EventAt(w.log, q), q, At(now), q);
  }

  /** Everything a server is asked for at the start of a connection and after, but for the part on the cache. */
  ghost predicate OnTime(w: World, run: seq<Connection>, q: Number, gap: real) {
    AllPunctual(w, {}, AfterRun(w, run, Quiet(gap)), PassOf(w.log, |run|, Single(w.log, q)), 0, Quiet(gap))
  }

  lemma SingleIsOnTime(w: World, run: seq<Connection>, top: nat, q: Number)
    requires Ready(w) && Stands(w, run, top, 0.0) && q <= |w.log|
    ensures OnTime(w, run, q, 0.0)
  {
    PassOfSingle(w.log, |run|, q);
    QuietSingle(w, AfterRun(w, run, Quiet(0.0)), PassOf(w.log, |run|, Single(w.log, q)), q);
  }

  lemma QuietSingle(w: World, st: BridgeState, p: Pass, q: Number)
    requires |p.es| == 1 && p.nums == [q] && AllAtZero(st.history) && w.cfg.ttl >= 0.0
    ensures AllPunctual(w, {}, st, p, 0, Quiet(0.0))
  {
    QuietPass(w, st, p, 0, 0.0);
  }

  /** What has been delivered so far. */
  lemma DeliveredSoFar(w: World, run: seq<Connection>, top: nat, gap: real)
    requires Ready(w) && Stands(w, run, top, gap)
    ensures w.first - 1 <= top <= |w.log| && AfterRun(w, run, Quiet(gap)).delivered == w.log[w.first - 1..top]
  {
    RunIsGuarded(w, {}, run, Quiet(gap));
    OnlyEventsIsFrameless(run);
    OnlyTheLog(w, run, Quiet(gap));
  }

  /** Event `q` was delivered, and is delivered once more when the next connection starts there. */
  ghost predicate DeliversTwice(w: World, run: seq<Connection>, q: Number, env: Env) {
    var st := AfterRun(w, run, env);
    && w.first <= q <= Top(w.first, st) <= |w.log| && st.delivered == w.log[w.first - 1..Top(w.first, st)]
    && AfterRun(w, run + [Single(w.log, q)], env).delivered == st.delivered + [w.log[q - 1]]
  }

  /** Event `q` comes again at `gap`, and the cache does not know it. */
  lemma ReplayedUnknown(w: World, run: seq<Connection>, top: nat, q: Number, gap: real)
    requires Ready(w) && Stands(w, run, top, gap) && run != [] && w.first <= q <= top
    requires !Knows(w.cfg, AfterRun(w, run, Quiet(gap)).history, EventId(q), gap)
    ensures DeliversTwice(w, run, q, Quiet(gap))
  {
    DeliveredSoFar(w, run, top, gap);
    QuietAt(gap, |run|, 0);
    DeliveredAgain(w, run, q, Quiet(gap), gap);
  }

  // ---------- too late ----------

  /** A server that replays an event after the TTL, every other promise kept, has it delivered twice. */
  lemma LateReplayDeliversTwice(w: World, gap: real) returns (run: seq<Connection>, q: Number)
    requires Ready(w) && w.cfg.maxSize >= 1 && gap > w.cfg.ttl
    ensures ServerKeeps(w, {}, run, Quiet(gap)) && DeliversTwice(w, run, q, Quiet(gap))
    ensures var st := AfterRun(w, run, Quiet(gap));
            InWindow(w, 0, LastStart(w, run), st, q) && Timely(st.history, At(gap).clock)
  {
    var c := Whole(w.log, w.first, ONE);
    run, q := [c], w.first;
    FirstEvents(w, ONE, q, q + 1, c, run, gap);
    LateReplay(w, run, q, gap);
  }

  lemma LateReplay(w: World, run: seq<Connection>, q: Number, gap: real)
    requires Ready(w) && Stands(w, run, q, gap) && run != [] && w.first == q == LastStart(w, run)
    requires w.cfg.maxSize >= 1 && gap > w.cfg.ttl
    ensures DeliversTwice(w, run, q, Quiet(gap))
    ensures var st := AfterRun(w, run, Quiet(gap));
            InWindow(w, 0, LastStart(w, run), st, q) && Timely(st.history, At(gap).clock)
  {
    ForgottenByAge(w.cfg, AfterRun(w, run, Quiet(gap)).history, EventId(q), gap);
    ReplayedUnknown(w, run, q, q, gap);
  }

  lemma ForgottenByAge(cfg: Config, h: History, key: string, now: real)
    requires AllAtZero(h) && now > cfg.ttl
    ensures !Knows(cfg, h, key, now)
  {
    if Knows(cfg, h, key, now) {
      HitIsLastPut(h, cfg.maxSize, cfg.ttl, key, now);
      PutsAtZero(h, key);
    }
  }

  // ---------- too far back ----------

  /** A server that replays one event more than the cache holds, every other promise kept, has it delivered
      twice. */
  lemma LongReplayDeliversTwice(w: World) returns (run: seq<Connection>, q: Number)
    requires Ready(w) && w.first + w.cfg.maxSize <= |w.log|
    ensures ServerKeeps(w, {}, run, Quiet(0.0)) && DeliversTwice(w, run, q, Quiet(0.0)) && OnTime(w, run, q, 0.0)
    ensures LastStart(w, run) <= q <= Top(w.first, AfterRun(w, run, Quiet(0.0))) == q + w.cfg.maxSize
  {
    var c, top := Whole(w.log, w.first, w.cfg.maxSize + 1), w.first + w.cfg.maxSize;
    run, q := [c], w.first;
    LongReplayRun(w, c, run, top, top + 1, q);
  }

  lemma LongReplayRun(w: World, c: Connection, run: seq<Connection>, top: nat, next: nat, q: Number)
    requires Ready(w) && top == w.first + w.cfg.maxSize <= |w.log| && next == top + 1
    requires c == Whole(w.log, w.first, w.cfg.maxSize + 1) && run == [c] && q == w.first
    ensures ServerKeeps(w, {}, run, Quiet(0.0)) && DeliversTwice(w, run, q, Quiet(0.0)) && OnTime(w, run, q, 0.0)
    ensures LastStart(w, run) <= q <= Top(w.first, AfterRun(w, run, Quiet(0.0))) == q + w.cfg.maxSize
  {
    FirstEvents(w, w.cfg.maxSize + 1, top, next, c, run, 0.0);
    LongReplay(w, run, top, next, q);
  }

  lemma LongReplay(w: World, run: seq<Connection>, top: nat, next: nat, q: Number)
    requires Ready(w) && Stands(w, run, top, 0.0) && run != [] && w.first == q == LastStart(w, run)
    requires top == w.first + w.cfg.maxSize && next == top + 1
    requires GuardedAt(w, {}, w.first, next, AfterRun(w, run, Quiet(0.0)))
    ensures DeliversTwice(w, run, q, Quiet(0.0)) && OnTime(w, run, q, 0.0)
    ensures LastStart(w, run) <= q <= Top(w.first, AfterRun(w, run, Quiet(0.0))) == q + w.cfg.maxSize
  {
    SingleIsOnTime(w, run, top, q);
    StandsHealthy(w, run, top, 0.0);
    FirstIsForgotten(w, AfterRun(w, run, Quiet(0.0)), top, next);
    ReplayedUnknown(w, run, top, q, 0.0);
  }

  lemma StandsHealthy(w: World, run: seq<Connection>, top: nat, gap: real)
    requires Ready(w) && Stands(w, run, top, gap)
    ensures Healthy(AfterRun(w, run, Quiet(gap)).history, w.first, top)
  {
    RunIsGuarded(w, {}, run, Quiet(gap));
    RunKeeps(w, run, FramesOf(run), Quiet(gap));
    TrackIsTheRun(w, run, Quiet(gap));
  }

  /** A received event is known as long as few enough others were used since. */
  lemma AtZeroIsKnown(cfg: Config, h: History, first: nat, top: int, q: nat)
    requires Healthy(h, first, top) && AllAtZero(h) && first <= q <= top && cfg.ttl >= 0.0
    requires |Rivals(h, EventId(q), cfg.maxSize, cfg.ttl)| < cfg.maxSize
    ensures Knows(cfg, h, EventId(q), 0.0)
  {
    PutsAtZero(h, EventId(q));
    RememberedIsKnown(cfg, h, EventId(q), 0.0);
  }

  lemma FirstIsForgotten(w: World, st: BridgeState, top: nat, next: nat)
    requires Ready(w) && top == w.first + w.cfg.maxSize == Top(w.first, st) && next == top + 1
    requires Healthy(st.history, w.first, top) && AllAtZero(st.history)
    requires GuardedAt(w, {}, w.first, next, st)
    ensures !Knows(w.cfg, st.history, EventId(w.first), 0.0)
  {
    forall k | k in Ids(w.first + 1, top) ensures Knows(w.cfg, st.history, k, 0.0) {
      var q: nat :| w.first + 1 <= q <= top && k == EventId(q);
      GuardedIsKnown(w, st, top, next, q);
    }
    IdsExactly(w.first + 1, top);
    LaterIdsDiffer(w.first, top);
    FullCacheForgets(w.cfg, st.history, Ids(w.first + 1, top), EventId(w.first), 0.0);
  }

  lemma GuardedIsKnown(w: World, st: BridgeState, top: nat, next: nat, q: nat)
    requires Ready(w) && top == Top(w.first, st) && w.first <= q <= top < q + w.cfg.maxSize
    requires Healthy(st.history, w.first, top) && AllAtZero(st.history)
    requires GuardedAt(w, {}, w.first, next, st)
    ensures Knows(w.cfg, st.history, EventId(q), 0.0)
  {
    PutsAtZero(st.history, EventId(q));
    GuardedIsRemembered(w.cfg, st.history, WindowAt(w, {}, w.first, next, st), q, 0.0);
    RememberedIsKnown(w.cfg, st.history, EventId(q), 0.0);
  }

  /** One more connection of a single event that keeps every promise. */
  lemma OneMore(w: World, before: seq<Connection>, top: nat, q: Number, run: seq<Connection>)
    requires Ready(w) && Stands(w, before, top, 0.0) && q <= |w.log| && run == before + [Single(w.log, q)]
    requires InWindow(w, 0, LastStart(w, before), AfterRun(w, before, Quiet(0.0)), q)
    ensures Stands(w, run, TopAfter(top, q), 0.0)
    ensures AfterRun(w, run, Quiet(0.0)).history ==
            Touched(w.cfg, AfterRun(w, before, Quiet(0.0)).history, EventId(q), At(0.0).clock)
  {
    OneMoreIsPromised(w, before, top, q, run);
    OneMoreTouches(w, before, q, run);
    WholeIsOnlyEvents(w.log, q, ONE);
    TopNext(w, before, top, q, run, Quiet(0.0));
  }

  lemma OneMoreIsPromised(w: World, before: seq<Connection>, top: nat, q: Number, run: seq<Connection>)
    requires Ready(w) && Stands(w, before, top, 0.0) && q <= |w.log| && run == before + [Single(w.log, q)]
    requires InWindow(w, 0, LastStart(w, before), AfterRun(w, before, Quiet(0.0)), q)
    ensures ServerKeeps(w, {}, run, Quiet(0.0))
  {
    SingleIsOnTime(w, before, top, q);
    KeepsNext(w, before, Single(w.log, q), run, |before|, Quiet(0.0));
  }

  lemma OneMoreTouches(w: World, before: seq<Connection>, q: Number, run: seq<Connection>)
    requires Ready(w) && q <= |w.log| && run == before + [Single(w.log, q)]
    requires AllAtZero(AfterRun(w, before, Quiet(0.0)).history)
    ensures AfterRun(w, run, Quiet(0.0)).history ==
            Touched(w.cfg, AfterRun(w, before, Quiet(0.0)).history, EventId(q), At(0.0).clock)
    ensures AllAtZero(AfterRun(w, run, Quiet(0.0)).history)
  {
    var st := AfterRun(w, before, Quiet(0.0));
    QuietAt(0.0, |before|, 0);
    OneEvent(w, before, q, Quiet(0.0));
    HandleAtZero(w.cfg, st, EventAt(w.log, q));
    HandleTouches(w.cfg, st, EventAt(w.log, q), At(0.0));
    assert EventId(q) != "";
  }

  lemma KeepsNext(w: World, before: seq<Connection>, c: Connection, run: seq<Connection>, k: nat, env: Env)
    requires run == before + [c] && k == |before| && ServerKeeps(w, {}, before, env)
    requires Keeps(w, {}, LastStart(w, before), AfterRun(w, before, env), k, c, env)
    ensures ServerKeeps(w, {}, run, env)
  {
    assert run[..k] == before;
  }

  lemma TopNext(w: World, before: seq<Connection>, top: nat, q: Number, run: seq<Connection>, env: Env)
    requires Ready(w) && run == before + [Single(w.log, q)] && ServerKeeps(w, {}, run, env) && q <= |w.log|
    requires ServerKeeps(w, {}, before, env) && top == Top(w.first, AfterRun(w, before, env))
    ensures Top(w.first, AfterRun(w, run, env)) == TopAfter(top, q)
  {
    var t := Track(w, before, env);
    RunIsGuarded(w, {}, before, env);
    RunKeeps(w, before, FramesOf(before), env);
    TrackIsTheRun(w, before, env);
    SingleArrivesWell(w, before, q, run, env);
    OneEvent(w, before, q, env);
    TakeKeeps(w, FramesOf(before), EventAt(w.log, q), q, Spot(q, ""), t, env(|before|, 0));
  }

  lemma SingleArrivesWell(w: World, before: seq<Connection>, q: Number, run: seq<Connection>, env: Env)
    requires Ready(w) && run == before + [Single(w.log, q)] && ServerKeeps(w, {}, run, env) && q <= |w.log|
    ensures ArrivesWell(w, AfterRun(w, before, env), EventAt(w.log, q), q, env(|before|, 0))
    ensures w.first <= q <= Top(w.first, AfterRun(w, before, env)) + 1
  {
    RunIsGuarded(w, {}, run, env);
    RunNext(w, before, Single(w.log, q), run, |before|, env);
    PassOfSingle(w.log, |before|, q);
  }

  // ---------- the server goes back ----------

  /** After events `first..top`, the first one again, and the next new one: every event but the second of them
      is among the last the cache holds. */
  lemma RewindKnows(w: World, h1: History, h2: History, h3: History, top: nat, next: nat, q: nat)
    requires Ready(w) && w.cfg.maxSize >= 2 && top == w.first + w.cfg.maxSize - 1 && next == top + 1
    requires RecentFrom(w.cfg, h1, Window(w.first, next, top, Width(w.cfg, {}), {}))
    requires h2 == Touched(w.cfg, h1, EventId(w.first), At(0.0).clock)
    requires h3 == Touched(w.cfg, h2, EventId(next), At(0.0).clock)
    requires Healthy(h3, w.first, next) && AllAtZero(h3) && w.first <= q <= next && q != w.first + 1
    ensures Knows(w.cfg, h3, EventId(q), 0.0)
  {
    RewindRivals(w, h1, h2, h3, top, next, q);
    AtZeroIsKnown(w.cfg, h3, w.first, next, q);
  }

  lemma RewindRivals(w: World, h1: History, h2: History, h3: History, top: nat, next: nat, q: nat)
    requires w.cfg.maxSize >= 2 && top == w.first + w.cfg.maxSize - 1 && next == top + 1
    requires RecentFrom(w.cfg, h1, Window(w.first, next, top, Width(w.cfg, {}), {}))
    requires h2 == Touched(w.cfg, h1, EventId(w.first), At(0.0).clock)
    requires h3 == Touched(w.cfg, h2, EventId(next), At(0.0).clock)
    requires w.first <= q <= next && q != w.first + 1
    ensures |Rivals(h3, EventId(q), w.cfg.maxSize, w.cfg.ttl)| < w.cfg.maxSize
  {
    TouchRivals(w.cfg, h1, EventId(w.first), At(0.0).clock, EventId(q));
    TouchRivals(w.cfg, h2, EventId(next), At(0.0).clock, EventId(q));
    var rivals := Rivals(h3, EventId(q), w.cfg.maxSize, w.cfg.ttl);
    if q == next {
      assert rivals == {};
    } else if q == w.first {
      SubsetSize(rivals, {EventId(next)});
    } else {
      assert RecentAt(w.cfg, h1, Window(w.first, next, top, Width(w.cfg, {}), {}), q);
      FewRivals(w, rivals, top, next, q);
    }
  }

  lemma FewRivals(w: World, rivals: set<string>, top: nat, next: nat, q: nat)
    requires w.first + 1 < q <= top == w.first + w.cfg.maxSize - 1
    requires rivals <= Ids(q + 1, top) + {EventId(w.first), EventId(next)}
    ensures |rivals| < w.cfg.maxSize
  {
    SubsetSize(rivals, Ids(q + 1, top) + {EventId(w.first), EventId(next)});
    IdsSize(q + 1, top);
    UnionSize(Ids(q + 1, top), {EventId(w.first), EventId(next)});
  }

  /** So the second has been forgotten. */
  lemma SecondIsForgotten(w: World, h1: History, h2: History, h3: History, top: nat, next: nat, second: nat)
    requires Ready(w) && w.cfg.maxSize >= 2 && top == w.first + w.cfg.maxSize - 1 && next == top + 1
    requires RecentFrom(w.cfg, h1, Window(w.first, next, top, Width(w.cfg, {}), {}))
    requires h2 == Touched(w.cfg, h1, EventId(w.first), At(0.0).clock)
    requires h3 == Touched(w.cfg, h2, EventId(next), At(0.0).clock)
    requires Healthy(h3, w.first, next) && AllAtZero(h3) && second == w.first + 1
    ensures !Knows(w.cfg, h3, EventId(second), 0.0)
  {
    var known := Ids(second + 1, next) + {EventId(w.first)};
    forall k | k in known ensures Knows(w.cfg, h3, k, 0.0) {
      if k == EventId(w.first) {
        RewindKnows(w, h1, h2, h3, top, next, w.first);
      } else {
        var q: nat :| second + 1 <= q <= next && k == EventId(q);
        RewindKnows(w, h1, h2, h3, top, next, q);
      }
    }
    KnownSize(w.first, second, next);
    FullCacheForgets(w.cfg, h3, known, EventId(second), 0.0);
  }

  lemma KnownSize(first: nat, second: nat, next: nat)
    requires second == first + 1 && second <= next
    ensures var known := Ids(second + 1, next) + {EventId(first)};
            |known| == next - second + 1 && EventId(second) !in known
  {
    IdsExactly(second + 1, next);
    LaterIdsDiffer(second, next);
    LaterIdsDiffer(first, next);
    IdsNarrow(second, second + 1, next);
    DecimalInjective(first, second);
    assert EventId(first) !in Ids(second + 1, next);
  }

  lemma Rewinds(w: World, run1: seq<Connection>, run2: seq<Connection>, run3: seq<Connection>, top: nat, next: nat)
    requires Ready(w) && w.cfg.maxSize >= 2 && top == w.first + w.cfg.maxSize - 1 && next == top + 1 <= |w.log|
    requires Stands(w, run1, top, 0.0) && run1 != [] && LastStart(w, run1) == w.first
    requires run2 == run1 + [Single(w.log, w.first)] && run3 == run2 + [Single(w.log, next)]
    ensures Stands(w, run2, top, 0.0) && Stands(w, run3, next, 0.0)
    ensures AfterRun(w, run2, Quiet(0.0)).history ==
            Touched(w.cfg, AfterRun(w, run1, Quiet(0.0)).history, EventId(w.first), At(0.0).clock)
    ensures AfterRun(w, run3, Quiet(0.0)).history ==
            Touched(w.cfg, AfterRun(w, run2, Quiet(0.0)).history, EventId(next), At(0.0).clock)
  {
    OneMore(w, run1, top, w.first, run2);
    OneMore(w, run2, top, next, run3);
  }

  lemma GuardedIsRecent(w: World, st: BridgeState, top: nat, next: nat)
    requires GuardedAt(w, {}, w.first, next, st) && Top(w.first, st) == top
    ensures RecentFrom(w.cfg, st.history, Window(w.first, next, top, Width(w.cfg, {}), {}))
  {
  }

  lemma Rewound(w: World, run1: seq<Connection>, run2: seq<Connection>, run3: seq<Connection>,
                top: nat, next: nat, q: Number)
    requires Ready(w) && w.cfg.maxSize >= 2 && top == w.first + w.cfg.maxSize - 1 && next == top + 1 <= |w.log|
    requires GuardedAt(w, {}, w.first, next, AfterRun(w, run1, Quiet(0.0))) && Stands(w, run1, top, 0.0)
    requires Stands(w, run3, next, 0.0) && q == w.first + 1
    requires AfterRun(w, run2, Quiet(0.0)).history ==
             Touched(w.cfg, AfterRun(w, run1, Quiet(0.0)).history, EventId(w.first), At(0.0).clock)
    requires AfterRun(w, run3, Quiet(0.0)).history ==
             Touched(w.cfg, AfterRun(w, run2, Quiet(0.0)).history, EventId(next), At(0.0).clock)
    ensures !Knows(w.cfg, AfterRun(w, run3, Quiet(0.0)).history, EventId(q), 0.0)
  {
    StandsHealthy(w, run3, next, 0.0);
    GuardedIsRecent(w, AfterRun(w, run1, Quiet(0.0)), top, next);
    SecondIsForgotten(w, AfterRun(w, run1, Quiet(0.0)).history, AfterRun(w, run2, Quiet(0.0)).history,
                      AfterRun(w, run3, Quiet(0.0)).history, top, next, q);
  }

  /** A server that goes back: after the first `max` events, the first again and the next new one, each connection
      as promised, it starts at the second event. Only that start lies before the last one, and the second event
      is delivered twice. */
  lemma RewindDeliversTwice(w: World) returns (run: seq<Connection>, q: Number)
    requires Ready(w) && w.cfg.maxSize >= 2 && w.first + w.cfg.maxSize <= |w.log|
    ensures ServerKeeps(w, {}, run, Quiet(0.0)) && DeliversTwice(w, run, q, Quiet(0.0)) && OnTime(w, run, q, 0.0)
    ensures q < LastStart(w, run) && FitsTheCache(w, 0, AfterRun(w, run, Quiet(0.0)), q)
  {
    var c, next := Whole(w.log, w.first, w.cfg.maxSize), w.first + w.cfg.maxSize;
    var run1 := [c];
    var run2 := run1 + [Single(w.log, w.first)];
    run, q := run2 + [Single(w.log, next)], w.first + 1;
    RewindRun(w, c, run1, run2, run, next - 1, next, q);
  }

  lemma RewindRun(w: World, c: Connection, run1: seq<Connection>, run2: seq<Connection>, run3: seq<Connection>,
                  top: nat, next: nat, q: Number)
    requires Ready(w) && w.cfg.maxSize >= 2 && top == w.first + w.cfg.maxSize - 1 && next == top + 1 <= |w.log|
    requires c == Whole(w.log, w.first, w.cfg.maxSize) && run1 == [c] && q == w.first + 1
    requires run2 == run1 + [Single(w.log, w.first)] && run3 == run2 + [Single(w.log, next)]
    ensures ServerKeeps(w, {}, run3, Quiet(0.0)) && DeliversTwice(w, run3, q, Quiet(0.0)) && OnTime(w, run3, q, 0.0)
    ensures q < LastStart(w, run3) && FitsTheCache(w, 0, AfterRun(w, run3, Quiet(0.0)), q)
  {
    FirstEvents(w, w.cfg.maxSize, top, next, c, run1, 0.0);
    Rewinds(w, run1, run2, run3, top, next);
    Rewound(w, run1, run2, run3, top, next, q);
    SingleIsOnTime(w, run3, next, q);
    ReplayedUnknown(w, run3, next, q, 0.0);
  }
}

/** The bridge against a server that drops connections, replays events and loses acks: what the agent sees
    over a whole run. A connection starts at some event of the server's log, sends events in order with frames
    without an id anywhere in between, and may break after any line. */
module SseDelivery {
  import opened Text
  import opened LruTtl
  import opened SeenIds
  import Parser = SseParser
  import Ack = AckCursor
  import opened SseBridge
  import opened ReplayWindow
  import opened IdlessEvents
  import opened SseWire

  // ---------- runs of connections ----------

  type Number = q: nat | q >= 1 witness 1

  /** One connection: where the server starts, what it sends, and after how many lines it breaks. */
  datatype Connection = Connection(start: Number, items: seq<Item>, cut: nat)

  /** The setting of a run: the bridge's configuration, the server's log, and the first event it sends. With
      `keepsPlace`, frames without an id are asked to find the event before them remembered (`ArrivesWell`). */
  datatype World = World(cfg: Config, log: Log, first: Number, keepsPlace: bool)

  /** What connection number `k` hands to the handler: events, and their numbers (0 for one without an id). */
  datatype Pass = Pass(k: nat, es: seq<Parser.SseEvent>, nums: seq<nat>) {
    function NumberAt(i: nat): nat {
      if i < |nums| then nums[i] else 0
    }
  }

  function PassOf(log: Log, k: nat, c: Connection): Pass {
    Pass(k, HandedFrom(log, c.start, c.items, c.cut, ""), Numbers(log, c.start, c.items, c.cut))
  }

  ghost function AfterRun(w: World, run: seq<Connection>, env: Env): BridgeState {
    if run == [] then Fresh()
    else
      var k := |run| - 1;
      Consume(w.cfg, AfterRun(w, run[..k], env), PassOf(w.log, k, run[k]).es, 0, k, env)
  }

  /** A bridge object served by the connections of a run, one after the other. */
  method Serve(w: World, run: seq<Connection>, env: Env) returns (bridge: Bridge)
    ensures fresh(bridge) && bridge.Valid() && bridge.State() == AfterRun(w, run, env)
    ensures !w.cfg.useV2 ==> bridge.acks.sent == [] && bridge.acks.pending == {} && bridge.acks.lastAcked == 0
  {
    NoAcksWithoutV2(w, run, env);
    bridge := new Bridge(w.cfg);
    var k := 0;
    while k < |run|
      invariant 0 <= k <= |run| && bridge.cfg == w.cfg
      invariant bridge.Valid() && fresh(bridge) && fresh(bridge.seen) && fresh(bridge.acks)
      invariant bridge.State() == AfterRun(w, run[..k], env)
    {
      assert run[..k + 1][..k] == run[..k];
      bridge.ConnectOnce(Cut(Wire(w.log, run[k].start, run[k].items), run[k].cut), k, env);
      k := k + 1;
    }
    assert run[..k] == run;
  }

  /** The same setting with acks on. */
  function WithAcks(w: World): World {
    w.(cfg := w.cfg.(useV2 := true))
  }

  /** Without V2 no ack is ever sent and none is pending, and everything else is as with it. */
  lemma {:induction false} NoAcksWithoutV2(w: World, run: seq<Connection>, env: Env)
    ensures !w.cfg.useV2 ==> AfterRun(w, run, env) == AfterRun(WithAcks(w), run, env).(ack := Ack.Start())
  {
    if run != [] && !w.cfg.useV2 {
      var k := |run| - 1;
      NoAcksWithoutV2(w, run[..k], env);
      AcksChangeNothingElse(w.cfg, AfterRun(WithAcks(w), run[..k], env), PassOf(w.log, k, run[k]).es, 0, k, env,
                            Ack.Start());
    }
  }

  /** The state together with a mark for every delivery: whether it was a numbered event. */
  datatype Tracked = Tracked(st: BridgeState, marks: seq<bool>)

  ghost function Take(cfg: Config, t: Tracked, e: Parser.SseEvent, num: nat, a: Arrival): Tracked {
    Tracked(Handle(cfg, t.st, e, a), if IsDuplicate(cfg, t.st, e, a) then t.marks else t.marks + [num != 0])
  }

  ghost function TakeAll(cfg: Config, t: Tracked, p: Pass, i: nat, env: Env): Tracked
    requires i <= |p.es|
    decreases |p.es| - i
  {
    if i == |p.es| then t else TakeAll(cfg, Take(cfg, t, p.es[i], p.NumberAt(i), env(p.k, i)), p, i + 1, env)
  }

  ghost function Track(w: World, run: seq<Connection>, env: Env): Tracked {
    if run == [] then Tracked(Fresh(), [])
    else
      var k := |run| - 1;
      TakeAll(w.cfg, Track(w, run[..k], env), PassOf(w.log, k, run[k]), 0, env)
  }

  lemma {:induction false} TakeAllConsumes(cfg: Config, t: Tracked, p: Pass, i: nat, env: Env)
    requires i <= |p.es|
    ensures TakeAll(cfg, t, p, i, env).st == Consume(cfg, t.st, p.es, i, p.k, env)
    decreases |p.es| - i
  {
    if i < |p.es| {
      TakeAllConsumes(cfg, Take(cfg, t, p.es[i], p.NumberAt(i), env(p.k, i)), p, i + 1, env);
    }
  }

  lemma {:induction false} TrackIsTheRun(w: World, run: seq<Connection>, env: Env)
    ensures Track(w, run, env).st == AfterRun(w, run, env)
  {
    if run != [] {
      TrackIsTheRun(w, run[..|run| - 1], env);
      TrackNext(w, run, run[..|run| - 1], |run| - 1, env);
    }
  }

  lemma TrackNext(w: World, run: seq<Connection>, before: seq<Connection>, k: nat, env: Env)
    requires |run| == k + 1 && before == run[..k] && Track(w, before, env).st == AfterRun(w, before, env)
    ensures Track(w, run, env) == TakeAll(w.cfg, Track(w, before, env), PassOf(w.log, k, run[k]), 0, env)
    ensures Track(w, run, env).st == AfterRun(w, run, env)
  {
    TakeAllConsumes(w.cfg, Track(w, before, env), PassOf(w.log, k, run[k]), 0, env);
  }

  // ---------- what is asked of server and clock ----------

  /** The last event received and acked, when the first event is `first`. */
  function Top(first: nat, st: BridgeState): int {
    if st.ack.sent == [] then first - 1 else st.ack.acked
  }

  /** The data of a frame names no sequence number, and no event's id. */
  ghost predicate NamesNoEvent(e: Parser.SseEvent, json: DataFields) {
    && (json.recipientSeq == None || json.recipientSeq == Some(0))
    && (DedupKey(e, json).Some? ==> IsStranger(DedupKey(e, json).value))
  }

  /** What is asked of one arrival: a replayed event is remembered; the data of a frame that comes before any
      event names none. With `keepsPlace`, the event before a frame without an id is the last, or remembered. */
  ghost predicate ArrivesWell(w: World, st: BridgeState, e: Parser.SseEvent, num: nat, a: Arrival) {
    var top := Top(w.first, st);
    && Timely(st.history, a.clock)
    && if num != 0 then num <= top ==> Remembered(w.cfg, st.history, EventId(num), a.clock.look)
       else if e.lastEventId == "" then NamesNoEvent(e, a.json)
       else w.keepsPlace ==>
              || (top >= 0 && e.lastEventId == EventId(top))
              || Remembered(w.cfg, st.history, e.lastEventId, a.clock.look)
  }

  ghost predicate AllArriveWell(w: World, st: BridgeState, p: Pass, i: nat, env: Env)
    requires i <= |p.es|
    decreases |p.es| - i
  {
    i == |p.es| ||
      (&& ArrivesWell(w, st, p.es[i], p.NumberAt(i), env(p.k, i))
       && AllArriveWell(w, Handle(w.cfg, st, p.es[i], env(p.k, i)), p, i + 1, env))
  }

  /** A connection starts no later than the event after the last one received, and all its arrivals are fine. */
  ghost predicate Acceptable(w: World, st: BridgeState, k: nat, c: Connection, env: Env) {
    w.first <= c.start <= Top(w.first, st) + 1 && AllArriveWell(w, st, PassOf(w.log, k, c), 0, env)
  }

  ghost predicate Admissible(w: World, run: seq<Connection>, env: Env) {
    run == [] ||
      var k := |run| - 1;
      Admissible(w, run[..k], env) && Acceptable(w, AfterRun(w, run[..k], env), k, run[k], env)
  }

  /** The frames without an id a run sends, heartbeats left out. */
  ghost function FramesOf(run: seq<Connection>): set<Frame> {
    set c, f | c in run && f in Frames(c.items) :: f
  }

  /** The event the last connection of a run would have sent next. */
  function NextOf(w: World, run: seq<Connection>): nat {
    if run == [] then w.first
    else
      var k := |run| - 1;
      NextAfter(PassOf(w.log, k, run[k]), 0, run[k].start)
  }

  /** The event after those a connection hands over from its `i`-th arrival on. */
  function NextAfter(p: Pass, i: nat, next: nat): nat
    requires i <= |p.es|
    decreases |p.es| - i
  {
    if i == |p.es| then next else NextAfter(p, i + 1, if p.NumberAt(i) != 0 then p.NumberAt(i) + 1 else next)
  }

  // ---------- the invariant ----------

  function Range(lo: int, hi: int): (r: seq<int>)
    ensures |r| == if lo <= hi then hi - lo + 1 else 0
    ensures forall i :: 0 <= i < |r| ==> r[i] == lo + i
  {
    seq(if lo <= hi then hi - lo + 1 else 0, i => lo + i)
  }

  /** The deliveries that are marked, in order. */
  function Marked(ds: seq<Delivery>, marks: seq<bool>): seq<Delivery>
    requires |ds| == |marks|
  {
    if ds == [] then []
    else
      var n := |ds| - 1;
      Marked(ds[..n], marks[..n]) + if marks[n] then [ds[n]] else []
  }

  /** A frame as the agent sees it. */
  function Seen(f: Frame): Delivery {
    Delivery(Read(f, "").eventType, Read(f, "").data)
  }

  ghost predicate IsSeen(d: Delivery, notes: set<Frame>) {
    exists n :: n in notes && d == Seen(n)
  }

  /** The marked deliveries are events `first..top` of the log, each once and in order; every other delivery is
      one of the frames `notes`. */
  ghost predicate Exactly(w: World, top: int, notes: set<Frame>, ds: seq<Delivery>, marks: seq<bool>)
    decreases |ds|
  {
    && |marks| == |ds|
    && if ds == [] then top == w.first - 1
       else
         var n := |ds| - 1;
         if marks[n] then
           w.first <= top <= |w.log| && ds[n] == w.log[top - 1] && Exactly(w, top - 1, notes, ds[..n], marks[..n])
         else
           IsSeen(ds[n], notes) && Exactly(w, top, notes, ds[..n], marks[..n])
  }

  /** Every event up to `top` was acked, one by one, and nothing above is pending. */
  ghost predicate AckedUpTo(first: nat, top: int, ack: Ack.AckState) {
    if top < first then ack == Ack.Start()
    else ack.acked == top && ack.sent == Range(first, top) && forall x :: x in ack.pending ==> x <= top
  }

  ghost predicate IsReceivedId(first: nat, top: int, id: string) {
    exists q: nat :: first <= q <= top && id == EventId(q)
  }

  /** The bridge reconnects with the id of an event it received; with `keepsPlace`, of the last one. */
  ghost predicate PlaceAt(w: World, top: int, id: string) {
    if top < w.first then id == ""
    else IsReceivedId(w.first, top, id) && (w.keepsPlace ==> id == EventId(top))
  }

  /** `next` is the event that may come next: a replayed one, or the first new one. */
  ghost predicate Inv(w: World, notes: set<Frame>, next: nat, t: Tracked) {
    var top := Top(w.first, t.st);
    && w.first <= next <= top + 1 && top <= |w.log|
    && Exactly(w, top, notes, t.st.delivered, t.marks)
    && AckedUpTo(w.first, top, t.st.ack)
    && PlaceAt(w, top, t.st.lastEventId)
    && Healthy(t.st.history, w.first, top)
  }

  // ---------- what is delivered ----------

  lemma DeliverNext(w: World, top: int, next: nat, notes: set<Frame>, ds: seq<Delivery>, marks: seq<bool>)
    requires Exactly(w, top, notes, ds, marks) && w.first <= next == top + 1 <= |w.log|
    ensures Exactly(w, next, notes, ds + [w.log[next - 1]], marks + [true])
  {
    var ds', marks' := ds + [w.log[next - 1]], marks + [true];
    assert ds'[..|ds|] == ds && marks'[..|ds|] == marks;
  }

  lemma DeliverNote(w: World, top: int, notes: set<Frame>, ds: seq<Delivery>, marks: seq<bool>,
                    e: Parser.SseEvent, sticky: string)
    requires Exactly(w, top, notes, ds, marks) && IsNote(e, notes, sticky)
    ensures Exactly(w, top, notes, ds + [Delivery(e.eventType, e.data)], marks + [false])
  {
    var d := Delivery(e.eventType, e.data);
    var n :| n in notes && e == Read(n, sticky);
    assert d == Seen(n);
    var ds', marks' := ds + [d], marks + [false];
    assert ds'[..|ds|] == ds && marks'[..|ds|] == marks;
  }

  /** More frames can only help. */
  lemma {:induction false} ExactlyMore(w: World, top: int, notes: set<Frame>, more: set<Frame>,
                                       ds: seq<Delivery>, marks: seq<bool>)
    requires Exactly(w, top, notes, ds, marks) && notes <= more
    ensures Exactly(w, top, more, ds, marks)
    decreases |ds|
  {
    if ds != [] {
      var n := |ds| - 1;
      ExactlyMore(w, if marks[n] then top - 1 else top, notes, more, ds[..n], marks[..n]);
    }
  }

  lemma {:induction false} MarkedAreLog(w: World, top: int, notes: set<Frame>, ds: seq<Delivery>, marks: seq<bool>)
    requires Exactly(w, top, notes, ds, marks) && w.first <= |w.log| + 1
    ensures w.first - 1 <= top <= |w.log| && Marked(ds, marks) == w.log[w.first - 1..top]
    decreases |ds|
  {
    if ds != [] {
      var n := |ds| - 1;
      var before := if marks[n] then top - 1 else top;
      MarkedAreLog(w, before, notes, ds[..n], marks[..n]);
      if marks[n] { LogNext(w.log, w.first - 1, before, top); }
    }
  }

  lemma LogNext(log: Log, from: nat, top: int, next: int)
    requires from <= top < |log| && next == top + 1
    ensures log[from..next] == log[from..top] + [log[top]]
  {
  }

  lemma {:induction false} OthersAreSeen(w: World, top: int, notes: set<Frame>, ds: seq<Delivery>, marks: seq<bool>,
                                         i: nat)
    requires Exactly(w, top, notes, ds, marks) && i < |ds| && !marks[i]
    ensures IsSeen(ds[i], notes)
    decreases |ds|
  {
    var n := |ds| - 1;
    if i < n {
      OthersAreSeen(w, if marks[n] then top - 1 else top, notes, ds[..n], marks[..n], i);
    }
  }

  // ---------- what is acked ----------

  /** Receiving the event right after the cursor moves the cursor to it. */
  lemma NextAck(first: nat, top: int, next: nat, ack: Ack.AckState)
    requires 1 <= first <= next == top + 1 && AckedUpTo(first, top, ack)
    ensures AckedUpTo(first, next, Ack.Receive(ack, next))
  {
    var pending := ack.pending + {next as int};
    var base := if ack.acked == 0 then Ack.MinOf(pending) - 1 else ack.acked;
    assert ack.acked == 0 ==> pending == {next as int};
    assert base == next - 1;
    Ack.ReachUnique(pending, base, next);
    assert Range(first, next) == Range(first, top) + [next as int];
  }

  /** Receiving an event at or below the cursor acks nothing. */
  lemma OldAck(first: nat, top: int, x: nat, ack: Ack.AckState)
    requires 1 <= first <= x <= top && AckedUpTo(first, top, ack)
    ensures AckedUpTo(first, top, Ack.Receive(ack, x)) && Ack.Receive(ack, x).sent == ack.sent
  {
    Ack.ReachUnique(ack.pending + {x as int}, top, top);
  }

  // ---------- one arrival ----------

  /** A known event: only the recency of its id changes. */
  lemma TakeKnown(cfg: Config, t: Tracked, e: Parser.SseEvent, num: nat, a: Arrival, key: string)
    requires DedupKey(e, a.json) == Some(key) && Knows(cfg, t.st.history, key, a.clock.look)
    ensures Take(cfg, t, e, num, a) == t.(st := t.st.(history := Touched(cfg, t.st.history, key, a.clock)))
  {
  }

  /** An event under the id of number `x` that the cache does not know: handed over, and acked as `x`. */
  lemma TakeUnknown(cfg: Config, t: Tracked, e: Parser.SseEvent, num: nat, a: Arrival, x: nat)
    requires e.lastEventId == EventId(x) && x >= 1 && e.eventType != HEARTBEAT && cfg.useV2
    requires !Knows(cfg, t.st.history, EventId(x), a.clock.look)
    ensures Take(cfg, t, e, num, a) ==
            Tracked(BridgeState(Touched(cfg, t.st.history, EventId(x), a.clock), EventId(x), Ack.Receive(t.st.ack, x),
                                t.st.delivered + [Delivery(e.eventType, e.data)]),
                    t.marks + [num != 0])
  {
    ParseDecimal(x);
    assert EventId(x) != "" && SeqOf(e, a.json) == Some(x as int);
  }

  /** An event without any id in force: handed over, and nothing is acked. */
  lemma TakeLeading(cfg: Config, t: Tracked, e: Parser.SseEvent, a: Arrival)
    requires e.lastEventId == "" && NamesNoEvent(e, a.json) && !IsDuplicate(cfg, t.st, e, a)
    ensures var key := DedupKey(e, a.json);
            var h' := if key.Some? then Touched(cfg, t.st.history, key.value, a.clock) else t.st.history;
            Take(cfg, t, e, 0, a) ==
            Tracked(t.st.(history := h', delivered := t.st.delivered + [Delivery(e.eventType, e.data)]),
                    t.marks + [false])
  {
    assert SeqOf(e, a.json) == None;
  }

  /** A step that only touches the cache. */
  lemma InvTouched(w: World, notes: set<Frame>, next: nat, after: nat, t: Tracked, h': History)
    requires Inv(w, notes, next, t) && w.first <= after <= Top(w.first, t.st) + 1
    requires Healthy(h', w.first, Top(w.first, t.st))
    ensures Inv(w, notes, after, t.(st := t.st.(history := h')))
  {
  }

  function TopAfter(top: int, num: nat): int {
    if num <= top || num == 0 then top else num
  }

  /** An event of the log arrives: a replayed one is skipped, a new one is delivered and acked. */
  lemma TakeEvent(w: World, notes: set<Frame>, next: nat, after: nat, t: Tracked, e: Parser.SseEvent, a: Arrival)
    requires Sendable(w.log) && w.cfg.useV2 && Inv(w, notes, next, t) && next <= |w.log| && after == next + 1
    requires e == EventAt(w.log, next) && ArrivesWell(w, t.st, e, next, a)
    ensures Inv(w, notes, after, Take(w.cfg, t, e, next, a))
    ensures Top(w.first, Take(w.cfg, t, e, next, a).st) == TopAfter(Top(w.first, t.st), next)
  {
    if next <= Top(w.first, t.st) {
      RememberedIsKnown(w.cfg, t.st.history, EventId(next), a.clock.look);
      TakeKnown(w.cfg, t, e, next, a, EventId(next));
      UseKeepsHealthy(w.cfg, t.st.history, w.first, next, Top(w.first, t.st), a.clock);
      InvTouched(w, notes, next, after, t, Touched(w.cfg, t.st.history, EventId(next), a.clock));
    } else {
      NewKeepsHealthy(w.cfg, t.st.history, w.first, next, a.clock);
      assert SendableAt(w.log, next);
      TakeUnknown(w.cfg, t, e, next, a, next);
      InvNew(w, notes, next, after, t, Touched(w.cfg, t.st.history, EventId(next), a.clock));
    }
  }

  lemma InvNew(w: World, notes: set<Frame>, next: nat, after: nat, t: Tracked, h': History)
    requires Inv(w, notes, next, t) && next == Top(w.first, t.st) + 1 <= |w.log| && after == next + 1
    requires Healthy(h', w.first, next)
    ensures var st' := BridgeState(h', EventId(next), Ack.Receive(t.st.ack, next), t.st.delivered + [w.log[next - 1]]);
            Top(w.first, st') == next && Inv(w, notes, after, Tracked(st', t.marks + [true]))
  {
    NextAck(w.first, Top(w.first, t.st), next, t.st.ack);
    DeliverNext(w, Top(w.first, t.st), next, notes, t.st.delivered, t.marks);
    assert IsReceivedId(w.first, next, EventId(next));
  }

  /** A frame without an id under the id of event `x`: swallowed, or handed over and acked to no effect. */
  lemma TakeNote(w: World, notes: set<Frame>, x: nat, next: nat, t: Tracked, e: Parser.SseEvent, a: Arrival)
    requires w.cfg.useV2 && Inv(w, notes, next, t) && w.first <= x && next == x + 1
    requires IsNote(e, notes, EventId(x)) && ArrivesWell(w, t.st, e, 0, a)
    ensures Inv(w, notes, next, Take(w.cfg, t, e, 0, a))
    ensures Top(w.first, Take(w.cfg, t, e, 0, a).st) == Top(w.first, t.st)
  {
    var h' := Touched(w.cfg, t.st.history, EventId(x), a.clock);
    UseKeepsHealthy(w.cfg, t.st.history, w.first, x, Top(w.first, t.st), a.clock);
    assert EventId(x) != "" && e.lastEventId == EventId(x);
    if Knows(w.cfg, t.st.history, EventId(x), a.clock.look) {
      TakeKnown(w.cfg, t, e, 0, a, EventId(x));
      InvTouched(w, notes, next, next, t, h');
    } else {
      if w.keepsPlace { ForgottenIsLast(w, t.st, x, a.clock.look); }
      TakeUnknown(w.cfg, t, e, 0, a, x);
      InvNote(w, notes, x, next, t, e, h');
    }
  }

  lemma ForgottenIsLast(w: World, st: BridgeState, x: nat, now: real)
    requires Monotone(st.history) && NotBefore(st.history, now) && !Knows(w.cfg, st.history, EventId(x), now)
    requires (Top(w.first, st) >= 0 && EventId(x) == EventId(Top(w.first, st)))
             || Remembered(w.cfg, st.history, EventId(x), now)
    ensures x == Top(w.first, st)
  {
    if Remembered(w.cfg, st.history, EventId(x), now) {
      RememberedIsKnown(w.cfg, st.history, EventId(x), now);
    } else {
      DecimalInjective(x, Top(w.first, st));
    }
  }

  lemma InvNote(w: World, notes: set<Frame>, x: nat, next: nat, t: Tracked, e: Parser.SseEvent, h': History)
    requires Inv(w, notes, next, t) && w.first <= x && next == x + 1 && IsNote(e, notes, EventId(x))
    requires Healthy(h', w.first, Top(w.first, t.st)) && (w.keepsPlace ==> x == Top(w.first, t.st))
    ensures var st' := BridgeState(h', EventId(x), Ack.Receive(t.st.ack, x),
                                   t.st.delivered + [Delivery(e.eventType, e.data)]);
            Top(w.first, st') == Top(w.first, t.st) && Inv(w, notes, next, Tracked(st', t.marks + [false]))
  {
    OldAck(w.first, Top(w.first, t.st), x, t.st.ack);
    DeliverNote(w, Top(w.first, t.st), notes, t.st.delivered, t.marks, e, EventId(x));
    assert IsReceivedId(w.first, Top(w.first, t.st), EventId(x));
  }

  /** A frame without an id before any event of its connection: handed over, or skipped as a repetition of
      another such frame. */
  lemma TakeStray(w: World, notes: set<Frame>, next: nat, t: Tracked, e: Parser.SseEvent, a: Arrival)
    requires Inv(w, notes, next, t) && IsNote(e, notes, "") && ArrivesWell(w, t.st, e, 0, a)
    ensures Inv(w, notes, next, Take(w.cfg, t, e, 0, a))
    ensures Top(w.first, Take(w.cfg, t, e, 0, a).st) == Top(w.first, t.st)
  {
    var key := DedupKey(e, a.json);
    var h' := if key.Some? then Touched(w.cfg, t.st.history, key.value, a.clock) else t.st.history;
    if key.Some? {
      StrangerKeepsHealthy(w.cfg, t.st.history, w.first, key.value, Top(w.first, t.st), a.clock);
    }
    if IsDuplicate(w.cfg, t.st, e, a) {
      TakeKnown(w.cfg, t, e, 0, a, key.value);
      InvTouched(w, notes, next, next, t, h');
    } else {
      TakeLeading(w.cfg, t, e, a);
      DeliverNote(w, Top(w.first, t.st), notes, t.st.delivered, t.marks, e, "");
    }
  }

  // ---------- a whole connection ----------

  /** Where a connection stands: the event it sends next, and the id in force. */
  datatype Spot = Spot(next: nat, sticky: string)

  function Advance(s: Spot, num: nat): Spot {
    if num != 0 then Spot(num + 1, EventId(num)) else s
  }

  ghost predicate StickyAt(w: World, s: Spot) {
    s.sticky == "" || (w.first < s.next && s.sticky == EventId(s.next - 1))
  }

  /** A connection after `i` of its arrivals. */
  ghost predicate Midway(w: World, notes: set<Frame>, p: Pass, i: nat, s: Spot, t: Tracked) {
    && i <= |p.es| == |p.nums|
    && Inv(w, notes, s.next, t)
    && Fits(w.log, notes, p.es[i..], p.nums[i..], s.next, s.sticky)
    && StickyAt(w, s)
  }

  /** Event `num` of the log, or a frame without an id, arrives at `s`. */
  ghost predicate IsNext(log: Log, notes: set<Frame>, e: Parser.SseEvent, num: nat, s: Spot) {
    if num == 0 then IsNote(e, notes, s.sticky) else num == s.next <= |log| && e == EventAt(log, num)
  }

  /** The next arrival is a frame without an id, or the next event. */
  lemma FitsStep(log: Log, notes: set<Frame>, p: Pass, i: nat, after: nat, s: Spot)
    requires i < |p.es| == |p.nums| && Fits(log, notes, p.es[i..], p.nums[i..], s.next, s.sticky) && after == i + 1
    ensures IsNext(log, notes, p.es[i], p.nums[i], s)
    ensures var s' := Advance(s, p.nums[i]);
            Fits(log, notes, p.es[after..], p.nums[after..], s'.next, s'.sticky)
  {
    assert p.es[i..][0] == p.es[i] && p.es[i..][1..] == p.es[after..];
    assert p.nums[i..][0] == p.nums[i] && p.nums[i..][1..] == p.nums[after..];
  }

  /** One arrival that is fine. */
  lemma ArrivalKeeps(w: World, notes: set<Frame>, p: Pass, i: nat, after: nat, s: Spot, t: Tracked, a: Arrival)
    requires Sendable(w.log) && w.cfg.useV2 && Midway(w, notes, p, i, s, t) && i < |p.es| && after == i + 1
    requires ArrivesWell(w, t.st, p.es[i], p.NumberAt(i), a)
    ensures Midway(w, notes, p, after, Advance(s, p.NumberAt(i)), Take(w.cfg, t, p.es[i], p.NumberAt(i), a))
    ensures Top(w.first, Take(w.cfg, t, p.es[i], p.NumberAt(i), a).st) == TopAfter(Top(w.first, t.st), p.NumberAt(i))
  {
    FitsStep(w.log, notes, p, i, after, s);
    TakeKeeps(w, notes, p.es[i], p.NumberAt(i), s, t, a);
  }

  lemma TakeKeeps(w: World, notes: set<Frame>, e: Parser.SseEvent, num: nat, s: Spot, t: Tracked, a: Arrival)
    requires Sendable(w.log) && w.cfg.useV2 && Inv(w, notes, s.next, t) && StickyAt(w, s)
    requires IsNext(w.log, notes, e, num, s) && ArrivesWell(w, t.st, e, num, a)
    ensures Inv(w, notes, Advance(s, num).next, Take(w.cfg, t, e, num, a)) && StickyAt(w, Advance(s, num))
    ensures Top(w.first, Take(w.cfg, t, e, num, a).st) == TopAfter(Top(w.first, t.st), num)
  {
    if num != 0 {
      TakeEvent(w, notes, num, num + 1, t, e, a);
    } else if s.sticky == "" {
      TakeStray(w, notes, s.next, t, e, a);
    } else {
      TakeNote(w, notes, s.next - 1, s.next, t, e, a);
    }
  }

  lemma PassNext(w: World, p: Pass, i: nat, after: nat, s: Spot, t: Tracked, t': Tracked, env: Env)
    requires i < |p.es| && after == i + 1 && t' == Take(w.cfg, t, p.es[i], p.NumberAt(i), env(p.k, i))
    ensures TakeAll(w.cfg, t, p, i, env) == TakeAll(w.cfg, t', p, after, env)
    ensures NextAfter(p, i, s.next) == NextAfter(p, after, Advance(s, p.NumberAt(i)).next)
  {
  }

  /** All arrivals of a connection, from the `i`-th on. */
  lemma {:induction false} ArrivalsKeep(w: World, notes: set<Frame>, p: Pass, i: nat, s: Spot, t: Tracked, env: Env)
    requires Sendable(w.log) && w.cfg.useV2 && Midway(w, notes, p, i, s, t) && AllArriveWell(w, t.st, p, i, env)
    ensures Inv(w, notes, NextAfter(p, i, s.next), TakeAll(w.cfg, t, p, i, env))
    decreases |p.es| - i
  {
    if i < |p.es| {
      var s', t' := Advance(s, p.NumberAt(i)), Take(w.cfg, t, p.es[i], p.NumberAt(i), env(p.k, i));
      ArrivalKeeps(w, notes, p, i, i + 1, s, t, env(p.k, i));
      ArrivalsKeep(w, notes, p, i + 1, s', t', env);
      PassNext(w, p, i, i + 1, s, t, t', env);
    }
  }

  lemma StartConnection(w: World, notes: set<Frame>, before: nat, t: Tracked, k: nat, c: Connection)
    requires Sendable(w.log) && Frames(c.items) <= notes && Inv(w, notes, before, t)
    requires w.first <= c.start <= Top(w.first, t.st) + 1
    ensures Midway(w, notes, PassOf(w.log, k, c), 0, Spot(c.start, ""), t)
  {
    var p := PassOf(w.log, k, c);
    HandedIsARun(w.log, notes, c.start, c.items, c.cut, "");
    assert p.es[0..] == p.es && p.nums[0..] == p.nums;
  }

  /** One more connection, from start to break. */
  lemma ConnectionKeeps(w: World, notes: set<Frame>, before: nat, t: Tracked, k: nat, c: Connection, env: Env)
    requires Sendable(w.log) && w.cfg.useV2 && Frames(c.items) <= notes
    requires Inv(w, notes, before, t) && Acceptable(w, t.st, k, c, env)
    ensures var p := PassOf(w.log, k, c);
            Inv(w, notes, NextAfter(p, 0, c.start), TakeAll(w.cfg, t, p, 0, env))
  {
    StartConnection(w, notes, before, t, k, c);
    ArrivalsKeep(w, notes, PassOf(w.log, k, c), 0, Spot(c.start, ""), t, env);
  }

  // ---------- a whole run ----------

  lemma {:induction false} RunKeeps(w: World, run: seq<Connection>, notes: set<Frame>, env: Env)
    requires Sendable(w.log) && w.cfg.useV2 && w.first <= |w.log| + 1 && Admissible(w, run, env)
    requires FramesOf(run) <= notes
    ensures Inv(w, notes, NextOf(w, run), Track(w, run, env))
  {
    if run != [] {
      var k := |run| - 1;
      FramesOfLast(run);
      RunKeeps(w, run[..k], notes, env);
      TrackIsTheRun(w, run[..k], env);
      ConnectionKeeps(w, notes, NextOf(w, run[..k]), Track(w, run[..k], env), k, run[k], env);
    }
  }

  lemma FramesOfLast(run: seq<Connection>)
    requires run != []
    ensures FramesOf(run[..|run| - 1]) <= FramesOf(run) && Frames(run[|run| - 1].items) <= FramesOf(run)
  {
    assert run[|run| - 1] in run;
  }

  /** Exactly once, in order: whatever connections drop, whatever is replayed, whichever acks get lost and whatever
      frames without an id come in between, of the agent's deliveries the numbered ones are events
      `first, first + 1, ..., top` of the server's log, each once and in that order, and the others are such
      frames; one ack was sent per event and nothing above the cursor is pending; the bridge reconnects with the
      id of an event it received; and no completely received event is missing. */
  lemma ExactlyOnceInOrder(w: World, run: seq<Connection>, env: Env)
    requires Sendable(w.log) && w.cfg.useV2 && w.first <= |w.log| + 1 && Admissible(w, run, env)
    ensures var t := Track(w, run, env);
            var top := Top(w.first, t.st);
            && t.st == AfterRun(w, run, env)
            && w.first - 1 <= top <= |w.log|
            && |t.marks| == |t.st.delivered| && Marked(t.st.delivered, t.marks) == w.log[w.first - 1..top]
            && (forall i :: 0 <= i < |t.marks| && !t.marks[i] ==> IsSeen(t.st.delivered[i], FramesOf(run)))
            && AckedUpTo(w.first, top, t.st.ack)
            && (top >= w.first ==> IsReceivedId(w.first, top, t.st.lastEventId))
            && NextOf(w, run) <= top + 1
  {
    var t := Track(w, run, env);
    var top := Top(w.first, t.st);
    TrackIsTheRun(w, run, env);
    RunKeeps(w, run, FramesOf(run), env);
    MarkedAreLog(w, top, FramesOf(run), t.st.delivered, t.marks);
    forall i | 0 <= i < |t.marks| && !t.marks[i] ensures IsSeen(t.st.delivered[i], FramesOf(run)) {
      OthersAreSeen(w, top, FramesOf(run), t.st.delivered, t.marks, i);
    }
  }

  /** When frames without an id find the event before them remembered, or it is the last, the bridge reconnects
      right after the last event it received. */
  lemma ReconnectsAtTheLast(w: World, run: seq<Connection>, env: Env)
    requires Sendable(w.log) && w.cfg.useV2 && w.first <= |w.log| + 1 && Admissible(w, run, env) && w.keepsPlace
    ensures var st := AfterRun(w, run, env);
            Top(w.first, st) >= w.first ==> st.lastEventId == EventId(Top(w.first, st))
  {
    TrackIsTheRun(w, run, env);
    RunKeeps(w, run, FramesOf(run), env);
  }

  /** When only heartbeats come without an id, what the agent was handed is the log itself. */
  lemma OnlyTheLog(w: World, run: seq<Connection>, env: Env)
    requires Sendable(w.log) && w.cfg.useV2 && w.first <= |w.log| + 1 && Admissible(w, run, env)
    requires FramesOf(run) == {}
    ensures var st := AfterRun(w, run, env);
            w.first - 1 <= Top(w.first, st) <= |w.log| && st.delivered == w.log[w.first - 1..Top(w.first, st)]
  {
    ExactlyOnceInOrder(w, run, env);
    var t := Track(w, run, env);
    forall d ensures !IsSeen(d, FramesOf(run)) {
    }
    AllMarked(t.st.delivered, t.marks);
  }

  lemma {:induction false} AllMarked(ds: seq<Delivery>, marks: seq<bool>)
    requires |ds| == |marks| && forall i :: 0 <= i < |marks| ==> marks[i]
    ensures Marked(ds, marks) == ds
  {
    if ds != [] {
      var n := |ds| - 1;
      AllMarked(ds[..n], marks[..n]);
      assert ds == ds[..n] + [ds[n]];
    }
  }
}

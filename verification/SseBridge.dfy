/** `start_sse_bridge`: the handler that sits behind the parser. It skips events it has already
    seen, hands the rest to the agent, and acks them. */
module SseBridge {
  import opened Text
  import LruTtl
  import opened SeenIds
  import Parser = SseParser
  import Ack = AckCursor

  datatype Config = Config(maxSize: nat, ttl: real, useV2: bool)

  /** What decoding the event data as JSON yields for the two fields the bridge falls back to. */
  datatype DataFields = DataFields(eventId: Option<string>, recipientSeq: Option<int>)

  /** What the environment adds to an event: its decoded data, and the clock readings of its handling. */
  datatype Arrival = Arrival(json: DataFields, clock: Clock)

  /** The environment of a run: event `j` of connection `k` arrives as `env(k, j)`. */
  type Env = (nat, nat) -> Arrival

  datatype Delivery = Delivery(eventType: string, data: string)

  datatype BridgeState = BridgeState(
    history: History, lastEventId: string, ack: Ack.AckState, delivered: seq<Delivery>)

  function Fresh(): BridgeState {
    BridgeState([], "", Ack.Start(), [])
  }

  const HEARTBEAT := "heartbeat"

  /** The `id:` field first; only without one, the `event_id` inside the data. */
  function DedupKey(e: Parser.SseEvent, json: DataFields): Option<string> {
    if e.lastEventId != "" then Some(e.lastEventId)
    else if json.eventId.Some? && json.eventId.value != "" then json.eventId
    else None
  }

  /** The sequence number to ack: the id if it is a number, else `recipient_seq`; 0 means none. */
  function SeqOf(e: Parser.SseEvent, json: DataFields): Option<int> {
    var fromId := if e.lastEventId != "" then ParseInt(e.lastEventId) else None;
    if fromId.Some? then (if fromId.value == 0 then None else fromId)
    else if json.recipientSeq == Some(0) then None
    else json.recipientSeq
  }

  /** The cache knows `key` at `now`. */
  ghost predicate Knows(cfg: Config, h: History, key: string, now: real) {
    LruTtl.Live(LruTtl.Run(h, cfg.maxSize, cfg.ttl), key, now, cfg.ttl)
  }

  /** The history after `key` was looked up, and added on a miss. */
  function Touched(cfg: Config, h: History, key: string, clock: Clock): History {
    Step(h, Touch(key, clock), cfg.maxSize, cfg.ttl)
  }

  ghost predicate IsDuplicate(cfg: Config, st: BridgeState, e: Parser.SseEvent, a: Arrival) {
    var key := DedupKey(e, a.json);
    key.Some? && Knows(cfg, st.history, key.value, a.clock.look)
  }

  /** One `_handle` call. */
  ghost function Handle(cfg: Config, st: BridgeState, e: Parser.SseEvent, a: Arrival): BridgeState {
    var key := DedupKey(e, a.json);
    var history := if key.Some? then Touched(cfg, st.history, key.value, a.clock) else st.history;
    if IsDuplicate(cfg, st, e, a) then st.(history := history)
    else
      var q := if cfg.useV2 && e.eventType != HEARTBEAT then SeqOf(e, a.json) else None;
      BridgeState(
        history,
        if e.lastEventId != "" then e.lastEventId else st.lastEventId,
        if q.Some? then Ack.Receive(st.ack, q.value) else st.ack,
        st.delivered + [Delivery(e.eventType, e.data)])
  }

  /** What becomes of the cursor when an event is handed over with acks on: a numeric id other than zero is
      received; an id that is no number leaves it to a number other than zero in the data; else nothing is. */
  ghost predicate AckedAs(before: Ack.AckState, after: Ack.AckState, e: Parser.SseEvent, json: DataFields) {
    match ParseInt(e.lastEventId)
    case Some(n) => after == if n != 0 then Ack.Receive(before, n) else before
    case None =>
      match json.recipientSeq
      case Some(n) => after == if n != 0 then Ack.Receive(before, n) else before
      case None => after == before
  }

  /** Acks are sent with V2 only, for events handed over other than heartbeats, under the number of the event. */
  lemma HandleAcks(cfg: Config, st: BridgeState, e: Parser.SseEvent, a: Arrival)
    ensures var st' := Handle(cfg, st, e, a);
            && (!cfg.useV2 || e.eventType == HEARTBEAT || st'.delivered == st.delivered ==> st'.ack == st.ack)
            && (cfg.useV2 && e.eventType != HEARTBEAT && st'.delivered != st.delivered ==>
                  AckedAs(st.ack, st'.ack, e, a.json))
  {
    NoNumberInNothing();
    assert |st.delivered + [Delivery(e.eventType, e.data)]| == |st.delivered| + 1;
  }

  lemma NoNumberInNothing()
    ensures ParseInt("") == None
  {
    assert Strip("") == "";
  }

  /** Whether acks are on changes nothing else. */
  lemma {:induction false} AcksChangeNothingElse(cfg: Config, st: BridgeState, es: seq<Parser.SseEvent>, i: nat,
                                                 k: nat, env: Env, ack: Ack.AckState)
    requires i <= |es| && !cfg.useV2
    ensures Consume(cfg, st.(ack := ack), es, i, k, env) ==
            Consume(cfg.(useV2 := true), st, es, i, k, env).(ack := ack)
    decreases |es| - i
  {
    if i < |es| {
      var on := Handle(cfg.(useV2 := true), st, es[i], env(k, i));
      assert Handle(cfg, st.(ack := ack), es[i], env(k, i)) == on.(ack := ack);
      AcksChangeNothingElse(cfg, on, es, i + 1, k, env, ack);
    }
  }

  /** Heartbeats are read by the parser but never reach the handler. */
  function Handed(es: seq<Parser.SseEvent>): seq<Parser.SseEvent> {
    if es == [] then [] else Passed(es[0]) + Handed(es[1..])
  }

  function Passed(e: Parser.SseEvent): seq<Parser.SseEvent> {
    if e.eventType != HEARTBEAT then [e] else []
  }

  /** Handle `es[i..]`, the events of connection number `k`. */
  ghost function Consume(cfg: Config, st: BridgeState, es: seq<Parser.SseEvent>, i: nat, k: nat, env: Env): BridgeState
    requires i <= |es|
    decreases |es| - i
  {
    if i == |es| then st
    else Consume(cfg, Handle(cfg, st, es[i], env(k, i)), es, i + 1, k, env)
  }

  class Bridge {
    const cfg: Config
    const seen: SeenIdsCache
    const acks: Ack.AckTracker
    var lastEventId: string
    var delivered: seq<Delivery>
    /** Everything ever done to the cache, for the specification only. */
    ghost var history: History

    ghost predicate Valid() reads this, seen {
      && seen.maxSize == cfg.maxSize && seen.ttl == cfg.ttl
      && seen.Valid()
      && seen.store == LruTtl.Run(history, cfg.maxSize, cfg.ttl)
    }

    ghost function State(): BridgeState reads this, acks {
      BridgeState(history, lastEventId, acks.State(), delivered)
    }

    constructor (cfg: Config)
      ensures Valid() && State() == Fresh() && this.cfg == cfg
      ensures fresh(seen) && fresh(acks)
    {
      this.cfg := cfg;
      seen := new SeenIdsCache(cfg.maxSize, cfg.ttl);
      acks := new Ack.AckTracker();
      lastEventId, delivered, history := "", [], [];
    }

    method HandleEvent(e: Parser.SseEvent, a: Arrival)
      requires Valid()
      modifies this, seen, acks
      ensures Valid()
      ensures State() == Handle(cfg, old(State()), e, a)
      ensures !cfg.useV2 || e.eventType == HEARTBEAT || delivered == old(delivered) ==>
                acks.State() == old(acks.State())
    {
      HandleAcks(cfg, State(), e, a);
      if e.lastEventId != "" {
        var dup := Deduplicate(e.lastEventId, a.clock);
        if dup {
          return;
        }
        lastEventId := e.lastEventId;
      } else if a.json.eventId.Some? && a.json.eventId.value != "" {
        var dup := Deduplicate(a.json.eventId.value, a.clock);
        if dup {
          return;
        }
      }
      delivered := delivered + [Delivery(e.eventType, e.data)];
      if cfg.useV2 && e.eventType != HEARTBEAT {
        var q := SeqOf(e, a.json);
        if q.Some? {
          acks.OnDelivered(q.value);
        }
      }
    }

    /** `if key in seen_ids: skip` else `seen_ids.add(key)`. */
    method Deduplicate(key: string, clock: Clock) returns (dup: bool)
      requires Valid()
      modifies this`history, seen
      ensures Valid()
      ensures dup == Knows(cfg, old(history), key, clock.look)
      ensures history == Touched(cfg, old(history), key, clock)
    {
      StepStore(history, Touch(key, clock), cfg.maxSize, cfg.ttl);
      ghost var s := seen.store;
      dup := seen.Contains(key, clock.look);
      if !dup {
        MissedIsAbsent(s, key, clock.look, cfg.ttl);
        seen.Add(key, clock.evict, clock.stamp);
      }
      history := Step(history, Touch(key, clock), cfg.maxSize, cfg.ttl);
    }

    /** The handler's turn: event number `i` of connection `k`. */
    method HandleNext(e: Parser.SseEvent, ghost all: seq<Parser.SseEvent>, i: nat, k: nat, env: Env)
      requires Valid() && i < |all| && all[i] == e
      modifies this, seen, acks
      ensures Valid()
      ensures Consume(cfg, State(), all, i + 1, k, env) == Consume(cfg, old(State()), all, i, k, env)
    {
      HandleEvent(e, env(k, i));
    }

    /** `_connect_once`: parse the lines of one connection and hand its events over. */
    method ConnectOnce(lines: seq<string>, k: nat, env: Env)
      requires Valid()
      modifies this, seen, acks
      ensures Valid()
      ensures State() == Consume(cfg, old(State()), Handed(Parser.FeedAll(Parser.Initial(), lines)), 0, k, env)
    {
      var parser := new Parser.Parser();
      ghost var all := Handed(Parser.FeedAll(Parser.Initial(), lines));
      ghost var rest := Parser.ClassifyAll(lines);
      var handled: nat := 0;
      var i := 0;
      while i < |lines|
        invariant 0 <= i <= |lines|
        invariant Valid() && fresh(parser)
        invariant rest == Parser.ClassifyAll(lines)[i..]
        invariant handled <= |all| && all[handled..] == Handed(Parser.Emitted(parser.State(), rest))
        invariant Consume(cfg, State(), all, handled, k, env) == Consume(cfg, old(State()), all, 0, k, env)
      {
        handled := FeedOne(parser, lines[i], all, rest, handled, k, env);
        rest := rest[1..];
        i := i + 1;
      }
    }

    /** One line: the event it completes, unless it is a heartbeat, goes to the handler. */
    method FeedOne(parser: Parser.Parser, line: string, ghost all: seq<Parser.SseEvent>, ghost rest: seq<Parser.Line>,
                   handled: nat, k: nat, env: Env)
      returns (next: nat)
      requires Valid() && rest != [] && rest[0] == Parser.Classify(line)
      requires handled <= |all| && all[handled..] == Handed(Parser.Emitted(parser.State(), rest))
      modifies this, seen, acks, parser
      ensures Valid() && next <= |all| && all[next..] == Handed(Parser.Emitted(parser.State(), rest[1..]))
      ensures Consume(cfg, State(), all, next, k, env) == Consume(cfg, old(State()), all, handled, k, env)
    {
      next := handled;
      HandedNext(parser.State(), rest, all[handled..]);
      var event := parser.FeedLine(line);
      if event.Some? && event.value.eventType != HEARTBEAT {
        TakeNext(all, handled, event.value, Handed(Parser.Emitted(parser.State(), rest[1..])));
        HandleNext(event.value, all, handled, k, env);
        next := handled + 1;
      }
    }
  }

  lemma TakeNext(all: seq<Parser.SseEvent>, i: nat, e: Parser.SseEvent, later: seq<Parser.SseEvent>)
    requires i <= |all| && all[i..] == [e] + later
    ensures i < |all| && all[i] == e && all[i + 1..] == later
  {
    assert all[i] == all[i..][0] && all[i + 1..] == all[i..][1..];
  }

  lemma MissedIsAbsent(s: SeenIds.Store, key: string, now: real, ttl: real)
    requires LruTtl.DistinctKeys(s) && !LruTtl.Live(s, key, now, ttl)
    ensures !LruTtl.Has(LruTtl.AfterLook(s, key, now, ttl), key)
  {
    LruTtl.RemoveAt(s, key);
  }

  lemma {:induction false} HandedConcat(a: seq<Parser.SseEvent>, b: seq<Parser.SseEvent>)
    ensures Handed(a + b) == Handed(a) + Handed(b)
  {
    if a == [] {
      assert a + b == b;
    } else {
      HandedConcat(a[1..], b);
      HeadAndTail(a, b);
      AppendAssociates(Passed(a[0]), Handed(a[1..]), Handed(b));
    }
  }

  /** One more line: the event it completes, unless it is a heartbeat, is the next one handed. */
  lemma HandedNext(st: Parser.ParserState, lines: seq<Parser.Line>, handed: seq<Parser.SseEvent>)
    requires lines != [] && handed == Handed(Parser.Emitted(st, lines))
    ensures var o := Parser.Out(st, lines[0]);
            var later := Handed(Parser.Emitted(Parser.Next(st, lines[0]), lines[1..]));
            handed == (if o == [] then later else Passed(o[0]) + later)
  {
    var o := Parser.Out(st, lines[0]);
    HandedConcat(o, Parser.Emitted(Parser.Next(st, lines[0]), lines[1..]));
    if o != [] {
      assert o[1..] == [];
      assert Handed(o) == Passed(o[0]) + [];
    }
  }

  // ---------- events that share an id ----------

  /** When the event of id `k` that was handed over last was added to the cache. */
  function AddedAt(h: History, k: string): real {
    var put := LruTtl.LastPut(h, k);
    if put == [] then 0.0 else put[0].now
  }

  /** `key` was used last, and no later than `now`. */
  ghost predicate UsedLast(cfg: Config, h: History, key: string, now: real) {
    && LruTtl.Monotone(h) && (h != [] ==> h[|h| - 1].now <= now)
    && LruTtl.LastPut(h, key) != [] && LruTtl.Rivals(h, key, cfg.maxSize, cfg.ttl) == {}
  }

  lemma TouchUsesLast(cfg: Config, h: History, key: string, clock: Clock)
    requires LruTtl.Monotone(h) && InOrder(clock) && (h != [] ==> h[|h| - 1].now <= clock.look)
    ensures var h' := Touched(cfg, h, key, clock);
            && UsedLast(cfg, h', key, clock.stamp)
            && AddedAt(h', key) == if Knows(cfg, h, key, clock.look) then AddedAt(h, key) else clock.stamp
  {
    StepFacts(h, Touch(key, clock), cfg.maxSize, cfg.ttl, key);
    StepMonotone(h, Touch(key, clock), cfg.maxSize, cfg.ttl);
    if Knows(cfg, h, key, clock.look) {
      LruTtl.HitIsLastPut(h, cfg.maxSize, cfg.ttl, key, clock.look);
    }
  }

  /** Right after an id was used, the cache knows it for exactly the TTL from when it was added. */
  lemma KnownForTheTtl(cfg: Config, h: History, key: string, now: real)
    requires UsedLast(cfg, h, key, now)
    ensures Knows(cfg, h, key, now) <==> cfg.maxSize >= 1 && now - AddedAt(h, key) <= cfg.ttl
  {
    if Knows(cfg, h, key, now) {
      LruTtl.HitIsLastPut(h, cfg.maxSize, cfg.ttl, key, now);
      LruTtl.NeverAboveMax(h, cfg.maxSize, cfg.ttl);
    } else {
      LruTtl.MissIsJustified(h, cfg.maxSize, cfg.ttl, key, now);
    }
  }

  /** Two events in a row with the same id, the first handed over or itself skipped: the second is
      swallowed exactly when the id was added at most the TTL before (and there is a cache at all). */
  lemma IdlessEventIsSwallowed(cfg: Config, st: BridgeState, e: Parser.SseEvent, a: Arrival,
                               e': Parser.SseEvent, a': Arrival)
    requires e.lastEventId != "" && e'.lastEventId == e.lastEventId
    requires LruTtl.Monotone(st.history) && InOrder(a.clock) && a.clock.stamp <= a'.clock.look
    requires st.history != [] ==> st.history[|st.history| - 1].now <= a.clock.look
    ensures var st1 := Handle(cfg, st, e, a);
            var added := if IsDuplicate(cfg, st, e, a) then AddedAt(st.history, e.lastEventId) else a.clock.stamp;
            && AddedAt(st1.history, e.lastEventId) == added
            && (Handle(cfg, st1, e', a').delivered == st1.delivered <==>
                  cfg.maxSize >= 1 && a'.clock.look - added <= cfg.ttl)
  {
    var st1 := Handle(cfg, st, e, a);
    TouchUsesLast(cfg, st.history, e.lastEventId, a.clock);
    KnownForTheTtl(cfg, st1.history, e.lastEventId, a'.clock.look);
    assert |st1.delivered + [Delivery(e'.eventType, e'.data)]| == |st1.delivered| + 1;
  }

  /** Without an id in force, an id inside the data counts the same: of two such events in a row with the same one,
      the second is swallowed exactly when that id was added at most the TTL before. */
  lemma DataIdIsSwallowed(cfg: Config, st: BridgeState, e: Parser.SseEvent, a: Arrival,
                          e': Parser.SseEvent, a': Arrival, id: string)
    requires e.lastEventId == "" == e'.lastEventId && a.json.eventId == Some(id) == a'.json.eventId && id != ""
    requires LruTtl.Monotone(st.history) && InOrder(a.clock) && a.clock.stamp <= a'.clock.look
    requires st.history != [] ==> st.history[|st.history| - 1].now <= a.clock.look
    ensures var st1 := Handle(cfg, st, e, a);
            var added := if Knows(cfg, st.history, id, a.clock.look) then AddedAt(st.history, id) else a.clock.stamp;
            Handle(cfg, st1, e', a').delivered == st1.delivered <==>
              cfg.maxSize >= 1 && a'.clock.look - added <= cfg.ttl
  {
    var st1 := Handle(cfg, st, e, a);
    assert st1.history == Touched(cfg, st.history, id, a.clock);
    TouchUsesLast(cfg, st.history, id, a.clock);
    KnownForTheTtl(cfg, st1.history, id, a'.clock.look);
    SwallowedIff(cfg, st1, e', a');
  }

  lemma SwallowedIff(cfg: Config, st: BridgeState, e: Parser.SseEvent, a: Arrival)
    ensures Handle(cfg, st, e, a).delivered == st.delivered <==> IsDuplicate(cfg, st, e, a)
  {
    assert |st.delivered + [Delivery(e.eventType, e.data)]| == |st.delivered| + 1;
  }

  /** With no id at all an event is always handed over, and the cache stays as it is. */
  lemma NoIdIsHandedOver(cfg: Config, st: BridgeState, e: Parser.SseEvent, a: Arrival)
    requires e.lastEventId == "" && a.json.eventId in {None, Some("")}
    ensures Handle(cfg, st, e, a).delivered == st.delivered + [Delivery(e.eventType, e.data)]
    ensures Handle(cfg, st, e, a).history == st.history && Handle(cfg, st, e, a).lastEventId == st.lastEventId
  {
  }
}

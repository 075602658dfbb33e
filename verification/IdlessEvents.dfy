/** Frames without an `id:` line on one connection: which id their events carry, when the id inside the
    data is looked at, and which of them reach the agent. */
module IdlessEvents {
  import opened Text
  import LruTtl
  import opened SeenIds
  import Parser = SseParser
  import opened SseBridge

  // ---------- the sticky id ----------

  /** No id is in force: there was no `id:` line yet, or the last one was empty. */
  ghost predicate NoIdInForce(lines: seq<Parser.Line>) {
    || (forall i :: 0 <= i < |lines| ==> !lines[i].IdField?)
    || (exists i :: 0 <= i < |lines| && LastId(lines, i, ""))
  }

  /** Line `i` is the last `id:` line, and it says `v`. */
  ghost predicate LastId(lines: seq<Parser.Line>, i: int, v: string) {
    0 <= i < |lines| && lines[i] == Parser.IdField(v) && forall j :: i < j < |lines| ==> !lines[j].IdField?
  }

  /** What the parser keeps: the last `id:` line, or what it had before any. */
  lemma {:induction false} StickyId(st: Parser.ParserState, lines: seq<Parser.Line>)
    ensures (forall i :: 0 <= i < |lines| ==> !lines[i].IdField?) ==>
            Parser.After(st, lines).lastEventId == st.lastEventId
    ensures forall i, v :: LastId(lines, i, v) ==> Parser.After(st, lines).lastEventId == v
    decreases |lines|
  {
    if lines != [] {
      var n := |lines| - 1;
      var before, l := lines[..n], lines[n];
      StickyId(st, before);
      assert lines == before + [l];
      Parser.Concat(st, before, [l]);
      Parser.One(Parser.After(st, before), l);
      forall i, v | LastId(lines, i, v) ensures Parser.After(st, lines).lastEventId == v {
        if i < n { assert LastId(before, i, v); }
      }
    }
  }

  lemma {:induction false} SomeIdIsLast(lines: seq<Parser.Line>)
    ensures (forall i :: 0 <= i < |lines| ==> !lines[i].IdField?) || exists i, v :: LastId(lines, i, v)
  {
    if lines != [] {
      var n := |lines| - 1;
      var before := lines[..n];
      SomeIdIsLast(before);
      if lines[n].IdField? {
        assert LastId(lines, n, lines[n].value);
      } else if i, v :| LastId(before, i, v) {
        assert LastId(lines, i, v);
      }
    }
  }

  /** On a connection the id inside an event's data is looked at exactly while no id is in force: the
      event then carries none. Otherwise the event is judged by the last id, its own or not. */
  lemma FallbackReachableIff(lines: seq<Parser.Line>, e: Parser.SseEvent, json: DataFields)
    requires lines != []
    requires Parser.Out(Parser.After(Parser.Initial(), lines[..|lines| - 1]), lines[|lines| - 1]) == [e]
    ensures e.lastEventId == "" <==> NoIdInForce(lines)
    ensures DedupKey(e, json) ==
            if NoIdInForce(lines) then (if json.eventId == Some("") then None else json.eventId)
            else Some(e.lastEventId)
  {
    var n := |lines| - 1;
    var before := lines[..n];
    StickyId(Parser.Initial(), before);
    SomeIdIsLast(before);
    assert lines[n].Blank?;
    assert forall i, v :: LastId(lines, i, v) <==> LastId(before, i, v);
    if forall i :: 0 <= i < n ==> !before[i].IdField? {
      assert forall i :: 0 <= i < |lines| ==> !lines[i].IdField?;
    } else {
      var i, v :| LastId(before, i, v);
      assert LastId(lines, i, v);
      OneLastId(lines, i, v);
    }
  }

  lemma OneLastId(lines: seq<Parser.Line>, i: int, v: string)
    requires LastId(lines, i, v)
    ensures forall j, w :: LastId(lines, j, w) ==> j == i && w == v
  {
  }

  // ---------- frames without an id ----------

  datatype Frame = Frame(eventType: string, data: string)

  function EncodeFrames(frames: seq<Frame>): seq<string> {
    if frames == [] then [] else Parser.EncodeIdless(frames[0].eventType, frames[0].data) + EncodeFrames(frames[1..])
  }

  /** A frame read under the id in force. */
  function Read(f: Frame, sticky: string): Parser.SseEvent {
    Parser.Received(Parser.SseEvent(f.eventType, f.data, "")).(lastEventId := sticky)
  }

  function ReadAll(frames: seq<Frame>, sticky: string): (es: seq<Parser.SseEvent>)
    ensures |es| == |frames|
    ensures forall i :: 0 <= i < |frames| ==> es[i] == Read(frames[i], sticky)
  {
    seq(|frames|, i requires 0 <= i < |frames| => Read(frames[i], sticky))
  }

  /** Any number of such frames in a row all carry the id that was in force before them. */
  lemma {:induction false} FramesKeepTheId(sticky: string, frames: seq<Frame>)
    ensures Parser.FeedAll(Parser.Idle(sticky), EncodeFrames(frames)) == ReadAll(frames, sticky)
  {
    if frames != [] {
      var rest := frames[1..];
      FramesKeepTheId(sticky, rest);
      FrameKeepsTheId(sticky, frames[0], EncodeFrames(rest), ReadAll(rest, sticky));
      ReadAllCons(frames, rest, sticky);
    }
  }

  lemma ReadAllCons(frames: seq<Frame>, rest: seq<Frame>, sticky: string)
    requires frames != [] && rest == frames[1..]
    ensures ReadAll(frames, sticky) == [Read(frames[0], sticky)] + ReadAll(rest, sticky)
  {
  }

  lemma FrameKeepsTheId(sticky: string, f: Frame, lines: seq<string>, later: seq<Parser.SseEvent>)
    requires Parser.FeedAll(Parser.Idle(sticky), lines) == later
    ensures Parser.FeedAll(Parser.Idle(sticky), Parser.EncodeIdless(f.eventType, f.data) + lines)
            == [Read(f, sticky)] + later
  {
    Parser.FeedIdless(sticky, f.eventType, f.data);
    Parser.FeedAllConcat(Parser.Idle(sticky), Parser.EncodeIdless(f.eventType, f.data), lines);
  }

  // ---------- what reaches the agent ----------

  /** Of events `i..` of a connection, all under an id that was added to the cache at `added`: those that
      come more than the TTL after the last one handed over. */
  function Survivors(cfg: Config, added: real, es: seq<Parser.SseEvent>, i: nat, k: nat, env: Env): seq<Delivery>
    requires i <= |es|
    decreases |es| - i
  {
    if i == |es| then []
    else
      var c := env(k, i).clock;
      (if Known(cfg, added, c) then [] else [Delivery(es[i].eventType, es[i].data)])
      + Survivors(cfg, if Known(cfg, added, c) then added else c.stamp, es, i + 1, k, env)
  }

  /** Added at most the TTL before, to a cache that holds anything. */
  predicate Known(cfg: Config, added: real, c: Clock) {
    cfg.maxSize >= 1 && c.look - added <= cfg.ttl
  }

  /** None of them survives exactly when the cache holds anything and all come within the TTL. */
  lemma {:induction false} NoneSurvivesIff(cfg: Config, added: real, es: seq<Parser.SseEvent>, i: nat, k: nat, env: Env)
    requires i <= |es|
    ensures Survivors(cfg, added, es, i, k, env) == [] <==>
            forall j :: i <= j < |es| ==> Known(cfg, added, env(k, j).clock)
    decreases |es| - i
  {
    if i < |es| && Known(cfg, added, env(k, i).clock) {
      NoneSurvivesIff(cfg, added, es, i + 1, k, env);
    }
  }

  /** The clock readings of events `i..` go forward. */
  ghost predicate Forward(env: Env, k: nat, i: nat, n: nat) {
    && (forall j :: i <= j < n ==> InOrder(env(k, j).clock))
    && (forall j, j' :: i <= j < j' < n ==> env(k, j).clock.stamp <= env(k, j').clock.look)
  }

  /** `id` was used last, before the events from the `i`-th on. */
  ghost predicate UsedBefore(cfg: Config, h: History, id: string, env: Env, k: nat, i: nat, n: nat) {
    forall j :: i <= j < n ==> UsedLast(cfg, h, id, env(k, j).clock.look)
  }

  /** A run of events under one id, when that id was used last. */
  lemma {:induction false} ConsumeSameId(cfg: Config, id: string, st: BridgeState, es: seq<Parser.SseEvent>, i: nat,
                                         k: nat, env: Env)
    returns (rest: seq<Delivery>)
    requires i <= |es| && Forward(env, k, i, |es|) && id != "" && UsedBefore(cfg, st.history, id, env, k, i, |es|)
    requires forall j :: i <= j < |es| ==> es[j].lastEventId == id
    ensures rest == Survivors(cfg, AddedAt(st.history, id), es, i, k, env)
    ensures Consume(cfg, st, es, i, k, env).delivered == st.delivered + rest
    decreases |es| - i
  {
    if i == |es| {
      rest := [];
    } else {
      var next, here := HandleSameId(cfg, id, st, es[i], env(k, i));
      StillUsedBefore(cfg, next.history, id, env, k, i, i + 1, |es|);
      var later := ConsumeSameId(cfg, id, next, es, i + 1, k, env);
      rest := here + later;
      AppendAssociates(st.delivered, here, later);
    }
  }

  lemma StillUsedBefore(cfg: Config, h: History, id: string, env: Env, k: nat, i: nat, after: nat, n: nat)
    requires i < n && after == i + 1 && Forward(env, k, i, n) && UsedLast(cfg, h, id, env(k, i).clock.stamp)
    ensures UsedBefore(cfg, h, id, env, k, after, n)
  {
    forall j | after <= j < n ensures UsedLast(cfg, h, id, env(k, j).clock.look) {
      assert env(k, i).clock.stamp <= env(k, j).clock.look;
    }
  }

  lemma HandleSameId(cfg: Config, id: string, st: BridgeState, e: Parser.SseEvent, a: Arrival)
    returns (next: BridgeState, here: seq<Delivery>)
    requires e.lastEventId == id != "" && InOrder(a.clock) && UsedLast(cfg, st.history, id, a.clock.look)
    ensures next == Handle(cfg, st, e, a) && UsedLast(cfg, next.history, id, a.clock.stamp)
    ensures next.delivered == st.delivered + here
    ensures var added := AddedAt(st.history, id);
            && here == (if Known(cfg, added, a.clock) then [] else [Delivery(e.eventType, e.data)])
            && AddedAt(next.history, id) == if Known(cfg, added, a.clock) then added else a.clock.stamp
  {
    next := Handle(cfg, st, e, a);
    KnownForTheTtl(cfg, st.history, id, a.clock.look);
    TouchUsesLast(cfg, st.history, id, a.clock);
    here := next.delivered[|st.delivered|..];
  }

  /** What the handler is given of an event with an id and the frames without one that follow it. */
  function Burst(e: Parser.SseEvent, frames: seq<Frame>): seq<Parser.SseEvent> {
    [Parser.Received(e)] + Handed(ReadAll(frames, Parser.Received(e).lastEventId))
  }

  lemma BurstIsHanded(sticky: string, e: Parser.SseEvent, frames: seq<Frame>)
    requires Parser.Received(e).eventType != HEARTBEAT
    ensures Handed(Parser.FeedAll(Parser.Idle(sticky), Parser.Encode(e) + EncodeFrames(frames))) == Burst(e, frames)
  {
    var first := Parser.Received(e);
    Parser.FeedFrame(sticky, e);
    FramesKeepTheId(first.lastEventId, frames);
    Parser.FeedAllConcat(Parser.Idle(sticky), Parser.Encode(e), EncodeFrames(frames));
    HandedConcat([first], ReadAll(frames, first.lastEventId));
    HandedOne(first);
  }

  lemma BurstKeepsId(e: Parser.SseEvent, frames: seq<Frame>)
    ensures |Burst(e, frames)| <= |frames| + 1
    ensures forall j :: 0 <= j < |Burst(e, frames)| ==>
            Burst(e, frames)[j].lastEventId == Parser.Received(e).lastEventId
  {
    HandedKeepsId(ReadAll(frames, Parser.Received(e).lastEventId), Parser.Received(e).lastEventId);
  }

  /** From the wire to the agent: an event with an id, handed over or skipped, then any number of frames
      without one on the same connection, heartbeats among them or not. What is handed over of those frames
      is exactly what comes more than the TTL after the last addition of that id. */
  lemma IdlessBurst(cfg: Config, st: BridgeState, sticky: string, e: Parser.SseEvent, frames: seq<Frame>, k: nat,
                    env: Env)
    requires Parser.Received(e).eventType != HEARTBEAT && Parser.Received(e).lastEventId != ""
    requires LruTtl.Monotone(st.history) && Forward(env, k, 0, |frames| + 1)
    requires st.history != [] ==> st.history[|st.history| - 1].now <= env(k, 0).clock.look
    ensures var es := Handed(Parser.FeedAll(Parser.Idle(sticky), Parser.Encode(e) + EncodeFrames(frames)));
            var id := Parser.Received(e).lastEventId;
            var st1 := Handle(cfg, st, Parser.Received(e), env(k, 0));
            var added := if Knows(cfg, st.history, id, env(k, 0).clock.look) then AddedAt(st.history, id)
                         else env(k, 0).clock.stamp;
            && es == Burst(e, frames)
            && Consume(cfg, st, es, 0, k, env).delivered == st1.delivered + Survivors(cfg, added, es, 1, k, env)
  {
    BurstIsHanded(sticky, e, frames);
    BurstKeepsId(e, frames);
    BurstIsConsumed(cfg, st, Parser.Received(e).lastEventId, Burst(e, frames), |frames| + 1, k, env);
  }

  lemma BurstIsConsumed(cfg: Config, st: BridgeState, id: string, es: seq<Parser.SseEvent>, n: nat, k: nat, env: Env)
    requires 1 <= |es| <= n && id != "" && forall j :: 0 <= j < |es| ==> es[j].lastEventId == id
    requires LruTtl.Monotone(st.history) && Forward(env, k, 0, n)
    requires st.history != [] ==> st.history[|st.history| - 1].now <= env(k, 0).clock.look
    ensures var st1 := Handle(cfg, st, es[0], env(k, 0));
            var added := if Knows(cfg, st.history, id, env(k, 0).clock.look) then AddedAt(st.history, id)
                         else env(k, 0).clock.stamp;
            Consume(cfg, st, es, 0, k, env).delivered == st1.delivered + Survivors(cfg, added, es, 1, k, env)
  {
    var st1 := Handle(cfg, st, es[0], env(k, 0));
    TouchUsesLast(cfg, st.history, id, env(k, 0).clock);
    StillUsedBefore(cfg, st1.history, id, env, k, 0, 1, |es|);
    var rest := ConsumeSameId(cfg, id, st1, es, 1, k, env);
  }

  lemma HandedOne(e: Parser.SseEvent)
    ensures Handed([e]) == Passed(e)
  {
    assert [e][1..] == [] && Passed(e) + [] == Passed(e);
  }

  lemma {:induction false} HandedKeepsId(es: seq<Parser.SseEvent>, id: string)
    requires forall j :: 0 <= j < |es| ==> es[j].lastEventId == id
    ensures |Handed(es)| <= |es|
    ensures forall j :: 0 <= j < |Handed(es)| ==> Handed(es)[j].lastEventId == id
  {
    if es != [] { HandedKeepsId(es[1..], id); }
  }
}

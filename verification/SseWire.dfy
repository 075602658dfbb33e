/** What the handler is given from the lines of one connection, however it is cut: numbered events of the
    server's log, and frames without an id among them. */
module SseWire {
  import Parser = SseParser
  import opened SseBridge
  import opened ReplayWindow
  import opened IdlessEvents

  /** The server keeps a log of events; event `q` carries `id: q`. */
  type Log = seq<Delivery>

  /** Event `q` as the server sends it. */
  function EventAt(log: Log, q: nat): Parser.SseEvent
    requires 1 <= q <= |log|
  {
    Parser.SseEvent(log[q - 1].eventType, log[q - 1].data, EventId(q))
  }

  /** Every event of the log survives the wire and is not a heartbeat. */
  ghost predicate Sendable(log: Log) {
    forall q: nat :: SendableAt(log, q)
  }

  ghost predicate SendableAt(log: Log, q: nat) {
    1 <= q <= |log| ==> Parser.Clean(EventAt(log, q)) && log[q - 1].eventType != HEARTBEAT
  }

  // ---------- the lines of a connection ----------

  /** A frame without an id (a heartbeat, a notice, a push that is not kept), or the next event. */
  datatype Item = Idless(frame: Frame) | Event

  function Lines(f: Frame): seq<string> {
    Parser.EncodeIdless(f.eventType, f.data)
  }

  /** The lines of a connection that has reached event `q`. */
  function Wire(log: Log, q: nat, items: seq<Item>): seq<string>
    requires q >= 1
    decreases |items|
  {
    if items == [] then []
    else if items[0].Idless? then Lines(items[0].frame) + Wire(log, q, items[1..])
    else if q > |log| then []
    else Parser.Encode(EventAt(log, q)) + Wire(log, q + 1, items[1..])
  }

  /** The first `n` lines, or all of them if the connection ended on its own. */
  function Cut(lines: seq<string>, n: nat): seq<string> {
    if n < |lines| then lines[..n] else lines
  }

  lemma CutFrame(st: Parser.ParserState, frame: seq<string>, rest: seq<string>, n: nat)
    ensures n < |frame| ==> Cut(frame + rest, n) == frame[..n]
    ensures n >= |frame| ==>
      Parser.FeedAll(st, Cut(frame + rest, n)) ==
      Parser.FeedAll(st, frame) + Parser.FeedAll(Parser.After(st, Parser.ClassifyAll(frame)), Cut(rest, n - |frame|))
  {
    if n >= |frame| {
      assert Cut(frame + rest, n) == frame + Cut(rest, n - |frame|);
      Parser.FeedAllConcat(st, frame, Cut(rest, n - |frame|));
    }
  }

  /** What the handler is given from the first `n` lines of a connection at event `q`. */
  function HandedFrom(log: Log, q: nat, items: seq<Item>, n: nat, sticky: string): seq<Parser.SseEvent>
    requires q >= 1
  {
    Handed(Parser.FeedAll(Parser.Idle(sticky), Cut(Wire(log, q, items), n)))
  }

  predicate IsBeat(f: Frame) { Read(f, "").eventType == HEARTBEAT }

  /** The number of what is handed over of a frame without an id. */
  function Unnumbered(f: Frame): seq<nat> {
    if IsBeat(f) then [] else [0]
  }

  function FrameSize(f: Frame): nat { |Lines(f)| }

  function EventSize(log: Log, q: nat): nat
    requires 1 <= q <= |log|
  {
    |Parser.Encode(EventAt(log, q))|
  }

  /** The numbers of the events handed over from the first `n` lines, in order; 0 for one without an id. */
  function Numbers(log: Log, q: nat, items: seq<Item>, n: nat): seq<nat>
    requires q >= 1
    decreases |items|
  {
    if items == [] then []
    else if items[0].Idless? then
      if n < FrameSize(items[0].frame) then []
      else Unnumbered(items[0].frame) + Numbers(log, q, items[1..], n - FrameSize(items[0].frame))
    else if q > |log| || n < EventSize(log, q) then []
    else [q] + Numbers(log, q + 1, items[1..], n - EventSize(log, q))
  }

  /** The frames without an id among the items, heartbeats left out. */
  ghost function Frames(items: seq<Item>): set<Frame> {
    set x | x in items && x.Idless? && !IsBeat(x.frame) :: x.frame
  }

  /** The events handed over, against their numbers: numbered ones are the log's, without a gap from `q`
      on; the others are frames of `notes`, read under the id of the numbered one before them. */
  ghost predicate Fits(log: Log, notes: set<Frame>, es: seq<Parser.SseEvent>, nums: seq<nat>, q: nat, sticky: string)
    decreases |es|
  {
    && |es| == |nums|
    && (es != [] ==>
          || (nums[0] == 0 && IsNote(es[0], notes, sticky) && Fits(log, notes, es[1..], nums[1..], q, sticky))
          || (nums[0] == q && 1 <= q <= |log| && es[0] == EventAt(log, q)
              && Fits(log, notes, es[1..], nums[1..], q + 1, EventId(q))))
  }

  ghost predicate IsNote(e: Parser.SseEvent, notes: set<Frame>, sticky: string) {
    e.eventType != HEARTBEAT && exists f :: f in notes && e == Read(f, sticky)
  }

  lemma HandedAfterFrame(log: Log, q: nat, f: Frame, rest: seq<Item>, n: nat, sticky: string)
    requires q >= 1
    ensures HandedFrom(log, q, [Idless(f)] + rest, n, sticky) ==
            if n < FrameSize(f) then []
            else Passed(Read(f, sticky)) + HandedFrom(log, q, rest, n - FrameSize(f), sticky)
  {
    var st, frame, wire := Parser.Idle(sticky), Lines(f), Wire(log, q, rest);
    assert ([Idless(f)] + rest)[1..] == rest;
    CutFrame(st, frame, wire, n);
    if n < |frame| {
      Parser.FeedPartialIdless(sticky, f.eventType, f.data, n);
    } else {
      Parser.FeedIdless(sticky, f.eventType, f.data);
      HandedConcat([Read(f, sticky)], Parser.FeedAll(st, Cut(wire, n - |frame|)));
      HandedOne(Read(f, sticky));
    }
  }

  lemma HandedAfterEvent(log: Log, q: nat, rest: seq<Item>, n: nat, sticky: string)
    requires 1 <= q <= |log| && Sendable(log)
    ensures HandedFrom(log, q, [Event] + rest, n, sticky) ==
            if n < EventSize(log, q) then []
            else [EventAt(log, q)] + HandedFrom(log, q + 1, rest, n - EventSize(log, q), EventId(q))
  {
    var st, e, wire := Parser.Idle(sticky), EventAt(log, q), Wire(log, q + 1, rest);
    var frame := Parser.Encode(e);
    assert ([Event] + rest)[1..] == rest;
    CutFrame(st, frame, wire, n);
    if n < |frame| {
      Parser.FeedPartialFrame(sticky, e, n);
    } else {
      assert SendableAt(log, q);
      Parser.FeedFrame(sticky, e);
      Parser.RoundTripIffClean(sticky, e);
      HandedConcat([e], Parser.FeedAll(Parser.Idle(e.lastEventId), Cut(wire, n - |frame|)));
      HandedOne(e);
    }
  }

  lemma FitsNote(log: Log, notes: set<Frame>, f: Frame, es: seq<Parser.SseEvent>, nums: seq<nat>, q: nat,
                 sticky: string)
    requires Fits(log, notes, es, nums, q, sticky) && (!IsBeat(f) ==> f in notes)
    ensures Fits(log, notes, Passed(Read(f, sticky)) + es, Unnumbered(f) + nums, q, sticky)
  {
    var es', nums' := Passed(Read(f, sticky)) + es, Unnumbered(f) + nums;
    if IsBeat(f) {
      assert es' == es && nums' == nums;
    } else {
      assert es'[1..] == es && nums'[1..] == nums;
    }
  }

  lemma FitsEvent(log: Log, notes: set<Frame>, es: seq<Parser.SseEvent>, nums: seq<nat>, q: nat, next: nat,
                  sticky: string)
    requires 1 <= q <= |log| && next == q + 1 && Fits(log, notes, es, nums, next, EventId(q))
    ensures Fits(log, notes, [EventAt(log, q)] + es, [q] + nums, q, sticky)
  {
    var es', nums' := [EventAt(log, q)] + es, [q] + nums;
    assert es'[1..] == es && nums'[1..] == nums;
  }

  lemma RunFromFrame(log: Log, notes: set<Frame>, q: nat, f: Frame, items: seq<Item>, rest: seq<Item>, n: nat,
                     sticky: string)
    requires items == [Idless(f)] + rest && q >= 1 && (!IsBeat(f) ==> f in notes)
    requires n >= FrameSize(f) ==>
             var left := n - FrameSize(f);
             Fits(log, notes, HandedFrom(log, q, rest, left, sticky), Numbers(log, q, rest, left), q, sticky)
    ensures Fits(log, notes, HandedFrom(log, q, items, n, sticky), Numbers(log, q, items, n), q, sticky)
  {
    assert items[1..] == rest;
    HandedAfterFrame(log, q, f, rest, n, sticky);
    if n >= FrameSize(f) {
      var left := n - FrameSize(f);
      FitsNote(log, notes, f, HandedFrom(log, q, rest, left, sticky), Numbers(log, q, rest, left), q, sticky);
    }
  }

  lemma RunFromEvent(log: Log, notes: set<Frame>, q: nat, next: nat, items: seq<Item>, rest: seq<Item>, n: nat,
                     sticky: string)
    requires items == [Event] + rest && 1 <= q <= |log| && next == q + 1 && Sendable(log)
    requires n >= EventSize(log, q) ==>
             var left := n - EventSize(log, q);
             Fits(log, notes, HandedFrom(log, next, rest, left, EventId(q)), Numbers(log, next, rest, left), next,
                  EventId(q))
    ensures Fits(log, notes, HandedFrom(log, q, items, n, sticky), Numbers(log, q, items, n), q, sticky)
  {
    assert items[1..] == rest;
    HandedAfterEvent(log, q, rest, n, sticky);
    if n >= EventSize(log, q) {
      var left := n - EventSize(log, q);
      FitsEvent(log, notes, HandedFrom(log, next, rest, left, EventId(q)), Numbers(log, next, rest, left), q, next,
                sticky);
    }
  }

  lemma NothingHanded(log: Log, q: nat, items: seq<Item>, n: nat, sticky: string)
    requires q >= 1 && (items == [] || (items[0].Event? && q > |log|))
    ensures HandedFrom(log, q, items, n, sticky) == [] && Numbers(log, q, items, n) == []
  {
    assert Wire(log, q, items) == [];
    assert Cut([], n) == [];
  }

  lemma FramesOfRest(items: seq<Item>, first: Item, rest: seq<Item>, notes: set<Frame>)
    requires items == [first] + rest && Frames(items) <= notes
    ensures Frames(rest) <= notes && (first.Idless? && !IsBeat(first.frame) ==> first.frame in notes)
  {
    assert first in items && forall x :: x in rest ==> x in items;
    assert first.Idless? && !IsBeat(first.frame) ==> first.frame in Frames(items);
  }

  /** However a connection is cut, the handler is given an unbroken run of numbered events from its start, with
      the frames without an id in between, each under the id of the event before it. */
  lemma {:induction false} HandedIsARun(log: Log, notes: set<Frame>, q: nat, items: seq<Item>, n: nat, sticky: string)
    requires 1 <= q <= |log| + 1 && Sendable(log) && Frames(items) <= notes
    ensures Fits(log, notes, HandedFrom(log, q, items, n, sticky), Numbers(log, q, items, n), q, sticky)
    decreases |items|
  {
    if items == [] || (items[0].Event? && q > |log|) {
      NothingHanded(log, q, items, n, sticky);
    } else {
      var first, rest := items[0], items[1..];
      assert items == [first] + rest;
      FramesOfRest(items, first, rest, notes);
      if first.Idless? {
        if n >= FrameSize(first.frame) { HandedIsARun(log, notes, q, rest, n - FrameSize(first.frame), sticky); }
        RunFromFrame(log, notes, q, first.frame, items, rest, n, sticky);
      } else {
        if n >= EventSize(log, q) { HandedIsARun(log, notes, q + 1, rest, n - EventSize(log, q), EventId(q)); }
        RunFromEvent(log, notes, q, q + 1, items, rest, n, sticky);
      }
    }
  }
}

/** What the server may do so that no replayed event is ever taken for a new one: it resumes no earlier than it
    did before and replays no more events than the cache has room for beside the other ids, within the TTL. */
module SseServer {
  import opened Text
  import Parser = SseParser
  import opened SseBridge
  import opened ReplayWindow
  import opened IdlessEvents
  import opened SseWire
  import opened SseDelivery

  // ---------- what the server promises ----------

  /** One arrival is in time: a replayed event comes within the TTL of its delivery; the id named by a frame
      before any event is one of `strangers`. With `keepsPlace`, so does a frame without an id after an event
      other than the last. */
  ghost predicate Punctual(w: World, strangers: set<string>, st: BridgeState, e: Parser.SseEvent, num: nat, a: Arrival)
  {
    var top := Top(w.first, st);
    && Timely(st.history, a.clock)
    && if num != 0 then num <= top ==> InTime(w.cfg, st.history, EventId(num), a.clock.look)
       else if e.lastEventId == "" then
         NamesNoEvent(e, a.json) && (DedupKey(e, a.json).Some? ==> DedupKey(e, a.json).value in strangers)
       else w.keepsPlace ==>
              || (top >= 0 && e.lastEventId == EventId(top))
              || InTime(w.cfg, st.history, e.lastEventId, a.clock.look)
  }

  ghost predicate AllPunctual(w: World, strangers: set<string>, st: BridgeState, p: Pass, i: nat, env: Env)
    requires i <= |p.es|
    decreases |p.es| - i
  {
    i == |p.es| ||
      (&& Punctual(w, strangers, st, p.es[i], p.NumberAt(i), env(p.k, i))
       && AllPunctual(w, strangers, Handle(w.cfg, st, p.es[i], env(p.k, i)), p, i + 1, env))
  }

  /** Where the last connection of a run started. */
  function LastStart(w: World, run: seq<Connection>): Number {
    if run == [] then w.first else run[|run| - 1].start
  }

  /** A connection starts no earlier than the one before it, no later than the event after the last one
      received, and replays no more events than the cache holds beside `others` other ids. */
  ghost predicate InWindow(w: World, others: nat, low: nat, st: BridgeState, start: nat) {
    low <= start <= Top(w.first, st) + 1 && FitsTheCache(w, others, st, start)
  }

  ghost predicate FitsTheCache(w: World, others: nat, st: BridgeState, start: nat) {
    Top(w.first, st) + 1 + others <= start + w.cfg.maxSize
  }

  ghost predicate Keeps(w: World, strangers: set<string>, low: nat, st: BridgeState, k: nat, c: Connection, env: Env) {
    && InWindow(w, |strangers|, low, st, c.start)
    && AllPunctual(w, strangers, st, PassOf(w.log, k, c), 0, env)
  }

  ghost predicate ServerKeeps(w: World, strangers: set<string>, run: seq<Connection>, env: Env) {
    run == [] ||
      var k := |run| - 1;
      && ServerKeeps(w, strangers, run[..k], env)
      && Keeps(w, strangers, LastStart(w, run[..k]), AfterRun(w, run[..k], env), k, run[k], env)
  }

  // ---------- the window during a connection ----------

  function Width(cfg: Config, strangers: set<string>): nat {
    if |strangers| <= cfg.maxSize then cfg.maxSize - |strangers| else 0
  }

  /** The protected window when the connection started at `low` stands at `next`. */
  ghost function WindowAt(w: World, strangers: set<string>, low: nat, next: nat, st: BridgeState): Window {
    Window(low, next, Top(w.first, st), Width(w.cfg, strangers), strangers)
  }

  ghost predicate GuardedAt(w: World, strangers: set<string>, low: nat, next: nat, st: BridgeState) {
    Guarded(w.cfg, st.history, WindowAt(w, strangers, low, next, st))
  }

  ghost predicate Standing(w: World, strangers: set<string>, low: nat, s: Spot, st: BridgeState) {
    && |strangers| <= w.cfg.maxSize
    && w.first <= low <= s.next <= Top(w.first, st) + 1
    && (s.sticky != "" ==> low < s.next && s.sticky == EventId(s.next - 1))
    && (s.next <= Top(w.first, st) ==> Top(w.first, st) < low + Width(w.cfg, strangers))
    && GuardedAt(w, strangers, low, s.next, st)
  }

  /** In such a window, being in time is enough. */
  lemma StandingRemembers(w: World, notes: set<Frame>, strangers: set<string>, low: nat, s: Spot, t: Tracked,
                          x: nat, now: real)
    requires Standing(w, strangers, low, s, t.st) && Inv(w, notes, s.next, t)
    requires low <= x <= Top(w.first, t.st) && (s.next == x || s.next == x + 1 <= Top(w.first, t.st))
    requires InTime(w.cfg, t.st.history, EventId(x), now)
    ensures Remembered(w.cfg, t.st.history, EventId(x), now)
  {
    GuardedIsRemembered(w.cfg, t.st.history, WindowAt(w, strangers, low, s.next, t.st), x, now);
  }

  lemma PunctualArrivesWell(w: World, notes: set<Frame>, strangers: set<string>, low: nat, s: Spot, t: Tracked,
                            e: Parser.SseEvent, num: nat, a: Arrival)
    requires Standing(w, strangers, low, s, t.st) && IsNext(w.log, notes, e, num, s) && Inv(w, notes, s.next, t)
    requires Punctual(w, strangers, t.st, e, num, a)
    ensures ArrivesWell(w, t.st, e, num, a)
  {
    var top := Top(w.first, t.st);
    if num != 0 && num <= top {
      StandingRemembers(w, notes, strangers, low, s, t, num, a.clock.look);
    } else if num == 0 && s.sticky != "" && w.keepsPlace && e.lastEventId != EventId(top) {
      StandingRemembers(w, notes, strangers, low, s, t, s.next - 1, a.clock.look);
    }
  }

  /** Whether an event is skipped or not, its key is touched. */
  lemma HandleTouches(cfg: Config, st: BridgeState, e: Parser.SseEvent, a: Arrival)
    ensures var key := DedupKey(e, a.json);
            Handle(cfg, st, e, a).history ==
            if key.Some? then Touched(cfg, st.history, key.value, a.clock) else st.history
  {
  }

  /** The window after one arrival. */
  lemma ArrivalKeepsGuarded(w: World, notes: set<Frame>, strangers: set<string>, low: nat, s: Spot, t: Tracked,
                            e: Parser.SseEvent, num: nat, a: Arrival)
    requires Standing(w, strangers, low, s, t.st) && IsNext(w.log, notes, e, num, s)
    requires Punctual(w, strangers, t.st, e, num, a)
    requires Top(w.first, Handle(w.cfg, t.st, e, a)) == TopAfter(Top(w.first, t.st), num)
    ensures Standing(w, strangers, low, Advance(s, num), Handle(w.cfg, t.st, e, a))
  {
    var win := WindowAt(w, strangers, low, s.next, t.st);
    HandleTouches(w.cfg, t.st, e, a);
    if num != 0 {
      assert EventId(num) != "" && DedupKey(e, a.json) == Some(EventId(num));
      if num <= Top(w.first, t.st) {
        UseKeepsGuarded(w.cfg, t.st.history, win, num, num + 1, a.clock);
      } else {
        NewKeepsGuarded(w.cfg, t.st.history, win, num, num + 1, a.clock);
      }
    } else if s.sticky != "" {
      assert DedupKey(e, a.json) == Some(s.sticky);
      UseKeepsGuarded(w.cfg, t.st.history, win, s.next - 1, s.next, a.clock);
    } else if DedupKey(e, a.json).Some? {
      StrangerKeepsGuarded(w.cfg, t.st.history, win, DedupKey(e, a.json).value, a.clock);
    }
  }

  lemma PunctualArrival(w: World, notes: set<Frame>, strangers: set<string>, low: nat, p: Pass, i: nat, after: nat,
                        s: Spot, t: Tracked, a: Arrival)
    requires Sendable(w.log) && w.cfg.useV2 && Midway(w, notes, p, i, s, t) && Standing(w, strangers, low, s, t.st)
    requires i < |p.es| && after == i + 1 && Punctual(w, strangers, t.st, p.es[i], p.NumberAt(i), a)
    ensures ArrivesWell(w, t.st, p.es[i], p.NumberAt(i), a)
    ensures var s', t' := Advance(s, p.NumberAt(i)), Take(w.cfg, t, p.es[i], p.NumberAt(i), a);
            Midway(w, notes, p, after, s', t') && Standing(w, strangers, low, s', t'.st)
  {
    FitsStep(w.log, notes, p, i, after, s);
    PunctualArrivesWell(w, notes, strangers, low, s, t, p.es[i], p.NumberAt(i), a);
    ArrivalKeeps(w, notes, p, i, after, s, t, a);
    ArrivalKeepsGuarded(w, notes, strangers, low, s, t, p.es[i], p.NumberAt(i), a);
  }

  /** Over a whole connection: every replayed event is remembered. */
  lemma {:induction false} PunctualPass(w: World, notes: set<Frame>, strangers: set<string>, low: nat, p: Pass, i: nat,
                                        s: Spot, t: Tracked, env: Env)
    requires Sendable(w.log) && w.cfg.useV2 && Midway(w, notes, p, i, s, t) && Standing(w, strangers, low, s, t.st)
    requires AllPunctual(w, strangers, t.st, p, i, env)
    ensures AllArriveWell(w, t.st, p, i, env)
    decreases |p.es| - i
  {
    if i < |p.es| {
      var num, a := p.NumberAt(i), env(p.k, i);
      PunctualArrival(w, notes, strangers, low, p, i, i + 1, s, t, a);
      PunctualPass(w, notes, strangers, low, p, i + 1, Advance(s, num), Take(w.cfg, t, p.es[i], num, a), env);
    }
  }

  /** And the window is as protected after it as before. */
  lemma {:induction false} PassKeepsGuarded(w: World, notes: set<Frame>, strangers: set<string>, low: nat, p: Pass,
                                            i: nat, s: Spot, t: Tracked, env: Env)
    requires Sendable(w.log) && w.cfg.useV2 && Midway(w, notes, p, i, s, t) && Standing(w, strangers, low, s, t.st)
    requires AllPunctual(w, strangers, t.st, p, i, env)
    ensures GuardedAt(w, strangers, low, NextAfter(p, i, s.next), TakeAll(w.cfg, t, p, i, env).st)
    decreases |p.es| - i
  {
    if i < |p.es| {
      var s', t' := Advance(s, p.NumberAt(i)), Take(w.cfg, t, p.es[i], p.NumberAt(i), env(p.k, i));
      PunctualArrival(w, notes, strangers, low, p, i, i + 1, s, t, env(p.k, i));
      PassKeepsGuarded(w, notes, strangers, low, p, i + 1, s', t', env);
      PassNext(w, p, i, i + 1, s, t, t', env);
    }
  }

  // ---------- a whole run ----------

  lemma StartStands(w: World, strangers: set<string>, low: nat, before: nat, st: BridgeState, start: nat)
    requires w.first <= low && InWindow(w, |strangers|, low, st, start)
    requires GuardedAt(w, strangers, low, before, st)
    ensures Standing(w, strangers, start, Spot(start, ""), st)
  {
    RestartKeepsGuarded(w.cfg, st.history, WindowAt(w, strangers, low, before, st), start);
  }

  lemma {:induction false} RunIsGuarded(w: World, strangers: set<string>, run: seq<Connection>, env: Env)
    requires Sendable(w.log) && w.cfg.useV2 && w.first <= |w.log| + 1 && ServerKeeps(w, strangers, run, env)
    ensures Admissible(w, run, env) && LastStart(w, run) >= w.first
    ensures GuardedAt(w, strangers, LastStart(w, run), NextOf(w, run), AfterRun(w, run, env))
  {
    if run != [] {
      var k := |run| - 1;
      var t, c, low := Track(w, run[..k], env), run[k], LastStart(w, run[..k]);
      var notes := FramesOf(run[..k]) + Frames(c.items);
      RunIsGuarded(w, strangers, run[..k], env);
      RunKeeps(w, run[..k], notes, env);
      TrackIsTheRun(w, run[..k], env);
      TrackIsTheRun(w, run, env);
      StartStands(w, strangers, low, NextOf(w, run[..k]), t.st, c.start);
      StartConnection(w, notes, NextOf(w, run[..k]), t, k, c);
      PunctualPass(w, notes, strangers, c.start, PassOf(w.log, k, c), 0, Spot(c.start, ""), t, env);
      PassKeepsGuarded(w, notes, strangers, c.start, PassOf(w.log, k, c), 0, Spot(c.start, ""), t, env);
    }
  }

  /** A server that never goes back, replays no more than fits in the cache and does so within the TTL brings
      about a run to which every theorem on delivery applies. */
  lemma WindowIsEnough(w: World, strangers: set<string>, run: seq<Connection>, env: Env)
    requires Sendable(w.log) && w.cfg.useV2 && w.first <= |w.log| + 1 && ServerKeeps(w, strangers, run, env)
    ensures Admissible(w, run, env)
    ensures var t := Track(w, run, env);
            var top := Top(w.first, t.st);
            && t.st == AfterRun(w, run, env) && |t.marks| == |t.st.delivered|
            && w.first - 1 <= top <= |w.log| && Marked(t.st.delivered, t.marks) == w.log[w.first - 1..top]
  {
    RunIsGuarded(w, strangers, run, env);
    ExactlyOnceInOrder(w, run, env);
  }
}

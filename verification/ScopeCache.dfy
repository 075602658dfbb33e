/** `_ScopeCache` and `_load_scope_for`: the per-key tool scopes an HTTP server caches while many
    requests, each with its own key, are in flight. */
module ScopeCache {
  import opened Text
  import opened LruTtl

  /** A manifest scope; `None` is the fail-open value kept when the manifest could not be read. */
  type Scope = Option<seq<string>>

  datatype Lookup = Miss | Hit(scope: Scope)

  class Cache {
    const maxSize: nat
    const ttl: real
    var store: Store<Scope>

    ghost predicate Valid() reads this {
      DistinctKeys(store)
    }

    constructor (maxSize: nat, ttl: real)
      ensures Valid() && store == [] && this.maxSize == maxSize && this.ttl == ttl
    {
      this.maxSize, this.ttl, store := maxSize, ttl, [];
    }

    method Get(key: string, now: real) returns (r: Lookup)
      requires Valid()
      modifies this
      ensures Valid()
      ensures store == AfterLook(old(store), key, now, ttl)
      ensures r == LookupIn(old(store), key, now, ttl)
    {
      var i := Find(store, key);
      if i == |store| {
        return Miss;
      }
      var item := store[i];
      if now - item.at > ttl {
        RemoveAt(store, key);
        store := store[..i] + store[i + 1..];
        return Miss;
      }
      MoveToEndAt(store, key);
      store := store[..i] + store[i + 1..] + [item];
      return Hit(item.val);
    }

    method Put(key: string, scope: Scope, now: real)
      requires Valid()
      modifies this
      ensures Valid()
      ensures store == AfterPut(old(store), key, now, scope, maxSize)
    {
      RemoveAt(store, key);
      var i := Find(store, key);
      var others := if i < |store| then store[..i] + store[i + 1..] else store;
      assert others == Remove(store, key);
      store := others + [Entry(key, now, scope)];
      DropOldest();
    }

    /** `while len(store) > max: popitem(last=False)`. */
    method DropOldest()
      requires Valid()
      modifies this
      ensures Valid()
      ensures store == Trim(old(store), maxSize)
    {
      ghost var full := store;
      while |store| > maxSize
        invariant |store| <= |full| && store == full[|full| - |store|..]
        invariant |store| >= maxSize || store == full
      {
        store := store[1..];
      }
    }
  }

  function LookupIn(s: Store<Scope>, key: string, now: real, ttl: real): Lookup {
    if Live(s, key, now, ttl) then Hit(s[Find(s, key)].val) else Miss
  }

  // ---------- requests in flight ----------

  /** What happens at the server. `Begin`: request `task` looks its key up (and decides at once on a
      hit, else asks the backend). `Reply`: the backend's answer for a waiting request arrives, is
      cached and decides that request. `Failed`: there is no usable answer, and the fail-open value is
      cached and decides it. Answers and failures may arrive in any order. */
  datatype Action =
    | Begin(task: nat, key: string, now: real)
    | Reply(task: nat, scope: seq<string>, now: real)
    | Failed(task: nat, now: real)

  /** A list or call decision made for `key` with `scope`. */
  datatype Decision = Decision(task: nat, key: string, scope: Scope, at: real)

  datatype Server = Server(history: seq<Op<Scope>>, waiting: map<nat, string>, decisions: seq<Decision>)

  function Idle(): Server {
    Server([], map[], [])
  }

  /** What reading the manifest came to. */
  function Outcome(a: Action): Scope {
    if a.Reply? then Some(a.scope) else None
  }

  function Act(s: Server, a: Action, max: nat, ttl: real): Server {
    match a
    case Begin(task, key, now) =>
      var looked := s.history + [Look(key, now)];
      (match LookupIn(Run(s.history, max, ttl), key, now, ttl)
       case Hit(scope) => s.(history := looked, decisions := s.decisions + [Decision(task, key, scope, now)])
       case Miss => s.(history := looked, waiting := s.waiting[task := key]))
    case _ =>
      if a.task in s.waiting then
        var key := s.waiting[a.task];
        Server(s.history + [Put(key, a.now, Outcome(a))], s.waiting - {a.task},
               s.decisions + [Decision(a.task, key, Outcome(a), a.now)])
      else s
  }

  function ActAll(actions: seq<Action>, max: nat, ttl: real): Server {
    if actions == [] then Idle()
    else Act(ActAll(actions[..|actions| - 1], max, ttl), actions[|actions| - 1], max, ttl)
  }

  /** Action `a` ends a manifest read for `key`. */
  predicate Ends(s: Server, a: Action, key: string) {
    !a.Begin? && a.task in s.waiting && s.waiting[a.task] == key
  }

  /** The last manifest read for `key` that came to an end, as a one-element or empty sequence. */
  function LastRead(actions: seq<Action>, key: string, max: nat, ttl: real): (r: seq<Action>)
    ensures r != [] ==> |r| == 1 && !r[0].Begin?
  {
    if actions == [] then []
    else
      var p, a := actions[..|actions| - 1], actions[|actions| - 1];
      if Ends(ActAll(p, max, ttl), a, key) then [a] else LastRead(p, key, max, ttl)
  }

  /** Some request with `key` began, and `end` is how its manifest read ended. */
  ghost predicate ReadFor(actions: seq<Action>, key: string, end: Action) {
    exists i, j :: 0 <= i < j < |actions| && actions[j] == end && Begins(actions[i], end, key)
  }

  ghost predicate Begins(begin: Action, end: Action, key: string) {
    begin.Begin? && begin.key == key && !end.Begin? && end.task == begin.task
  }

  ghost predicate Waits(actions: seq<Action>, task: nat, key: string) {
    exists i :: 0 <= i < |actions| && actions[i].Begin? && actions[i].task == task && actions[i].key == key
  }

  /** The cache holds, for every key, what the last read for it came to. */
  ghost predicate Stored(h: seq<Op<Scope>>, last: seq<Action>, key: string) {
    LastPut(h, key) == if last == [] then [] else [Put(key, last[0].now, Outcome(last[0]))]
  }

  ghost predicate Traced(actions: seq<Action>, s: Server, max: nat, ttl: real) {
    && (forall t :: t in s.waiting ==> Waits(actions, t, s.waiting[t]))
    && (forall key :: Stored(s.history, LastRead(actions, key, max, ttl), key))
    && (forall key :: LastReadIsFor(actions, key, max, ttl))
  }

  ghost predicate LastReadIsFor(actions: seq<Action>, key: string, max: nat, ttl: real) {
    var r := LastRead(actions, key, max, ttl);
    r != [] ==> ReadFor(actions, key, r[0])
  }

  lemma ReadLater(actions: seq<Action>, a: Action, key: string, end: Action)
    requires ReadFor(actions, key, end)
    ensures ReadFor(actions + [a], key, end)
  {
    var i, j :| 0 <= i < j < |actions| && actions[j] == end && Begins(actions[i], end, key);
    var more := actions + [a];
    assert more[i] == actions[i] && more[j] == actions[j];
  }

  lemma WaitsLater(actions: seq<Action>, a: Action, task: nat, key: string)
    requires Waits(actions, task, key)
    ensures Waits(actions + [a], task, key)
  {
    var i :| 0 <= i < |actions| && actions[i].Begin? && actions[i].task == task && actions[i].key == key;
    assert (actions + [a])[i] == actions[i];
  }

  lemma StepIsTraced(actions: seq<Action>, a: Action, s: Server, max: nat, ttl: real)
    requires s == ActAll(actions, max, ttl) && Traced(actions, s, max, ttl)
    ensures Traced(actions + [a], Act(s, a, max, ttl), max, ttl)
  {
    var more, s' := actions + [a], Act(s, a, max, ttl);
    assert more[..|actions|] == actions && more[|actions|] == a;
    forall t | t in s'.waiting ensures Waits(more, t, s'.waiting[t]) {
      if t in s.waiting && s'.waiting[t] == s.waiting[t] {
        WaitsLater(actions, a, t, s.waiting[t]);
      } else {
        assert more[|actions|] == Begin(t, s'.waiting[t], a.now);
      }
    }
    forall key ensures Stored(s'.history, LastRead(more, key, max, ttl), key) && LastReadIsFor(more, key, max, ttl) {
      assert Stored(s.history, LastRead(actions, key, max, ttl), key) && LastReadIsFor(actions, key, max, ttl);
      LastReadNext(actions, a, key, max, ttl);
      HistoryNext(s, a, key, max, ttl);
      ReadIsFor(actions, a, s, key, LastRead(actions, key, max, ttl), LastRead(more, key, max, ttl));
    }
  }

  lemma LastReadNext(actions: seq<Action>, a: Action, key: string, max: nat, ttl: real)
    ensures LastRead(actions + [a], key, max, ttl) ==
            if Ends(ActAll(actions, max, ttl), a, key) then [a] else LastRead(actions, key, max, ttl)
  {
    assert (actions + [a])[..|actions|] == actions;
  }

  /** What an action adds to the cache history. */
  lemma HistoryNext(s: Server, a: Action, key: string, max: nat, ttl: real)
    ensures LastPut(Act(s, a, max, ttl).history, key) ==
            if Ends(s, a, key) then [Put(key, a.now, Outcome(a))] else LastPut(s.history, key)
  {
    var h' := Act(s, a, max, ttl).history;
    assert h' != s.history ==> h'[..|h'| - 1] == s.history;
  }

  lemma ReadIsFor(actions: seq<Action>, a: Action, s: Server, key: string, r: seq<Action>, r': seq<Action>)
    requires forall t :: t in s.waiting ==> Waits(actions, t, s.waiting[t])
    requires r' == if Ends(s, a, key) then [a] else r
    requires r != [] ==> ReadFor(actions, key, r[0])
    ensures r' != [] ==> ReadFor(actions + [a], key, r'[0])
  {
    var more := actions + [a];
    if Ends(s, a, key) {
      assert Waits(actions, a.task, key);
      var i :| 0 <= i < |actions| && actions[i].Begin? && actions[i].task == a.task && actions[i].key == key;
      assert more[i] == actions[i] && more[|actions|] == a && Begins(more[i], a, key);
    } else if r != [] {
      ReadLater(actions, a, key, r[0]);
    }
  }

  lemma {:induction false} EveryRunIsTraced(actions: seq<Action>, max: nat, ttl: real)
    ensures Traced(actions, ActAll(actions, max, ttl), max, ttl)
  {
    if actions != [] {
      var p, a := actions[..|actions| - 1], actions[|actions| - 1];
      EveryRunIsTraced(p, max, ttl);
      assert actions == p + [a];
      StepIsTraced(p, a, ActAll(p, max, ttl), max, ttl);
    }
  }

  /** The decision made by an action, as a one-element or empty sequence. */
  function Made(actions: seq<Action>, a: Action, max: nat, ttl: real): seq<Decision> {
    var s := ActAll(actions, max, ttl);
    Act(s, a, max, ttl).decisions[|s.decisions|..]
  }

  /** In every interleaving, a decision for a key uses exactly what the last completed manifest read for
      that same key came to, and that read ended at most the TTL earlier: the scope the backend returned, or
      the fail-open value, and that exactly when the last read failed. */
  lemma DecisionUsesLastRead(actions: seq<Action>, a: Action, max: nat, ttl: real, d: Decision)
    requires ttl >= 0.0 && d in Made(actions, a, max, ttl)
    ensures var r := LastRead(actions + [a], d.key, max, ttl);
            && r != [] && ReadFor(actions + [a], d.key, r[0])
            && d.scope == Outcome(r[0]) && d.at - r[0].now <= ttl
            && (d.scope == None <==> r[0].Failed?)
  {
    var s, more := ActAll(actions, max, ttl), actions + [a];
    assert more[..|actions|] == actions;
    EveryRunIsTraced(actions, max, ttl);
    EveryRunIsTraced(more, max, ttl);
    assert Stored(s.history, LastRead(actions, d.key, max, ttl), d.key);
    assert LastReadIsFor(more, d.key, max, ttl);
    if a.Begin? {
      assert Live(Run(s.history, max, ttl), a.key, a.now, ttl);
      HitIsLastPut(s.history, max, ttl, a.key, a.now);
    }
  }

  /** A scope the backend returned to a request with that key, or the fail-open value of a failed read for
      that key, at most `ttl` before the decision. */
  ghost predicate FreshDecision(actions: seq<Action>, d: Decision, ttl: real) {
    exists end: Action :: ReadFor(actions, d.key, end) && d.scope == Outcome(end) && d.at - end.now <= ttl
  }

  lemma FreshLater(actions: seq<Action>, a: Action, d: Decision, ttl: real)
    requires FreshDecision(actions, d, ttl)
    ensures FreshDecision(actions + [a], d, ttl)
  {
    var end: Action :| ReadFor(actions, d.key, end) && d.scope == Outcome(end) && d.at - end.now <= ttl;
    ReadLater(actions, a, d.key, end);
  }

  /** Every decision of every run, in every interleaving: the scope came from the backend for that same key, or,
      when the scope is the fail-open value, a read for that same key failed; at most the TTL earlier. */
  lemma {:induction false} DecisionsUseOwnFreshScope(actions: seq<Action>, max: nat, ttl: real, d: Decision)
    requires ttl >= 0.0 && d in ActAll(actions, max, ttl).decisions
    ensures FreshDecision(actions, d, ttl)
    ensures exists end: Action ::
              && ReadFor(actions, d.key, end) && d.at - end.now <= ttl
              && if d.scope.Some? then end == Reply(end.task, d.scope.value, end.now)
                 else end == Failed(end.task, end.now)
  {
    var p, a := actions[..|actions| - 1], actions[|actions| - 1];
    assert actions == p + [a];
    if d in Made(p, a, max, ttl) {
      MadeIsFresh(p, a, max, ttl, d);
    } else {
      DecisionsUseOwnFreshScope(p, max, ttl, d);
      FreshLater(p, a, d, ttl);
    }
    var end: Action :| ReadFor(actions, d.key, end) && d.scope == Outcome(end) && d.at - end.now <= ttl;
    ReadEnds(actions, d.key, end);
  }

  lemma MadeIsFresh(actions: seq<Action>, a: Action, max: nat, ttl: real, d: Decision)
    requires ttl >= 0.0 && d in Made(actions, a, max, ttl)
    ensures FreshDecision(actions + [a], d, ttl)
  {
    DecisionUsesLastRead(actions, a, max, ttl, d);
    assert ReadFor(actions + [a], d.key, LastRead(actions + [a], d.key, max, ttl)[0]);
  }

  lemma ReadEnds(actions: seq<Action>, key: string, end: Action)
    requires ReadFor(actions, key, end)
    ensures !end.Begin?
  {
  }

  /** No needless refetch: a key cached within the TTL, with fewer than `max` distinct other keys
      used since it was last used, is a hit, and the hit is the last scope stored for it. */
  lemma LiveScopeIsServed(h: seq<Op<Scope>>, max: nat, ttl: real, key: string, now: real)
    requires Monotone(h) && (h != [] ==> h[|h| - 1].now <= now)
    requires LastPut(h, key) != [] && now - LastPut(h, key)[0].now <= ttl
    requires |Rivals(h, key, max, ttl)| < max
    ensures LookupIn(Run(h, max, ttl), key, now, ttl) == Hit(LastPut(h, key)[0].val)
  {
    if Live(Run(h, max, ttl), key, now, ttl) {
      HitIsLastPut(h, max, ttl, key, now);
    } else {
      MissIsJustified(h, max, ttl, key, now);
    }
  }
}

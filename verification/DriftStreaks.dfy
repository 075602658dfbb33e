/** The streak counters the duration audit carries from run to run, and the warnings they give. */
module DriftStreaks {
  import opened Text
  import opened Sorting
  import opened SlowTestJudge
  import opened SlowTestVerdict

  const DRIFT_STREAK_THRESHOLD: int := 3
  const RATIO_WARN_HIGH_MULTIPLIER: real := 2.0
  const GUARD_MARGIN_WARN: real := 2.0

  type Streaks = map<string, int>

  /** The state file between runs. `Flat` is the old shape without a run id; the margin part is only
      written when there is something in it. */
  datatype StateFile =
    | NoFile
    | Unreadable
    | Flat(counts: Streaks)
    | Full(savedRun: Option<string>, saved: Streaks, savedMargin: Option<Streaks>)

  datatype State = State(runId: Option<string>, streaks: Streaks, margin: Streaks)

  function Load(file: StateFile): State {
    match file
    case NoFile => State(None, map[], map[])
    case Unreadable => State(None, map[], map[])
    case Flat(counts) => State(None, counts, map[])
    case Full(run, streaks, margin) => State(run, streaks, if margin == None then map[] else margin.value)
  }

  function Save(st: State): (file: StateFile)
    ensures Load(file) == st
  {
    Full(st.runId, st.streaks, if st.margin == map[] then None else Some(st.margin))
  }

  /** One audit: its run id, what the shards measured and the registered weights. */
  datatype Audit = Audit(runId: Option<string>, measured: Seconds, weights: Seconds, provisional: set<string>) {

    /** Registered at half of what was measured, or less. */
    predicate TooLow(f: string) {
      && f in measured && f in weights && weights[f] > 0.0
      && measured[f] / weights[f] >= RATIO_WARN_HIGH_MULTIPLIER
    }

    /** The absolute line is less than twice the measurement. */
    predicate MarginGone(f: string) {
      && f in measured && f in weights && f !in provisional && measured[f] > 0.0
      && AbsoluteLine(weights[f]) / measured[f] < GUARD_MARGIN_WARN
    }

    function Underregistered(): set<string> { set f | f in measured && TooLow(f) }

    function MarginCollapsed(): set<string> { set f | f in measured && MarginGone(f) }
  }

  /** Registered too low: measured at twice the weight or more. */
  lemma UnderregisteredIff(a: Audit, f: string)
    ensures f in a.Underregistered() <==>
            f in a.measured && f in a.weights && a.weights[f] > 0.0 && a.measured[f] >= 2.0 * a.weights[f]
  {
    if f in a.measured && f in a.weights && a.weights[f] > 0.0 {
      QuotientIs(a.measured[f], a.weights[f], 2.0);
    }
  }

  /** The margin is gone: twice the measurement is above both two and a half times the weight and a minute. */
  lemma MarginCollapsedIff(a: Audit, f: string)
    ensures f in a.MarginCollapsed() <==>
            && f in a.measured && f in a.weights && f !in a.provisional && a.measured[f] > 0.0
            && 2.0 * a.measured[f] > 2.5 * a.weights[f] && 2.0 * a.measured[f] > 60.0
  {
    if f in a.measured && f in a.weights && a.measured[f] > 0.0 {
      QuotientIs(AbsoluteLine(a.weights[f]), a.measured[f], 2.0);
    }
  }

  /** How a quotient compares is how the products do. */
  lemma QuotientIs(x: real, w: real, k: real)
    requires w > 0.0
    ensures x / w >= k <==> x >= k * w
  {
    CompareTimes(x / w, k, w, x);
  }

  lemma CompareTimes(q: real, k: real, w: real, x: real)
    requires w > 0.0 && x == q * w
    ensures q >= k <==> x >= k * w
  {
    if q < k {
      StrictlyLess(w, q, k);
    } else if q > k {
      StrictlyLess(w, k, q);
    }
  }

  lemma StrictlyLess(w: real, q: real, k: real)
    requires w > 0.0 && q < k
    ensures q * w < k * w
  {
  }

  function UpdateStreaks(m: Streaks, over: set<string>): Streaks {
    map f | f in over :: (if f in m then m[f] else 0) + 1
  }

  function Due(m: Streaks): set<string> {
    set f | f in m && m[f] >= DRIFT_STREAK_THRESHOLD
  }

  function Cleared(m: Streaks, due: set<string>): Streaks {
    map f | f in m :: if f in due then 0 else m[f]
  }

  /** Update and reset of one counter family. */
  function Tick(m: Streaks, over: set<string>): Streaks {
    var u := UpdateStreaks(m, over);
    Cleared(u, Due(u))
  }

  predicate IsRetry(st: State, a: Audit) {
    a.runId.Some? && st.runId == a.runId
  }

  function Step(st: State, a: Audit): State {
    if IsRetry(st, a) then st
    else State(a.runId, Tick(st.streaks, a.Underregistered()), Tick(st.margin, a.MarginCollapsed()))
  }

  function DriftFired(st: State, a: Audit): set<string> {
    if IsRetry(st, a) then {} else Due(UpdateStreaks(st.streaks, a.Underregistered()))
  }

  function MarginFired(st: State, a: Audit): set<string> {
    if IsRetry(st, a) then {} else Due(UpdateStreaks(st.margin, a.MarginCollapsed()))
  }

  method DriftWarnings(m: Streaks) returns (fired: seq<string>)
    ensures SortedListOf(fired, Due(m))
  {
    fired := [];
    var todo := m.Keys;
    while todo != {}
      invariant todo <= m.Keys
      invariant NoDuplicates(fired) && Elements(fired) == Due(m) - todo
      decreases |todo|
    {
      var f :| f in todo;
      fired := Appended(fired, Due(m), todo, f, m[f] >= DRIFT_STREAK_THRESHOLD);
      todo := todo - {f};
    }
    fired := SortedNames(fired, Due(m));
  }

  /** Warn about the due counters in name order, setting each to zero. */
  method WarnAndReset(m: Streaks) returns (m': Streaks, fired: seq<string>)
    ensures SortedListOf(fired, Due(m))
    ensures m' == Cleared(m, Due(m))
  {
    fired := DriftWarnings(m);
    m' := m;
    ghost var done: set<string> := {};
    for k := 0 to |fired|
      invariant done == Elements(fired[..k])
      invariant m' == Cleared(m, done)
    {
      assert fired[k] in Elements(fired);
      assert fired[..k + 1] == fired[..k] + [fired[k]];
      done := done + {fired[k]};
      m' := m'[fired[k] := 0];
    }
    assert fired[..|fired|] == fired;
  }

  /** The drift part of the audit, from state file to state file. */
  method AuditDurations(file: StateFile, a: Audit)
    returns (file': StateFile, drift: seq<string>, margin: seq<string>)
    ensures Load(file') == Step(Load(file), a)
    ensures SortedListOf(drift, DriftFired(Load(file), a))
    ensures SortedListOf(margin, MarginFired(Load(file), a))
  {
    var st := Load(file);
    var streaks, marginStreaks := st.streaks, st.margin;
    drift, margin := [], [];
    if IsRetry(st, a) {
      assert Elements<string>([]) == {};
    } else {
      marginStreaks, margin := WarnAndReset(UpdateStreaks(marginStreaks, a.MarginCollapsed()));
      streaks, drift := WarnAndReset(UpdateStreaks(streaks, a.Underregistered()));
    }
    file' := Save(State(a.runId, streaks, marginStreaks));
  }

  // ---------- whole histories ----------

  function Run(st: State, h: seq<Audit>): State {
    if h == [] then st else Step(Run(st, h[..|h| - 1]), h[|h| - 1])
  }

  /** The run id in force after a history. */
  function LastId(first: Option<string>, h: seq<Audit>): Option<string> {
    if h == [] then first else h[|h| - 1].runId
  }

  /** The history without its immediate retries: audits that repeat the run id just before them. */
  function Distinct(first: Option<string>, h: seq<Audit>): seq<Audit> {
    if h == [] then []
    else
      var before, a := h[..|h| - 1], h[|h| - 1];
      if a.runId.Some? && LastId(first, before) == a.runId then Distinct(first, before)
      else Distinct(first, before) + [a]
  }

  lemma {:induction false} RunId(st: State, h: seq<Audit>)
    ensures Run(st, h).runId == LastId(st.runId, h)
  {
    if h != [] { RunId(st, h[..|h| - 1]); }
  }

  /** Immediate retries change nothing: the state is that of the history without them. */
  lemma {:induction false} RetriesAreIdempotent(st: State, h: seq<Audit>)
    ensures Run(st, h) == Run(st, Distinct(st.runId, h))
  {
    if h != [] {
      var before, a := h[..|h| - 1], h[|h| - 1];
      RetriesAreIdempotent(st, before);
      RunId(st, before);
      var d := Distinct(st.runId, before);
      assert (d + [a])[..|d|] == d;
    }
  }

  /** How many audits in a row, up to the end of the history, `f` was in the over set. Only audits
      that are not immediate retries are in the history. */
  function DriftRow(h: seq<Audit>, f: string): nat {
    if h == [] || f !in h[|h| - 1].Underregistered() then 0 else DriftRow(h[..|h| - 1], f) + 1
  }

  function MarginRow(h: seq<Audit>, f: string): nat {
    if h == [] || f !in h[|h| - 1].MarginCollapsed() then 0 else MarginRow(h[..|h| - 1], f) + 1
  }

  /** The counter of a file after `n` over-runs in a row. */
  ghost predicate Counts(m: Streaks, f: string, n: nat) {
    (f in m <==> n > 0) && (n > 0 ==> m[f] == n % 3)
  }

  lemma TickCounts(m: Streaks, over: set<string>, f: string, n: nat)
    requires Counts(m, f, n)
    ensures Counts(Tick(m, over), f, if f in over then n + 1 else 0)
    ensures f in Due(UpdateStreaks(m, over)) <==> f in over && (n + 1) % 3 == 0
  {
  }

  const FRESH: State := State(None, map[], map[])

  lemma {:induction false} StoredStreaks(h: seq<Audit>, f: string)
    requires Distinct(None, h) == h
    ensures Counts(Run(FRESH, h).streaks, f, DriftRow(h, f))
    ensures Counts(Run(FRESH, h).margin, f, MarginRow(h, f))
  {
    if h != [] {
      var before, a := h[..|h| - 1], h[|h| - 1];
      DistinctPrefix(None, h);
      StoredStreaks(before, f);
      RunId(FRESH, before);
      var st := Run(FRESH, before);
      TickCounts(st.streaks, a.Underregistered(), f, DriftRow(before, f));
      TickCounts(st.margin, a.MarginCollapsed(), f, MarginRow(before, f));
    }
  }

  lemma {:induction false} DistinctSize(first: Option<string>, h: seq<Audit>)
    ensures |Distinct(first, h)| <= |h|
    ensures LastId(first, Distinct(first, h)) == LastId(first, h)
    ensures Distinct(first, Distinct(first, h)) == Distinct(first, h)
  {
    if h != [] {
      var before, a := h[..|h| - 1], h[|h| - 1];
      DistinctSize(first, before);
      var d := Distinct(first, before);
      assert (d + [a])[..|d|] == d;
    }
  }

  /** A history that loses nothing has no retry at its end. */
  lemma DistinctPrefix(first: Option<string>, h: seq<Audit>)
    requires h != [] && Distinct(first, h) == h
    ensures var before, a := h[..|h| - 1], h[|h| - 1];
            Distinct(first, before) == before && !(a.runId.Some? && LastId(first, before) == a.runId)
  {
    var before, a := h[..|h| - 1], h[|h| - 1];
    DistinctSize(first, before);
    var d := Distinct(first, before);
    assert |d| == |before| ==> (d + [a])[..|d|] == d;
  }

  /** From an empty state, after any history: a further audit that is not an immediate retry warns
      about a file exactly when its over-runs in a row, this one included and retries left out, are a
      positive multiple of three. A retry warns about nothing. */
  lemma WarnsOnEveryThird(h: seq<Audit>, a: Audit, f: string)
    ensures var st := Run(FRESH, h);
            var counted := Distinct(None, h) + [a];
            if IsRetry(st, a) then DriftFired(st, a) == {} && MarginFired(st, a) == {}
            else
              && (f in DriftFired(st, a) <==> DriftRow(counted, f) > 0 && DriftRow(counted, f) % 3 == 0)
              && (f in MarginFired(st, a) <==> MarginRow(counted, f) > 0 && MarginRow(counted, f) % 3 == 0)
  {
    var d := Distinct(None, h);
    var st := Run(FRESH, h);
    RetriesAreIdempotent(FRESH, h);
    DistinctSize(None, h);
    StoredStreaks(d, f);
    assert (d + [a])[..|d|] == d;
    var n, n' := DriftRow(d, f), MarginRow(d, f);
    TickCounts(st.streaks, a.Underregistered(), f, n);
    TickCounts(st.margin, a.MarginCollapsed(), f, n');
    assert DriftRow(d + [a], f) == if f in a.Underregistered() then n + 1 else 0;
    assert MarginRow(d + [a], f) == if f in a.MarginCollapsed() then n' + 1 else 0;
  }

  /** Inserting a retry anywhere right after its run changes no later state, so no later warning. */
  lemma {:induction false} RetryLeavesNoTrace(st: State, before: seq<Audit>, a: Audit, retry: Audit, after: seq<Audit>)
    requires a.runId.Some? && retry.runId == a.runId
    ensures Run(st, before + [a, retry] + after) == Run(st, before + [a] + after)
  {
    var long, short := before + [a, retry] + after, before + [a] + after;
    if after == [] {
      assert long[..|long| - 1] == before + [a] == short;
      RunId(st, short);
    } else {
      var n := |after| - 1;
      RetryLeavesNoTrace(st, before, a, retry, after[..n]);
      assert long[..|long| - 1] == before + [a, retry] + after[..n];
      assert short[..|short| - 1] == before + [a] + after[..n];
    }
  }
}

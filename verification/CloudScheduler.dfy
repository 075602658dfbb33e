/** Bringing the scheduler's live jobs in line with the definitions in the repository. The scheduler
    service is a map from short job names; `gcloud` create and update are its two commands. */
module CloudScheduler {
  import opened Text
  import opened Sorting

  /** A value of the retry table. */
  datatype Value = Num(n: int) | Txt(s: string)

  datatype DesiredJob = DesiredJob(
    name: string,
    schedule: string,
    timeZone: string,
    uri: string,
    httpMethod: string,
    headers: map<string, string>,
    attemptDeadline: string,
    retry: map<string, Value>)

  /** A job as the service lists it; `rest` stands for every field the definitions do not speak of. */
  datatype LiveJob = LiveJob(
    schedule: Option<string>,
    timeZone: Option<string>,
    uri: Option<string>,
    httpMethod: Option<string>,
    headers: map<string, string>,
    attemptDeadline: Option<string>,
    retryCount: Option<int>,
    minBackoff: Option<string>,
    maxBackoff: Option<string>,
    maxDoublings: Option<int>,
    maxRetryDuration: Option<string>,
    rest: string)

  type Live = map<string, LiveJob>

  const RETRY_KEYS: set<string> :=
    {"max_retry_attempts", "min_backoff", "max_backoff", "max_doublings", "max_retry_duration"}

  function Count(n: Option<int>): Option<Value> { Some(Num(if n.Some? then n.value else 0)) }

  function Duration(d: Option<string>): Option<Value> { if d.Some? then Some(Txt(d.value)) else None }

  /** The retry part of the live view. */
  function RetryView(live: LiveJob, key: string): Option<Value> {
    if key == "max_retry_attempts" then Count(live.retryCount)
    else if key == "min_backoff" then Duration(live.minBackoff)
    else if key == "max_backoff" then Duration(live.maxBackoff)
    else if key == "max_doublings" then Count(live.maxDoublings)
    else if key == "max_retry_duration" then Duration(live.maxRetryDuration)
    else None
  }

  /** A count the service does not list is zero, a duration it does not list is none. */
  lemma UnlistedRetry(live: LiveJob)
    ensures live.retryCount == None ==> RetryView(live, "max_retry_attempts") == Some(Num(0))
    ensures live.maxDoublings == None ==> RetryView(live, "max_doublings") == Some(Num(0))
    ensures live.minBackoff == None ==> RetryView(live, "min_backoff") == None
    ensures live.maxBackoff == None ==> RetryView(live, "max_backoff") == None
    ensures live.maxRetryDuration == None ==> RetryView(live, "max_retry_duration") == None
  {
  }

  /** The live job says everything the definition says, and has no header besides. */
  ghost predicate Conforms(d: DesiredJob, live: LiveJob) {
    && live.schedule == Some(d.schedule) && live.timeZone == Some(d.timeZone)
    && live.uri == Some(d.uri) && live.httpMethod == Some(d.httpMethod)
    && live.attemptDeadline == Some(d.attemptDeadline)
    && live.headers == d.headers
    && forall k :: k in d.retry ==> RetryView(live, k) == Some(d.retry[k])
  }

  /** Any change to a field the definition speaks of shows: a conforming job that is changed there no longer
      conforms, and a change to the rest of the job does not matter. */
  lemma AnyChangeShows(d: DesiredJob, live: LiveJob, text: Option<string>, count: Option<int>,
                       headers: map<string, string>, rest: string)
    requires Conforms(d, live)
    ensures text != live.schedule ==> !Conforms(d, live.(schedule := text))
    ensures text != live.timeZone ==> !Conforms(d, live.(timeZone := text))
    ensures text != live.uri ==> !Conforms(d, live.(uri := text))
    ensures text != live.httpMethod ==> !Conforms(d, live.(httpMethod := text))
    ensures text != live.attemptDeadline ==> !Conforms(d, live.(attemptDeadline := text))
    ensures headers != live.headers ==> !Conforms(d, live.(headers := headers))
    ensures Conforms(d, live.(rest := rest))
    ensures "max_retry_attempts" in d.retry && Listed(count) != Listed(live.retryCount) ==>
              !Conforms(d, live.(retryCount := count))
    ensures "max_doublings" in d.retry && Listed(count) != Listed(live.maxDoublings) ==>
              !Conforms(d, live.(maxDoublings := count))
    ensures "min_backoff" in d.retry && text != live.minBackoff ==> !Conforms(d, live.(minBackoff := text))
    ensures "max_backoff" in d.retry && text != live.maxBackoff ==> !Conforms(d, live.(maxBackoff := text))
    ensures "max_retry_duration" in d.retry && text != live.maxRetryDuration ==>
              !Conforms(d, live.(maxRetryDuration := text))
  {
    forall k | k in d.retry ensures RetryView(live.(rest := rest), k) == Some(d.retry[k]) {
      assert RetryView(live, k) == Some(d.retry[k]);
    }
    RetryShows(d, live, text, count);
  }

  lemma RetryShows(d: DesiredJob, live: LiveJob, text: Option<string>, count: Option<int>)
    requires Conforms(d, live)
    ensures "max_retry_attempts" in d.retry && Listed(count) != Listed(live.retryCount) ==>
              !Conforms(d, live.(retryCount := count))
    ensures "max_doublings" in d.retry && Listed(count) != Listed(live.maxDoublings) ==>
              !Conforms(d, live.(maxDoublings := count))
    ensures "min_backoff" in d.retry && text != live.minBackoff ==> !Conforms(d, live.(minBackoff := text))
    ensures "max_backoff" in d.retry && text != live.maxBackoff ==> !Conforms(d, live.(maxBackoff := text))
    ensures "max_retry_duration" in d.retry && text != live.maxRetryDuration ==>
              !Conforms(d, live.(maxRetryDuration := text))
  {
    forall key: string, other: LiveJob
      ensures key in d.retry && RetryView(other, key) != RetryView(live, key) ==> !Conforms(d, other)
    {
      assert key in d.retry ==> RetryView(live, key) == Some(d.retry[key]);
    }
  }

  /** The count as the service means it. */
  function Listed(count: Option<int>): int {
    match count case Some(n) => n case None => 0
  }

  /** Headers only the live job has. */
  function Extras(d: DesiredJob, live: LiveJob): set<string> { live.headers.Keys - d.headers.Keys }

  method ExtraHeaders(d: DesiredJob, live: LiveJob) returns (names: seq<string>)
    ensures SortedListOf(names, Extras(d, live))
  {
    var todo := live.headers.Keys;
    ghost var all := Extras(d, live);
    names := [];
    while todo != {}
      invariant todo <= live.headers.Keys && NoDuplicates(names) && Elements(names) == all - todo
      decreases |todo|
    {
      var n :| n in todo;
      names := Appended(names, all, todo, n, n !in d.headers);
      todo := todo - {n};
    }
    names := SortedNames(names, all);
  }

  /** The labels of a list of names. */
  ghost function Labels(prefix: string, names: set<string>): set<string> {
    set n | n in names :: prefix + n
  }

  /** Headers the live job lacks or has with another value. */
  ghost function OtherHeaders(d: DesiredJob, live: LiveJob): set<string> {
    set n | n in d.headers && (n in live.headers ==> live.headers[n] != d.headers[n])
  }

  ghost function OtherRetries(d: DesiredJob, live: LiveJob): set<string> {
    set k | k in d.retry && RetryView(live, k) != Some(d.retry[k])
  }

  method DiffHeaders(d: DesiredJob, live: LiveJob) returns (changed: seq<string>)
    ensures changed == [] <==> forall n :: n in d.headers ==> n in live.headers && live.headers[n] == d.headers[n]
    ensures Elements(changed) == Labels("headers.", OtherHeaders(d, live))
  {
    changed := [];
    var todo := d.headers.Keys;
    while todo != {}
      invariant todo <= d.headers.Keys
      invariant changed == [] <==>
                  forall n :: n in d.headers.Keys - todo ==> n in live.headers && live.headers[n] == d.headers[n]
      invariant Elements(changed) == Labels("headers.", OtherHeaders(d, live) - todo)
      decreases |todo|
    {
      var n :| n in todo;
      OneMoreLabel(changed, "headers.", OtherHeaders(d, live), todo, n);
      if n !in live.headers || live.headers[n] != d.headers[n] {
        changed := changed + ["headers." + n];
        assert n in d.headers.Keys - (todo - {n});
      }
      todo := todo - {n};
    }
  }

  lemma OneMoreLabel(changed: seq<string>, prefix: string, all: set<string>, todo: set<string>, n: string)
    requires Elements(changed) == Labels(prefix, all - todo) && n in todo
    ensures n in all ==> Elements(changed + [prefix + n]) == Labels(prefix, all - (todo - {n}))
    ensures n !in all ==> Elements(changed) == Labels(prefix, all - (todo - {n}))
  {
    if n in all {
      assert all - (todo - {n}) == (all - todo) + {n};
      assert Elements(changed + [prefix + n]) == Elements(changed) + {prefix + n};
    } else {
      assert all - (todo - {n}) == all - todo;
    }
  }

  method DiffRetry(d: DesiredJob, live: LiveJob) returns (changed: seq<string>)
    ensures changed == [] <==> forall k :: k in d.retry ==> RetryView(live, k) == Some(d.retry[k])
    ensures Elements(changed) == Labels("retry.", OtherRetries(d, live))
  {
    changed := [];
    var todo := d.retry.Keys;
    while todo != {}
      invariant todo <= d.retry.Keys
      invariant changed == [] <==> forall k :: k in d.retry.Keys - todo ==> RetryView(live, k) == Some(d.retry[k])
      invariant Elements(changed) == Labels("retry.", OtherRetries(d, live) - todo)
      decreases |todo|
    {
      var k :| k in todo;
      OneMoreLabel(changed, "retry.", OtherRetries(d, live), todo, k);
      if RetryView(live, k) != Some(d.retry[k]) {
        changed := changed + ["retry." + k];
        assert k in d.retry.Keys - (todo - {k});
      }
      todo := todo - {k};
    }
  }

  /** The names of the fields in which the live job differs. */
  ghost function Differences(d: DesiredJob, live: LiveJob): set<string> {
    (if live.schedule != Some(d.schedule) then {"schedule"} else {})
    + (if live.timeZone != Some(d.timeZone) then {"time_zone"} else {})
    + (if live.uri != Some(d.uri) then {"uri"} else {})
    + (if live.httpMethod != Some(d.httpMethod) then {"http_method"} else {})
    + (if live.attemptDeadline != Some(d.attemptDeadline) then {"attempt_deadline"} else {})
    + Labels("headers.", OtherHeaders(d, live) + Extras(d, live))
    + Labels("retry.", OtherRetries(d, live))
  }

  /** No difference is reported exactly when the live job conforms; what is reported are the differences. */
  method DiffJob(d: DesiredJob, live: LiveJob) returns (changed: seq<string>)
    ensures changed == [] <==> Conforms(d, live)
    ensures Elements(changed) == Differences(d, live)
  {
    var fields := DiffFields(d, live);
    var headers := DiffHeaders(d, live);
    var extras := ExtraHeaders(d, live);
    var retry := DiffRetry(d, live);
    NoneIffEmpty(extras);
    SameHeaders(d, live);
    changed := fields + headers + Labelled(extras) + retry;
    AllDifferences(d, live, fields, headers, extras, retry);
  }

  lemma AllDifferences(d: DesiredJob, live: LiveJob, fields: seq<string>, headers: seq<string>, extras: seq<string>,
                       retry: seq<string>)
    requires Elements(headers) == Labels("headers.", OtherHeaders(d, live))
    requires Elements(extras) == Extras(d, live) && Elements(retry) == Labels("retry.", OtherRetries(d, live))
    requires Elements(fields) == OtherFields(d, live)
    ensures Elements(fields + headers + Labelled(extras) + retry) == Differences(d, live)
  {
    LabelledIs(extras);
    assert Labels("headers.", OtherHeaders(d, live) + Extras(d, live)) ==
           Labels("headers.", OtherHeaders(d, live)) + Labels("headers.", Extras(d, live));
    assert Elements(fields + headers + Labelled(extras) + retry) ==
           Elements(fields) + Elements(headers) + Elements(Labelled(extras)) + Elements(retry);
  }

  lemma LabelledIs(names: seq<string>)
    ensures Elements(Labelled(names)) == Labels("headers.", Elements(names))
  {
    forall i | 0 <= i < |names| ensures Labelled(names)[i] in Labels("headers.", Elements(names)) {
      assert names[i] in Elements(names);
    }
    forall n | n in Elements(names) ensures "headers." + n in Elements(Labelled(names)) {
      var i :| 0 <= i < |names| && names[i] == n;
      assert Labelled(names)[i] == "headers." + n;
    }
  }

  ghost function OtherFields(d: DesiredJob, live: LiveJob): set<string> {
    (if live.schedule != Some(d.schedule) then {"schedule"} else {})
    + (if live.timeZone != Some(d.timeZone) then {"time_zone"} else {})
    + (if live.uri != Some(d.uri) then {"uri"} else {})
    + (if live.httpMethod != Some(d.httpMethod) then {"http_method"} else {})
    + (if live.attemptDeadline != Some(d.attemptDeadline) then {"attempt_deadline"} else {})
  }

  method DiffFields(d: DesiredJob, live: LiveJob) returns (changed: seq<string>)
    ensures Elements(changed) == OtherFields(d, live)
    ensures changed == [] <==>
            && live.schedule == Some(d.schedule) && live.timeZone == Some(d.timeZone) && live.uri == Some(d.uri)
            && live.httpMethod == Some(d.httpMethod) && live.attemptDeadline == Some(d.attemptDeadline)
  {
    changed := [];
    if live.schedule != Some(d.schedule) { changed := changed + ["schedule"]; }
    if live.timeZone != Some(d.timeZone) { changed := changed + ["time_zone"]; }
    if live.uri != Some(d.uri) { changed := changed + ["uri"]; }
    if live.httpMethod != Some(d.httpMethod) { changed := changed + ["http_method"]; }
    if live.attemptDeadline != Some(d.attemptDeadline) { changed := changed + ["attempt_deadline"]; }
  }

  lemma SameHeaders(d: DesiredJob, live: LiveJob)
    ensures live.headers == d.headers <==>
            (forall n :: n in d.headers ==> n in live.headers && live.headers[n] == d.headers[n])
            && Extras(d, live) == {}
  {
    if (forall n :: n in d.headers ==> n in live.headers && live.headers[n] == d.headers[n]) && Extras(d, live) == {} {
      assert forall n :: n in live.headers ==> n in d.headers || n in Extras(d, live);
      assert live.headers.Keys == d.headers.Keys;
    }
  }

  function Labelled(names: seq<string>): seq<string> {
    seq(|names|, i requires 0 <= i < |names| => "headers." + names[i])
  }

  // ---------- the plan ----------

  datatype Plan = Plan(
    create: seq<DesiredJob>,
    update: seq<DesiredJob>,
    removeHeaders: map<string, seq<string>>,
    same: seq<DesiredJob>)

  ghost predicate Settled(d: DesiredJob, live: Live) { d.name in live && Conforms(d, live[d.name]) }

  /** Create, update and same split the first `n` definitions, in their order. */
  ghost predicate PlanOf(p: Plan, desired: seq<DesiredJob>, live: Live) {
    && multiset(p.create) + multiset(p.update) + multiset(p.same) == multiset(desired)
    && (forall d :: d in p.create ==> d.name !in live)
    && (forall d :: d in p.update ==> d.name in live && !Conforms(d, live[d.name]))
    && (forall d :: d in p.same ==> Settled(d, live))
    && p.removeHeaders.Keys <= NamesOf(p.update)
    && (forall d :: d in p.update ==>
          Elements(if d.name in p.removeHeaders then p.removeHeaders[d.name] else []) == Extras(d, live[d.name]))
  }

  ghost predicate DistinctNames(desired: seq<DesiredJob>) {
    forall i, j :: 0 <= i < j < |desired| ==> desired[i].name != desired[j].name
  }

  function NamesOf(jobs: seq<DesiredJob>): set<string> { set d | d in jobs :: d.name }

  function WithCreate(p: Plan, d: DesiredJob): Plan { p.(create := p.create + [d]) }

  function WithSame(p: Plan, d: DesiredJob): Plan { p.(same := p.same + [d]) }

  function WithUpdate(p: Plan, d: DesiredJob, extras: seq<string>): Plan {
    p.(update := p.update + [d],
       removeHeaders := if extras != [] then p.removeHeaders[d.name := extras] else p.removeHeaders)
  }

  lemma PlanGrows(p: Plan, before: seq<DesiredJob>, live: Live, d: DesiredJob)
    requires PlanOf(p, before, live)
    ensures d.name !in live ==> PlanOf(WithCreate(p, d), before + [d], live)
    ensures Settled(d, live) ==> PlanOf(WithSame(p, d), before + [d], live)
  {
  }

  lemma PlanGrowsByUpdate(p: Plan, before: seq<DesiredJob>, live: Live, d: DesiredJob, extras: seq<string>)
    requires PlanOf(p, before, live) && forall e :: e in before ==> e.name != d.name
    requires d.name in live && !Conforms(d, live[d.name]) && Elements(extras) == Extras(d, live[d.name])
    ensures PlanOf(WithUpdate(p, d, extras), before + [d], live)
  {
    forall e | e in p.update ensures e.name != d.name {
      assert e in multiset(p.create) + multiset(p.update) + multiset(p.same);
    }
    var q := WithUpdate(p, d, extras);
    assert NamesOf(q.update) == NamesOf(p.update) + {d.name};
    assert extras == [] ==> Elements(extras) == {};
  }

  method MakePlan(desired: seq<DesiredJob>, live: Live) returns (p: Plan)
    requires DistinctNames(desired)
    ensures PlanOf(p, desired, live)
  {
    p := Plan([], [], map[], []);
    for i := 0 to |desired|
      invariant PlanOf(p, desired[..i], live)
    {
      assert desired[..i + 1] == desired[..i] + [desired[i]];
      p := PlanJob(p, desired[i], live, desired[..i]);
    }
    assert desired[..|desired|] == desired;
  }

  method PlanJob(p: Plan, d: DesiredJob, live: Live, ghost before: seq<DesiredJob>) returns (p': Plan)
    requires PlanOf(p, before, live) && forall e :: e in before ==> e.name != d.name
    ensures PlanOf(p', before + [d], live)
  {
    if d.name !in live {
      PlanGrows(p, before, live, d);
      return WithCreate(p, d);
    }
    var changed := DiffJob(d, live[d.name]);
    if changed == [] {
      PlanGrows(p, before, live, d);
      return WithSame(p, d);
    }
    var extras := ExtraHeaders(d, live[d.name]);
    PlanGrowsByUpdate(p, before, live, d, extras);
    return WithUpdate(p, d, extras);
  }

  // ---------- applying it ----------

  /** The flags name all five retry values, so a definition without one of them ends in a `KeyError`. */
  predicate HasFlags(d: DesiredJob) { RETRY_KEYS <= d.retry.Keys }

  /** Retry values the service can echo as they are: numbers for the counts, text for the durations. */
  predicate Echoable(d: DesiredJob) {
    && d.retry.Keys == RETRY_KEYS
    && d.retry["max_retry_attempts"].Num? && d.retry["max_doublings"].Num?
    && d.retry["min_backoff"].Txt? && d.retry["max_backoff"].Txt? && d.retry["max_retry_duration"].Txt?
  }

  /** How the service reads a flag that was written from a value of the other kind is up to it. */
  ghost predicate Reads(count: Value -> int, duration: Value -> string) {
    (forall n: int :: count(Num(n)) == n) && (forall s: string :: duration(Txt(s)) == s)
  }

  /** `gcloud scheduler jobs update`: the given fields are set, the given headers merged, the named ones
      removed, everything else stays. Create is the same on an empty job. */
  function Updated(l: LiveJob, d: DesiredJob, remove: set<string>, count: Value -> int,
                   duration: Value -> string): LiveJob
    requires HasFlags(d)
  {
    LiveJob(Some(d.schedule), Some(d.timeZone), Some(d.uri), Some(d.httpMethod),
            (l.headers + d.headers) - remove,
            Some(d.attemptDeadline),
            Some(count(d.retry["max_retry_attempts"])), Some(duration(d.retry["min_backoff"])),
            Some(duration(d.retry["max_backoff"])), Some(count(d.retry["max_doublings"])),
            Some(duration(d.retry["max_retry_duration"])), l.rest)
  }

  const NEW_JOB: LiveJob := LiveJob(None, None, None, None, map[], None, None, None, None, None, None, "")

  /** A command makes the job conform exactly when its retry values can be echoed. */
  lemma CommandSettles(l: LiveJob, d: DesiredJob, count: Value -> int, duration: Value -> string)
    requires HasFlags(d) && Reads(count, duration)
    ensures Conforms(d, Updated(l, d, Extras(d, l), count, duration)) <==> Echoable(d)
  {
    var u := Updated(l, d, Extras(d, l), count, duration);
    assert u.headers == d.headers;
    if Echoable(d) {
      forall k | k in d.retry ensures RetryView(u, k) == Some(d.retry[k]) {
        assert k in RETRY_KEYS;
      }
    }
    if Conforms(d, u) {
      forall k | k in d.retry ensures k in RETRY_KEYS {
        assert RetryView(u, k) == Some(d.retry[k]);
      }
      assert RetryView(u, "max_retry_attempts") == Some(d.retry["max_retry_attempts"]);
      assert RetryView(u, "max_doublings") == Some(d.retry["max_doublings"]);
      assert RetryView(u, "min_backoff") == Some(d.retry["min_backoff"]);
      assert RetryView(u, "max_backoff") == Some(d.retry["max_backoff"]);
      assert RetryView(u, "max_retry_duration") == Some(d.retry["max_retry_duration"]);
    }
  }

  /** What one command turns the job of a definition into. */
  function Target(d: DesiredJob, live: Live, count: Value -> int, duration: Value -> string): LiveJob
    requires HasFlags(d)
  {
    if d.name in live then Updated(live[d.name], d, Extras(d, live[d.name]), count, duration)
    else Updated(NEW_JOB, d, {}, count, duration)
  }

  /** The service after the commands for `jobs`: their targets, and every other job as it was. */
  ghost predicate After(after: Live, live: Live, jobs: seq<DesiredJob>, count: Value -> int, duration: Value -> string)
  {
    && (forall d :: d in jobs ==> HasFlags(d) && d.name in after && after[d.name] == Target(d, live, count, duration))
    && (forall n :: n !in NamesOf(jobs) ==> (n in after <==> n in live) && (n in live ==> after[n] == live[n]))
  }

  function RemoveFor(remove: map<string, seq<string>>, name: string): seq<string> {
    if name in remove then remove[name] else []
  }

  /** Send the commands one by one; `ok` is false when one of them could not even be written. */
  method Send(jobs: seq<DesiredJob>, remove: map<string, seq<string>>, live: Live, count: Value -> int,
              duration: Value -> string)
    returns (ok: bool, after: Live, sent: nat)
    requires DistinctNames(jobs)
    requires forall d :: d in jobs && d.name in live ==> Elements(RemoveFor(remove, d.name)) == Extras(d, live[d.name])
    ensures ok <==> forall d :: d in jobs ==> HasFlags(d)
    ensures sent <= |jobs| && (ok ==> sent == |jobs|)
    ensures After(after, live, jobs[..sent], count, duration)
  {
    after, sent := live, 0;
    while sent < |jobs|
      invariant sent <= |jobs| && After(after, live, jobs[..sent], count, duration)
    {
      var d := jobs[sent];
      if !HasFlags(d) {
        return false, after, sent;
      }
      NextJob(jobs, sent, sent + 1);
      after := Command(after, live, jobs[..sent], d, RemoveFor(remove, d.name), count, duration);
      sent := sent + 1;
    }
    ok := true;
    assert jobs[..|jobs|] == jobs;
  }

  lemma NextJob(jobs: seq<DesiredJob>, n: nat, next: nat)
    requires DistinctNames(jobs) && n < |jobs| && next == n + 1
    ensures jobs[..next] == jobs[..n] + [jobs[n]] && jobs[n] in jobs
    ensures forall e :: e in jobs[..n] ==> e.name != jobs[n].name
  {
  }

  /** Create or update one job. */
  function Command(after: Live, ghost live: Live, ghost before: seq<DesiredJob>, d: DesiredJob, remove: seq<string>,
                   count: Value -> int, duration: Value -> string): (next: Live)
    requires After(after, live, before, count, duration) && HasFlags(d) && forall e :: e in before ==> e.name != d.name
    requires d.name in live ==> Elements(remove) == Extras(d, live[d.name])
    ensures After(next, live, before + [d], count, duration)
  {
    var removed := set n | n in remove;
    assert removed == Elements(remove);
    var job :=
      if d.name in after then Updated(after[d.name], d, removed, count, duration)
      else Updated(NEW_JOB, d, {}, count, duration);
    assert d.name !in NamesOf(before);
    OneMoreCommand(after, live, before, d, job, count, duration);
    after[d.name := job]
  }

  lemma OneMoreCommand(after: Live, live: Live, before: seq<DesiredJob>, d: DesiredJob, job: LiveJob,
                       count: Value -> int, duration: Value -> string)
    requires After(after, live, before, count, duration) && d.name !in NamesOf(before) && HasFlags(d)
    requires job == Target(d, live, count, duration)
    ensures After(after[d.name := job], live, before + [d], count, duration)
  {
    var jobs, next := before + [d], after[d.name := job];
    NamesGrow(before, d);
    forall e | e in jobs ensures HasFlags(e) && e.name in next && next[e.name] == Target(e, live, count, duration) {
      if e in before { assert e.name in NamesOf(before); }
    }
  }

  lemma NamesGrow(jobs: seq<DesiredJob>, d: DesiredJob)
    ensures NamesOf(jobs + [d]) == NamesOf(jobs) + {d.name}
  {
    assert d in jobs + [d];
  }

  lemma SubPlanHasDistinctNames(desired: seq<DesiredJob>, jobs: seq<DesiredJob>)
    requires DistinctNames(desired) && multiset(jobs) <= multiset(desired)
    ensures DistinctNames(jobs)
  {
    forall i, j | 0 <= i < j < |jobs| ensures jobs[i].name != jobs[j].name {
      var x, y := jobs[i], jobs[j];
      assert x in multiset(jobs) && y in multiset(jobs);
      assert x in multiset(desired) && y in multiset(desired);
      var k :| 0 <= k < |desired| && desired[k] == x;
      var l :| 0 <= l < |desired| && desired[l] == y;
      DistinctMultiplicity(desired, x);
      MultisetWithout(jobs, j);
      assert Without(jobs, j)[i] == x && x in multiset(Without(jobs, j));
      assert x == y ==> multiset(jobs)[x] >= 2;
      assert x.name == y.name ==> k == l;
    }
  }

  /** What the run has to change. */
  ghost function Unsettled(desired: seq<DesiredJob>, live: Live): set<DesiredJob> {
    set d | d in desired && !Settled(d, live)
  }

  lemma PlannedAreUnsettled(p: Plan, desired: seq<DesiredJob>, live: Live)
    requires PlanOf(p, desired, live) && DistinctNames(desired)
    ensures DistinctNames(p.create + p.update)
    ensures Elements(p.create + p.update) == Unsettled(desired, live)
    ensures |p.create + p.update| == |Unsettled(desired, live)|
  {
    var jobs := p.create + p.update;
    assert multiset(jobs) == multiset(p.create) + multiset(p.update);
    SubPlanHasDistinctNames(desired, jobs);
    forall d ensures d in jobs <==> d in desired && !Settled(d, live) {
      assert d in multiset(desired) <==> d in p.create || d in p.update || d in p.same;
      assert d in desired <==> d in multiset(desired);
    }
    assert NoDuplicates(jobs);
    DistinctCount(jobs);
  }

  /** One run of the tool over any live state. It ends well exactly when every definition already
      conforms or has retry values the service can echo; then every definition conforms, and as many
      commands were issued as did not conform before. In every case, also a failing one, jobs outside the
      definitions and jobs that conform keep all their fields, and no job is removed. */
  method Reconcile(desired: seq<DesiredJob>, live: Live, apply: bool, count: Value -> int, duration: Value -> string)
    returns (exit: int, after: Live, commands: nat)
    requires DistinctNames(desired) && Reads(count, duration)
    ensures exit == 0 || exit == 1
    ensures !apply ==> exit == 0 && after == live && commands == 0
    ensures exists jobs: seq<DesiredJob> :: |jobs| == commands && Elements(jobs) <= Unsettled(desired, live)
                                            && After(after, live, jobs, count, duration)
    ensures apply ==> (exit == 0 <==> forall d :: d in Unsettled(desired, live) ==> Echoable(d))
    ensures apply && exit == 0 ==> Unsettled(desired, after) == {} && commands == |Unsettled(desired, live)|
    ensures commands == 0 ==> after == live
    ensures after.Keys <= live.Keys + NamesOf(desired) && live.Keys <= after.Keys
    ensures forall n :: n in live && n !in NamesOf(desired) ==> after[n] == live[n]
    ensures forall d :: d in desired && Settled(d, live) ==> after[d.name] == live[d.name]
    ensures forall n :: n in live ==> after[n].rest == live[n].rest
  {
    var p := MakePlan(desired, live);
    if !apply {
      return 0, live, 0;
    }
    var jobs := p.create + p.update;
    PlannedAreUnsettled(p, desired, live);
    forall d | d in jobs && d.name in live
      ensures Elements(RemoveFor(p.removeHeaders, d.name)) == Extras(d, live[d.name])
    {
      assert d in p.update;
    }
    var ok;
    ok, after, commands := Send(jobs, p.removeHeaders, live, count, duration);
    KeptOutside(after, live, desired, jobs[..commands], count, duration);
    if !ok {
      assert forall d :: d in jobs <==> d in Elements(jobs);
      return 1, after, commands;
    }
    assert jobs[..commands] == jobs;
    var residual := MakePlan(desired, after);
    PlannedAreUnsettled(residual, desired, after);
    ResidualIff(after, live, desired, jobs, count, duration);
    NoneIffEmpty(residual.create + residual.update);
    exit := if residual.create != [] || residual.update != [] then 1 else 0;
  }

  lemma KeptOutside(after: Live, live: Live, desired: seq<DesiredJob>, jobs: seq<DesiredJob>, count: Value -> int,
                    duration: Value -> string)
    requires DistinctNames(desired) && After(after, live, jobs, count, duration)
    requires forall d :: d in jobs ==> d in Unsettled(desired, live)
    ensures after.Keys <= live.Keys + NamesOf(desired) && live.Keys <= after.Keys
    ensures forall n :: n in live && n !in NamesOf(desired) ==> after[n] == live[n]
    ensures forall d :: d in desired && Settled(d, live) ==> after[d.name] == live[d.name]
    ensures forall n :: n in live ==> after[n].rest == live[n].rest
    ensures jobs == [] ==> after == live
  {
    assert NamesOf(jobs) <= NamesOf(desired);
    forall d | d in desired && Settled(d, live) ensures d.name !in NamesOf(jobs) {
      assert forall e :: e in jobs ==> e in desired && !Settled(e, live);
      assert forall e :: e in jobs && e.name == d.name ==> e == d;
    }
    assert jobs == [] ==> after.Keys == live.Keys;
  }

  lemma ResidualIff(after: Live, live: Live, desired: seq<DesiredJob>, jobs: seq<DesiredJob>, count: Value -> int,
                    duration: Value -> string)
    requires DistinctNames(desired) && Reads(count, duration) && After(after, live, jobs, count, duration)
    requires Elements(jobs) == Unsettled(desired, live)
    ensures Unsettled(desired, after) == {} <==> forall d :: d in Unsettled(desired, live) ==> Echoable(d)
  {
    forall d | d in desired ensures d in Unsettled(desired, after) <==> d in Unsettled(desired, live) && !Echoable(d) {
      if d in Unsettled(desired, live) {
        assert d in Elements(jobs);
        TargetSettles(d, live, count, duration);
      } else {
        assert forall e :: e in jobs ==> e in Elements(jobs);
        KeptOutside(after, live, desired, jobs, count, duration);
      }
    }
  }

  lemma TargetSettles(d: DesiredJob, live: Live, count: Value -> int, duration: Value -> string)
    requires HasFlags(d) && Reads(count, duration)
    ensures Conforms(d, Target(d, live, count, duration)) <==> Echoable(d)
  {
    if d.name in live {
      CommandSettles(live[d.name], d, count, duration);
    } else {
      CommandSettles(NEW_JOB, d, count, duration);
    }
  }

  /** After a run that ended well, running again issues no command and changes nothing. */
  method ApplyTwice(desired: seq<DesiredJob>, live: Live, count: Value -> int, duration: Value -> string)
    returns (first: int, second: int, commands: nat, once: Live, twice: Live)
    requires DistinctNames(desired) && Reads(count, duration)
    ensures first == 0 ==> second == 0 && commands == 0 && twice == once
  {
    var sent;
    first, once, sent := Reconcile(desired, live, true, count, duration);
    second, twice, commands := Reconcile(desired, once, true, count, duration);
  }

  /** A definition whose retry count is text: the service echoes a number, so no live job conforms. */
  function TextCount(name: string): DesiredJob {
    DesiredJob(name, "0 * * * *", "UTC", "https://host/job", "POST", map[], "30s",
      map["max_retry_attempts" := Txt("3"), "min_backoff" := Txt("5s"), "max_backoff" := Txt("60s"),
          "max_doublings" := Num(2), "max_retry_duration" := Txt("0s")])
  }

  lemma TextCountNeverConforms(name: string, live: LiveJob)
    ensures HasFlags(TextCount(name)) && !Conforms(TextCount(name), live)
  {
    var d := TextCount(name);
    assert "max_retry_attempts" in d.retry && d.retry["max_retry_attempts"] == Txt("3");
    assert RetryView(live, "max_retry_attempts") != Some(Txt("3"));
  }

  /** With it every run fails, from any live state and as often as it is repeated. */
  method TextCountNeverConverges(name: string, live: Live, count: Value -> int, duration: Value -> string)
    returns (first: int, second: int)
    requires Reads(count, duration)
    ensures first != 0 && second != 0
  {
    var d := TextCount(name);
    var after, sent;
    first, after, sent := RunTextCount(name, live, count, duration);
    second, after, sent := RunTextCount(name, after, count, duration);
  }

  method RunTextCount(name: string, live: Live, count: Value -> int, duration: Value -> string)
    returns (exit: int, after: Live, sent: nat)
    requires Reads(count, duration)
    ensures exit != 0
  {
    var d := TextCount(name);
    exit, after, sent := Reconcile([d], live, true, count, duration);
    if name in live { TextCountNeverConforms(name, live[name]); }
    assert d in Unsettled([d], live) && !Echoable(d);
  }

  // ---------- the definitions ----------

  datatype Override = Override(
    schedule: Option<string>,
    timeZone: Option<string>,
    attemptDeadline: Option<string>,
    httpMethod: Option<string>,
    headers: Option<map<string, string>>,
    retry: Option<map<string, Value>>,
    otherKeys: set<string>)

  datatype ManifestJob = ManifestJob(
    name: string,
    schedule: string,
    timeZone: string,
    route: string,
    httpMethod: string,
    headers: map<string, string>,
    attemptDeadline: Option<string>,
    retry: map<string, Value>,
    override: Override)

  datatype Manifest = Manifest(
    headers: map<string, string>,
    attemptDeadline: string,
    retry: map<string, Value>,
    routePrefix: string,
    jobs: seq<ManifestJob>)

  const AUTH_HEADER := "Authorization"

  function Or<T>(o: Option<T>, v: T): T { if o.Some? then o.value else v }

  function StripSlashes(url: string): string {
    if url != "" && url[|url| - 1] == '/' then StripSlashes(url[..|url| - 1]) else url
  }

  /** One definition for an environment: overrides replace, headers and retry values then go over the
      defaults, and the bearer goes over everything. */
  function Desired(m: Manifest, j: ManifestJob, env: string, bearer: string, baseUrl: string): DesiredJob {
    var o := j.override;
    DesiredJob(
      j.name + "-" + env,
      Or(o.schedule, j.schedule),
      Or(o.timeZone, j.timeZone),
      StripSlashes(baseUrl) + m.routePrefix + j.route,
      Or(o.httpMethod, j.httpMethod),
      (m.headers + Or(o.headers, j.headers))[AUTH_HEADER := "Bearer " + bearer],
      Or(o.attemptDeadline, Or(j.attemptDeadline, m.attemptDeadline)),
      m.retry + Or(o.retry, j.retry))
  }

  /** A value over another, over a default: the first that is there. */
  ghost predicate Layered<T>(value: Option<T>, first: Option<T>, second: Option<T>, third: Option<T>) {
    || (first != None && value == first)
    || (first == None && second != None && value == second)
    || (first == None && second == None && value == third)
  }

  function At<T>(m: map<string, T>, key: string): Option<T> {
    if key in m then Some(m[key]) else None
  }

  /** The header, retry and deadline tables of an override replace the job's own as a whole. */
  ghost function OwnTable<T>(over: Option<map<string, T>>, own: map<string, T>): map<string, T> {
    match over case Some(m) => m case None => own
  }

  /** What the definition says, field by field: what the environment overrides, else what the job says, else the
      default. Header by header and retry value by retry value, what the job or its override says goes before
      the default; the bearer goes before all. */
  lemma DesiredSays(m: Manifest, j: ManifestJob, env: string, bearer: string, baseUrl: string)
    ensures var d, o := Desired(m, j, env, bearer, baseUrl), j.override;
            && d.name == j.name + "-" + env
            && Layered(Some(d.schedule), o.schedule, Some(j.schedule), None)
            && Layered(Some(d.timeZone), o.timeZone, Some(j.timeZone), None)
            && Layered(Some(d.httpMethod), o.httpMethod, Some(j.httpMethod), None)
            && Layered(Some(d.attemptDeadline), o.attemptDeadline, j.attemptDeadline, Some(m.attemptDeadline))
    ensures var d, o := Desired(m, j, env, bearer, baseUrl), j.override;
            && At(d.headers, "Authorization") == Some("Bearer " + bearer)
            && (forall n :: n != "Authorization" ==>
                  Layered(At(d.headers, n), At(OwnTable(o.headers, j.headers), n), At(m.headers, n), None))
            && (forall k :: Layered(At(d.retry, k), At(OwnTable(o.retry, j.retry), k), At(m.retry, k), None))
  {
  }

  /** The address is the base without its trailing slashes, the prefix, and the route. */
  lemma DesiredUri(m: Manifest, j: ManifestJob, env: string, bearer: string, baseUrl: string)
    returns (base: string, slashes: string)
    ensures Desired(m, j, env, bearer, baseUrl).uri == base + m.routePrefix + j.route && baseUrl == base + slashes
    ensures (forall c :: c in slashes ==> c == '/') && (base != "" ==> base[|base| - 1] != '/')
  {
    base := StripSlashes(baseUrl);
    slashes := StrippedSlashes(baseUrl);
  }

  lemma {:induction false} StrippedSlashes(url: string) returns (slashes: string)
    ensures url == StripSlashes(url) + slashes && forall c :: c in slashes ==> c == '/'
    ensures StripSlashes(url) != "" ==> StripSlashes(url)[|StripSlashes(url)| - 1] != '/'
  {
    if url != "" && url[|url| - 1] == '/' {
      var rest := StrippedSlashes(url[..|url| - 1]);
      slashes := rest + "/";
      assert url == url[..|url| - 1] + "/";
    } else {
      slashes := "";
    }
  }

  /** Whether this environment has the job; `None` names no list and means all. */
  predicate Wanted(only: Option<set<string>>, j: ManifestJob) { only == None || j.name in only.value }

  /** `None` is the `ValueError`: no bearer, a listed job that is not defined, or an override of
      something that may not be overridden. */
  method DesiredJobs(m: Manifest, only: Option<set<string>>, env: string, bearer: string, baseUrl: string)
    returns (r: Option<seq<DesiredJob>>)
    ensures r == None <==>
      || bearer == ""
      || (only.Some? && exists n :: n in only.value && forall j :: j in m.jobs ==> j.name != n)
      || (exists j :: j in m.jobs && (only == None || j.name in only.value) && j.override.otherKeys != {})
    ensures r.Some? ==>
      && (forall d :: d in r.value <==>
            exists j :: j in m.jobs && (only == None || j.name in only.value)
                        && d == Desired(m, j, env, bearer, baseUrl))
      && (forall d :: d in r.value ==> AUTH_HEADER in d.headers && d.headers[AUTH_HEADER] == "Bearer " + bearer)
      && ((forall i, j :: 0 <= i < j < |m.jobs| ==> m.jobs[i].name != m.jobs[j].name) ==> DistinctNames(r.value))
  {
    if bearer == "" {
      return None;
    }
    if only.Some? {
      var unknown := only.value - set j | j in m.jobs :: j.name;
      UnknownIff(only.value, m.jobs, unknown);
      if unknown != {} {
        return None;
      }
    }
    var out: seq<DesiredJob> := [];
    ghost var from: seq<nat> := [];
    for k := 0 to |m.jobs|
      invariant forall j :: j in m.jobs[..k] && Wanted(only, j) ==> j.override.otherKeys == {}
      invariant forall d :: d in out <==>
                  exists j :: j in m.jobs[..k] && Wanted(only, j) && d == Desired(m, j, env, bearer, baseUrl)
      invariant |from| == |out|
      invariant forall i :: 0 <= i < |out| ==> from[i] < k && out[i].name == m.jobs[from[i]].name + "-" + env
      invariant forall i, j :: 0 <= i < j < |out| ==> from[i] < from[j]
    {
      var j := m.jobs[k];
      assert m.jobs[..k + 1] == m.jobs[..k] + [j];
      if !Wanted(only, j) {
        continue;
      }
      if j.override.otherKeys != {} {
        assert j in m.jobs;
        return None;
      }
      out := out + [Desired(m, j, env, bearer, baseUrl)];
      from := from + [k];
    }
    assert m.jobs[..|m.jobs|] == m.jobs;
    NamesStayDistinct(m.jobs, out, from, env);
    r := Some(out);
  }

  lemma UnknownIff(names: set<string>, jobs: seq<ManifestJob>, unknown: set<string>)
    requires unknown == names - set j | j in jobs :: j.name
    ensures unknown != {} <==> exists n :: n in names && forall j :: j in jobs ==> j.name != n
  {
    assert forall n :: n in names && (forall j :: j in jobs ==> j.name != n) ==> n in unknown;
    if unknown != {} {
      var n :| n in unknown;
      assert n in names && forall j :: j in jobs ==> j.name != n;
    }
  }

  lemma NamesStayDistinct(jobs: seq<ManifestJob>, out: seq<DesiredJob>, from: seq<nat>, env: string)
    requires |from| == |out|
    requires forall i :: 0 <= i < |out| ==> from[i] < |jobs| && out[i].name == jobs[from[i]].name + "-" + env
    requires forall i, j :: 0 <= i < j < |out| ==> from[i] < from[j]
    ensures (forall i, j :: 0 <= i < j < |jobs| ==> jobs[i].name != jobs[j].name) ==> DistinctNames(out)
  {
    forall i, j | 0 <= i < j < |out| && jobs[from[i]].name != jobs[from[j]].name ensures out[i].name != out[j].name {
      SameSuffix(jobs[from[i]].name, jobs[from[j]].name, "-" + env);
      assert out[i].name == jobs[from[i]].name + ("-" + env);
      assert out[j].name == jobs[from[j]].name + ("-" + env);
    }
  }

  lemma SameSuffix(a: string, b: string, suffix: string)
    ensures a + suffix == b + suffix ==> a == b
  {
    if a + suffix == b + suffix {
      assert |a| == |b|;
      assert a == (a + suffix)[..|a|] && b == (b + suffix)[..|b|];
    }
  }
}

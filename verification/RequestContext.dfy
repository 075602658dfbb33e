/** The member, organisation and project a tool call sees at the HTTP server: context variables set and
    restored around each request, a cache of contexts by key shared by all of them, and the fields of the
    one client object. */
module RequestContext {
  import opened Text

  /** The part of `/auth/me` that is kept. A field that is absent there is empty. */
  datatype Ctx = Ctx(member: string, org: string, project: string)

  /** The context variables of one asynchronous context. */
  datatype Vars = Vars(key: Option<string>, project: Option<string>)

  const UNSET: Vars := Vars(None, None)

  /** Where a request is: waiting for `/auth/me`, inside the application, or inside a tool call, which
      remembers the project variable it has to restore. */
  datatype Phase = Resolving | Serving(resolved: bool) | InTool(wasResolved: bool, before: Option<string>)

  /** A request in flight: its bearer key, the variables to restore, and its phase. */
  datatype Request = Request(key: string, token: Vars, phase: Phase)

  /** What the backend said: `/auth/me` answers and confirmed defaults, with the key of the request
      they were sent to. */
  datatype Said = Me(key: string, ctx: Ctx) | Default(ofKey: string, project: string)

  datatype State = State(
    fields: Ctx,
    cache: map<string, Ctx>,
    contexts: map<nat, Vars>,
    flights: map<nat, Request>,
    said: seq<Said>)

  const START: State := State(Ctx("", "", ""), map[], map[], map[], [])

  /** Everything that can happen between two awaits, for the request on asynchronous context `t`.
      `None` is a failed backend call. */
  datatype Action =
    | Open(t: nat, key: string, header: Option<string>)
    | Answer(t: nat, ctx: Option<Ctx>)
    | Call(t: nat, argument: Option<string>)
    | SetDefault(t: nat, project: Option<string>)
    | Return(t: nat)
    | Close(t: nat)

  function OrNone(p: Option<string>): Option<string> { if p == Some("") then None else p }

  function VarsOf(s: State, t: nat): Vars { if t in s.contexts then s.contexts[t] else UNSET }

  /** The key requests are sent with; the fallback is the placeholder of the HTTP mode. */
  function EffectiveKey(v: Vars, fallback: string): string {
    if v.key.Some? && v.key.value != "" then v.key.value else fallback
  }

  function Cached(s: State, key: string): Ctx {
    if key in s.cache then s.cache[key] else Ctx("", "", "")
  }

  function FirstNonEmpty(a: string, b: string): string { if a != "" then a else b }

  // ---------- what a tool reads ----------

  function MemberRead(s: State, t: nat, fallback: string): string {
    FirstNonEmpty(s.fields.member, Cached(s, EffectiveKey(VarsOf(s, t), fallback)).member)
  }

  function OrgRead(s: State, t: nat, fallback: string): string {
    FirstNonEmpty(s.fields.org, Cached(s, EffectiveKey(VarsOf(s, t), fallback)).org)
  }

  function ProjectRead(s: State, t: nat, fallback: string): string {
    var v := VarsOf(s, t);
    if v.project.Some? && v.project.value != "" then v.project.value
    else FirstNonEmpty(s.fields.project, Cached(s, EffectiveKey(v, fallback)).project)
  }

  // ---------- steps ----------

  function Step(s: State, a: Action, fallback: string): State {
    match a
    case Open(t, key, header) =>
      if key == "" || t in s.flights then s
      else
        var phase := if key in s.cache then Serving(true) else Resolving;
        s.(contexts := s.contexts[t := Vars(Some(key), OrNone(header))],
           flights := s.flights[t := Request(key, VarsOf(s, t), phase)])
    case Answer(t, ctx) =>
      if t !in s.flights || s.flights[t].phase != Resolving then s
      else
        var r := s.flights[t];
        var sent := EffectiveKey(VarsOf(s, t), fallback);
        (match ctx
         case None => s.(flights := s.flights[t := r.(phase := Serving(false))])
         case Some(c) => s.(cache := s.cache[r.key := c],
                            flights := s.flights[t := r.(phase := Serving(true))],
                            said := s.said + [Me(sent, c)]))
    case Call(t, argument) =>
      if t !in s.flights || !s.flights[t].phase.Serving? then s
      else
        var v := VarsOf(s, t);
        s.(contexts := s.contexts[t := v.(project := OrNone(argument))],
           flights := s.flights[t := s.flights[t].(phase := InTool(s.flights[t].phase.resolved, v.project))])
    case SetDefault(t, project) =>
      if t !in s.flights || !s.flights[t].phase.InTool? || project == None || project.value == "" then s
      else
        var sent := EffectiveKey(VarsOf(s, t), fallback);
        s.(fields := s.fields.(project := project.value),
           cache := if sent in s.cache then s.cache[sent := s.cache[sent].(project := project.value)] else s.cache,
           said := s.said + [Default(sent, project.value)])
    case Return(t) =>
      if t !in s.flights || !s.flights[t].phase.InTool? then s
      else
        var r := s.flights[t];
        s.(contexts := s.contexts[t := VarsOf(s, t).(project := r.phase.before)],
           flights := s.flights[t := r.(phase := Serving(r.phase.wasResolved))])
    case Close(t) =>
      if t !in s.flights || s.flights[t].phase.InTool? then s
      else s.(contexts := s.contexts[t := s.flights[t].token], flights := s.flights - {t})
  }

  function Run(h: seq<Action>, fallback: string): State {
    if h == [] then START else Step(Run(h[..|h| - 1], fallback), h[|h| - 1], fallback)
  }

  // ---------- the client and its middleware, step by step ----------

  class Client {
    var memberId: string
    var orgId: string
    var projectId: string
    const apiKey: string
    var cache: map<string, Ctx>
    var contexts: map<nat, Vars>
    var flights: map<nat, Request>
    ghost var said: seq<Said>
    /** Everything that happened so far, for the specification only. */
    ghost var history: seq<Action>

    ghost function View(): State reads this {
      State(Ctx(memberId, orgId, projectId), cache, contexts, flights, said)
    }

    ghost predicate Valid() reads this {
      View() == Run(history, apiKey)
    }

    constructor (apiKey: string)
      ensures Valid() && history == [] && this.apiKey == apiKey
    {
      memberId, orgId, projectId, this.apiKey := "", "", "", apiKey;
      cache, contexts, flights, said, history := map[], map[], map[], [], [];
    }

    function VarsAt(t: nat): Vars reads this { if t in contexts then contexts[t] else UNSET }

    function Key(t: nat): string reads this {
      var v := VarsAt(t);
      if v.key.Some? && v.key.value != "" then v.key.value else apiKey
    }

    /** `_effective_ctx`. */
    function Effective(t: nat): Ctx reads this {
      if Key(t) in cache then cache[Key(t)] else Ctx("", "", "")
    }

    /** What the backend said in an answer to this request's own key; empty when its context could not be
        resolved. */
    function MemberId(t: nat): (r: string)
      reads this
      requires Valid() && t in flights
      ensures if flights[t].key in cache then exists o: string, p: string :: Me(flights[t].key, Ctx(r, o, p)) in said
              else r == "" && flights[t].phase != Serving(true)
    {
      ReadsOwnIdentity(history, apiKey, t);
      if memberId != "" then memberId else Effective(t).member
    }

    function OrgId(t: nat): (r: string)
      reads this
      requires Valid() && t in flights
      ensures if flights[t].key in cache then exists m: string, p: string :: Me(flights[t].key, Ctx(m, r, p)) in said
              else r == "" && flights[t].phase != Serving(true)
    {
      ReadsOwnIdentity(history, apiKey, t);
      if orgId != "" then orgId else Effective(t).org
    }

    /** The project the call names. Without one, what the backend said to this request's own key, in an
        answer or as a confirmed default, or empty when there is neither, exactly when the shared field is
        empty or agrees. That field is the default saved last, by whichever key. */
    function ProjectId(t: nat): (r: string)
      reads this
      requires Valid() && t in flights
      ensures var named, key := OrNone(VarsAt(t).project), flights[t].key;
              var own := if key in cache then cache[key].project else "";
              && (named.Some? ==> r == named.value)
              && (named == None ==> (r == own <==> projectId == "" || projectId == own))
              && projectId == LastDefault(said)
              && (key in cache ==>
                    || Default(key, own) in said
                    || exists m: string, o: string :: Me(key, Ctx(m, o, own)) in said)
    {
      EveryRunIsSound(history, apiKey);
      assert Bracketed(View(), t);
      assert flights[t].key in cache ==> OwnContext(said, flights[t].key, cache[flights[t].key]);
      var v := VarsAt(t);
      if v.project.Some? && v.project.value != "" then v.project.value
      else if projectId != "" then projectId
      else Effective(t).project
    }

    /** The middleware up to the first await: no key, no request. */
    method OpenRequest(t: nat, key: string, header: Option<string>)
      requires t !in flights
      requires Valid()
      modifies this
      ensures View() == Step(old(View()), Open(t, key, header), apiKey)
      ensures Valid() && history == old(history) + [Open(t, key, header)]
    {
      history := history + [Open(t, key, header)];
      assert history[..|history| - 1] == old(history);
      if key == "" {
        return;
      }
      var token := VarsAt(t);
      contexts := contexts[t := Vars(Some(key), if header == Some("") then None else header)];
      if key in cache {
        flights := flights[t := Request(key, token, Serving(true))];
      } else {
        flights := flights[t := Request(key, token, Resolving)];
      }
    }

    /** `/auth/me` answered, or failed, which is not fatal. */
    method ContextAnswered(t: nat, ctx: Option<Ctx>)
      requires t in flights && flights[t].phase == Resolving
      requires Valid()
      modifies this
      ensures View() == Step(old(View()), Answer(t, ctx), apiKey)
      ensures Valid() && history == old(history) + [Answer(t, ctx)]
    {
      history := history + [Answer(t, ctx)];
      assert history[..|history| - 1] == old(history);
      var r := flights[t];
      if ctx.Some? {
        said := said + [Me(Key(t), ctx.value)];
        cache := cache[r.key := ctx.value];
        flights := flights[t := r.(phase := Serving(true))];
      } else {
        flights := flights[t := r.(phase := Serving(false))];
      }
    }

    method CallTool(t: nat, argument: Option<string>)
      requires t in flights && flights[t].phase.Serving?
      requires Valid()
      modifies this
      ensures View() == Step(old(View()), Call(t, argument), apiKey)
      ensures Valid() && history == old(history) + [Call(t, argument)]
    {
      history := history + [Call(t, argument)];
      assert history[..|history| - 1] == old(history);
      var v, r := VarsAt(t), flights[t];
      contexts := contexts[t := v.(project := if argument == Some("") then None else argument)];
      flights := flights[t := r.(phase := InTool(r.phase.resolved, v.project))];
    }

    /** The end of the tool that saves a default project. */
    method DefaultSaved(t: nat, project: Option<string>)
      requires t in flights && flights[t].phase.InTool?
      requires Valid()
      modifies this
      ensures View() == Step(old(View()), SetDefault(t, project), apiKey)
      ensures Valid() && history == old(history) + [SetDefault(t, project)]
    {
      history := history + [SetDefault(t, project)];
      assert history[..|history| - 1] == old(history);
      if project.Some? && project.value != "" {
        projectId := project.value;
        var key := Key(t);
        if key in cache {
          cache := cache[key := cache[key].(project := project.value)];
        }
        said := said + [Default(key, project.value)];
      }
    }

    method ToolReturned(t: nat)
      requires t in flights && flights[t].phase.InTool?
      requires Valid()
      modifies this
      ensures View() == Step(old(View()), Return(t), apiKey)
      ensures Valid() && history == old(history) + [Return(t)]
    {
      history := history + [Return(t)];
      assert history[..|history| - 1] == old(history);
      var r := flights[t];
      contexts := contexts[t := VarsAt(t).(project := r.phase.before)];
      flights := flights[t := r.(phase := Serving(r.phase.wasResolved))];
    }

    /** The `finally` of the middleware. */
    method CloseRequest(t: nat)
      requires t in flights && !flights[t].phase.InTool?
      requires Valid()
      modifies this
      ensures View() == Step(old(View()), Close(t), apiKey)
      ensures Valid() && history == old(history) + [Close(t)]
    {
      history := history + [Close(t)];
      assert history[..|history| - 1] == old(history);
      contexts := contexts[t := flights[t].token];
      flights := flights - {t};
    }
  }

  // ---------- what every interleaving keeps ----------

  /** The backend gave member and organisation to key `k`, and the project to it too, in an answer or as
      a confirmed default. */
  ghost predicate OwnContext(said: seq<Said>, k: string, c: Ctx) {
    && (exists p: string :: Me(k, Ctx(c.member, c.org, p)) in said)
    && ((exists m: string, o: string :: Me(k, Ctx(m, o, c.project)) in said) || Default(k, c.project) in said)
  }

  function LastDefault(said: seq<Said>): string {
    if said == [] then ""
    else if said[|said| - 1].Default? then said[|said| - 1].project
    else LastDefault(said[..|said| - 1])
  }

  /** The bracket around a request: while it is in flight its key variable holds its own key, and the
      variables it found are unset; otherwise nothing is set. */
  ghost predicate Bracketed(s: State, t: nat) {
    if t in s.flights then
      var r := s.flights[t];
      && r.key != "" && r.token == UNSET && VarsOf(s, t).key == Some(r.key)
      && (r.phase.Serving? && r.phase.resolved ==> r.key in s.cache)
      && (r.phase.InTool? && r.phase.wasResolved ==> r.key in s.cache)
    else VarsOf(s, t) == UNSET
  }

  ghost predicate Sound(s: State) {
    && s.fields.member == "" && s.fields.org == "" && s.fields.project == LastDefault(s.said)
    && CacheIsOwn(s.said, s.cache)
    && (forall t: nat :: Bracketed(s, t))
  }

  ghost predicate CacheIsOwn(said: seq<Said>, cache: map<string, Ctx>) {
    forall k :: k in cache ==> OwnContext(said, k, cache[k])
  }

  lemma OwnContextLater(said: seq<Said>, x: Said, k: string, c: Ctx)
    requires OwnContext(said, k, c)
    ensures OwnContext(said + [x], k, c)
  {
    var p: string :| Me(k, Ctx(c.member, c.org, p)) in said;
    assert Me(k, Ctx(c.member, c.org, p)) in said + [x];
    if Default(k, c.project) !in said {
      var m: string, o: string :| Me(k, Ctx(m, o, c.project)) in said;
      assert Me(k, Ctx(m, o, c.project)) in said + [x];
    }
  }

  lemma BracketedStep(s: State, a: Action, fallback: string, t: nat)
    requires forall u: nat :: Bracketed(s, u)
    ensures Bracketed(Step(s, a, fallback), t)
  {
    assert Bracketed(s, t) && Bracketed(s, a.t);
  }

  lemma AllBracketed(s: State, a: Action, fallback: string)
    requires forall u: nat :: Bracketed(s, u)
    ensures forall t: nat :: Bracketed(Step(s, a, fallback), t)
  {
    var s' := Step(s, a, fallback);
    forall t: nat ensures Bracketed(s', t) { BracketedStep(s, a, fallback, t); }
  }

  lemma AnswerIsSound(s: State, a: Action, fallback: string)
    requires Sound(s) && a.Answer? && a.ctx.Some? && a.t in s.flights && s.flights[a.t].phase == Resolving
    ensures Sound(Step(s, a, fallback))
  {
    var s' := Step(s, a, fallback);
    AllBracketed(s, a, fallback);
    assert Bracketed(s, a.t);
    var key, c := s.flights[a.t].key, a.ctx.value;
    assert s'.said[..|s.said|] == s.said;
    CacheAnswered(s.said, s.cache, key, c, s'.said, s'.cache);
  }

  lemma CacheAnswered(said: seq<Said>, cache: map<string, Ctx>, key: string, c: Ctx,
                      said': seq<Said>, cache': map<string, Ctx>)
    requires CacheIsOwn(said, cache) && said' == said + [Me(key, c)] && cache' == cache[key := c]
    ensures CacheIsOwn(said', cache')
  {
    forall k | k in cache' ensures OwnContext(said', k, cache'[k]) {
      if k == key {
        JustSaid(said, key, c);
      } else {
        OwnContextLater(said, Me(key, c), k, cache[k]);
      }
    }
  }

  lemma JustSaid(said: seq<Said>, key: string, c: Ctx)
    ensures OwnContext(said + [Me(key, c)], key, c)
  {
    assert Me(key, Ctx(c.member, c.org, c.project)) == Me(key, c) && Me(key, c) in said + [Me(key, c)];
  }

  lemma SetDefaultIsSound(s: State, a: Action, fallback: string)
    requires Sound(s) && a.SetDefault? && a.t in s.flights && s.flights[a.t].phase.InTool?
    requires a.project.Some? && a.project.value != ""
    ensures Sound(Step(s, a, fallback))
  {
    var s' := Step(s, a, fallback);
    AllBracketed(s, a, fallback);
    assert Bracketed(s, a.t);
    var key, project := s.flights[a.t].key, a.project.value;
    assert s'.said[..|s.said|] == s.said;
    CacheDefaulted(s.said, s.cache, key, project, s'.said, s'.cache);
  }

  lemma CacheDefaulted(said: seq<Said>, cache: map<string, Ctx>, key: string, project: string,
                       said': seq<Said>, cache': map<string, Ctx>)
    requires CacheIsOwn(said, cache) && said' == said + [Default(key, project)]
    requires cache' == if key in cache then cache[key := cache[key].(project := project)] else cache
    ensures CacheIsOwn(said', cache')
  {
    forall k | k in cache' ensures OwnContext(said', k, cache'[k]) {
      OwnContextLater(said, Default(key, project), k, cache[k]);
      if k == key { JustDefaulted(said', key, cache[k], project); }
    }
  }

  lemma JustDefaulted(said: seq<Said>, key: string, c: Ctx, project: string)
    requires OwnContext(said, key, c) && Default(key, project) in said
    ensures OwnContext(said, key, c.(project := project))
  {
    var p: string :| Me(key, Ctx(c.member, c.org, p)) in said;
    assert c.(project := project).member == c.member && c.(project := project).org == c.org;
  }

  lemma StepIsSound(s: State, a: Action, fallback: string)
    requires Sound(s)
    ensures Sound(Step(s, a, fallback))
  {
    if a.Answer? && a.ctx.Some? && a.t in s.flights && s.flights[a.t].phase == Resolving {
      AnswerIsSound(s, a, fallback);
    } else if a.SetDefault? && a.t in s.flights && s.flights[a.t].phase.InTool?
              && a.project.Some? && a.project.value != ""
    {
      SetDefaultIsSound(s, a, fallback);
    } else {
      AllBracketed(s, a, fallback);
    }
  }

  lemma {:induction false} EveryRunIsSound(h: seq<Action>, fallback: string)
    ensures Sound(Run(h, fallback))
  {
    if h != [] {
      EveryRunIsSound(h[..|h| - 1], fallback);
      StepIsSound(Run(h[..|h| - 1], fallback), h[|h| - 1], fallback);
    }
  }

  /** In every interleaving, what a request reads about its member and organisation is what the backend
      said to its own key, or nothing when its context could not be resolved. */
  lemma ReadsOwnIdentity(h: seq<Action>, fallback: string, t: nat)
    requires t in Run(h, fallback).flights
    ensures var s := Run(h, fallback);
            var k := s.flights[t].key;
            var member, org := MemberRead(s, t, fallback), OrgRead(s, t, fallback);
            if k in s.cache then exists p: string :: Me(k, Ctx(member, org, p)) in s.said
            else member == "" && org == "" && s.flights[t].phase !in {Serving(true)}
  {
    var s := Run(h, fallback);
    EveryRunIsSound(h, fallback);
    assert Bracketed(s, t);
    var k := s.flights[t].key;
    if k in s.cache {
      assert OwnContext(s.said, k, s.cache[k]);
      var p: string :| Me(k, Ctx(s.cache[k].member, s.cache[k].org, p)) in s.said;
      assert Me(k, Ctx(MemberRead(s, t, fallback), OrgRead(s, t, fallback), p)) in s.said;
    }
  }

  /** The project of a call that names one is that one. Of any other call it is the request's own, said
      by the backend to its key, exactly when the client's field is empty or happens to agree; the
      field holds the default project saved last, by whichever key. */
  lemma ProjectIsOwnIff(h: seq<Action>, fallback: string, t: nat)
    requires t in Run(h, fallback).flights && t in Run(h, fallback).contexts
    ensures var s := Run(h, fallback);
            var own := Cached(s, s.flights[t].key).project;
            var v := s.contexts[t].project;
            && s.fields.project == LastDefault(s.said)
            && (v.Some? && v.value != "" ==> ProjectRead(s, t, fallback) == v.value)
            && (!(v.Some? && v.value != "") ==>
                  (ProjectRead(s, t, fallback) == own <==> s.fields.project == "" || s.fields.project == own))
            && (s.flights[t].key in s.cache ==> OwnContext(s.said, s.flights[t].key, s.cache[s.flights[t].key]))
  {
    EveryRunIsSound(h, fallback);
    assert Bracketed(Run(h, fallback), t);
  }

  lemma {:induction false} NoDefaultSaved(said: seq<Said>)
    ensures LastDefault(said) == "" <== forall i :: 0 <= i < |said| ==> said[i].Me?
  {
    if said != [] { NoDefaultSaved(said[..|said| - 1]); }
  }

  /** As long as no default project was saved in this process, all three fields stay empty and every call
      without a project reads its own key's project. */
  lemma ProjectIsOwnUntilADefaultIsSaved(h: seq<Action>, fallback: string, t: nat)
    requires forall i :: 0 <= i < |Run(h, fallback).said| ==> Run(h, fallback).said[i].Me?
    requires t in Run(h, fallback).flights && OrNone(VarsOf(Run(h, fallback), t).project) == None
    ensures var s := Run(h, fallback);
            s.fields == Ctx("", "", "") && ProjectRead(s, t, fallback) == Cached(s, s.flights[t].key).project
  {
    EveryRunIsSound(h, fallback);
    NoDefaultSaved(Run(h, fallback).said);
    assert Bracketed(Run(h, fallback), t);
  }

  /** A run in which a call reads the project another key saved as its default. */
  lemma DefaultReachesOtherKeys()
    ensures var h := [Open(0, "a", None), Answer(0, Some(Ctx("m", "o", ""))), Call(0, None), SetDefault(0, Some("p")),
                      Open(1, "b", None), Answer(1, Some(Ctx("n", "o", "q"))), Call(1, None)];
            var s := Run(h, "env");
            Cached(s, "b").project == "q" && ProjectRead(s, 1, "env") == "p"
  {
    var h := [Open(0, "a", None), Answer(0, Some(Ctx("m", "o", ""))), Call(0, None), SetDefault(0, Some("p")),
              Open(1, "b", None), Answer(1, Some(Ctx("n", "o", "q"))), Call(1, None)];
    var s4 := SavesItsDefault(h, "a", Ctx("m", "o", ""), "p");
    assert h[..7] == h && forall k :: k in s4.cache ==> k == "a";
    ReadsAfterwards(h, s4, "b", Ctx("n", "o", "q"));
  }

  /** The first request of that run: resolves its context, calls a tool, saves a default. */
  lemma SavesItsDefault(h: seq<Action>, key: string, c: Ctx, project: string) returns (s: State)
    requires |h| >= 4 && h[..4] == [Open(0, key, None), Answer(0, Some(c)), Call(0, None), SetDefault(0, Some(project))]
    requires key != "" && project != ""
    ensures s == Run(h[..4], "env") && s.fields.project == project
    ensures s.cache.Keys == {key} && s.flights.Keys == {0} && s.contexts.Keys == {0}
  {
    assert h[2] == h[..4][2] && h[3] == h[..4][3] && h[..2] == h[..4][..2];
    var s3 := CallsATool(h, key, c);
    s := RunPrefix(h, 4, "env", s3);
  }

  lemma CallsATool(h: seq<Action>, key: string, c: Ctx) returns (s: State)
    requires |h| >= 3 && h[..2] == [Open(0, key, None), Answer(0, Some(c))] && h[2] == Call(0, None) && key != ""
    ensures s == Run(h[..3], "env") && s.cache.Keys == {key} && s.contexts.Keys == {0} && s.flights.Keys == {0}
    ensures s.contexts[0].key == Some(key) && s.flights[0].key == key && s.flights[0].phase.InTool?
  {
    var before := ResolvesItsContext(h, key, c);
    s := RunPrefix(h, 3, "env", before);
    AfterTheCall(before, s, key);
  }

  lemma AfterTheCall(before: State, s: State, key: string)
    requires before.contexts == map[0 := Vars(Some(key), None)]
    requires before.flights == map[0 := Request(key, UNSET, Serving(true))]
    requires s == Step(before, Call(0, None), "env")
    ensures s.cache == before.cache && s.contexts.Keys == {0} && s.flights.Keys == {0}
    ensures s.contexts[0].key == Some(key) && s.flights[0].key == key && s.flights[0].phase.InTool?
  {
  }

  lemma ResolvesItsContext(h: seq<Action>, key: string, c: Ctx) returns (s: State)
    requires |h| >= 2 && h[..2] == [Open(0, key, None), Answer(0, Some(c))] && key != ""
    ensures s == Run(h[..2], "env") && s.cache.Keys == {key}
    ensures s.contexts == map[0 := Vars(Some(key), None)] && s.flights == map[0 := Request(key, UNSET, Serving(true))]
  {
    assert h[0] == h[..2][0] && h[1] == h[..2][1];
    var s1 := RunPrefix(h, 1, "env", START);
    assert s1 == State(Ctx("", "", ""), map[], map[0 := Vars(Some(key), None)],
                       map[0 := Request(key, UNSET, Resolving)], []);
    s := RunPrefix(h, 2, "env", s1);
  }

  /** The second: another key, on its own context, which resolves its context and calls a tool. */
  lemma ReadsAfterwards(h: seq<Action>, s4: State, key: string, c: Ctx)
    requires |h| == 7 && h[4] == Open(1, key, None) && h[5] == Answer(1, Some(c)) && h[6] == Call(1, None)
    requires s4 == Run(h[..4], "env") && key != "" && key !in s4.cache && 1 !in s4.flights && 1 !in s4.contexts
    requires s4.fields.project != ""
    ensures var s := Run(h[..7], "env");
            Cached(s, key) == c && ProjectRead(s, 1, "env") == s4.fields.project
  {
    var s6 := SecondResolves(h, s4, key, c);
    var s7 := RunPrefix(h, 7, "env", s6);
  }

  lemma SecondResolves(h: seq<Action>, s4: State, key: string, c: Ctx) returns (s6: State)
    requires |h| == 7 && h[4] == Open(1, key, None) && h[5] == Answer(1, Some(c))
    requires s4 == Run(h[..4], "env") && key != "" && key !in s4.cache && 1 !in s4.flights && 1 !in s4.contexts
    ensures s6 == Run(h[..6], "env") && key in s6.cache && s6.cache[key] == c && s6.fields == s4.fields
    ensures 1 in s6.flights && s6.flights[1] == Request(key, UNSET, Serving(true))
    ensures 1 in s6.contexts && s6.contexts[1] == Vars(Some(key), None)
  {
    var s5 := RunPrefix(h, 5, "env", s4);
    assert s5.flights[1] == Request(key, UNSET, Resolving) && s5.fields == s4.fields;
    s6 := RunPrefix(h, 6, "env", s5);
  }

  lemma RunPrefix(h: seq<Action>, n: nat, fallback: string, before: State) returns (s: State)
    requires 0 < n <= |h| && before == Run(h[..n - 1], fallback)
    ensures s == Step(before, h[n - 1], fallback) == Run(h[..n], fallback)
  {
    s := Step(before, h[n - 1], fallback);
    assert h[..n][..n - 1] == h[..n - 1];
  }

  // ---------- what an answer is for ----------

  /** No later answer for this key, and no default saved by a request of it. */
  ghost predicate QuietFor(s: State, h: seq<Action>, fallback: string, key: string) {
    forall i :: 0 <= i < |h| ==>
      !(h[i].Answer? && h[i].ctx.Some? && KeyAt(RunFrom(s, h[..i], fallback), h[i].t) == Some(key)) &&
      !(h[i].SetDefault? && KeyAt(RunFrom(s, h[..i], fallback), h[i].t) == Some(key))
  }

  /** The key of the request in flight. */
  function KeyAt(s: State, t: nat): Option<string> {
    if t in s.flights then Some(s.flights[t].key) else None
  }

  /** The answer to a request is kept for its key: as long as no other answer for that key comes, every request
      with it, whenever it opens, goes ahead without asking and reads that member and organisation, and, when no
      default was saved at all, that project. */
  lemma {:induction false} AnswerIsKept(s: State, t: nat, c: Ctx, h: seq<Action>, fallback: string)
    requires Sound(s) && t in s.flights && s.flights[t].phase == Resolving
    requires QuietFor(Step(s, Answer(t, Some(c)), fallback), h, fallback, s.flights[t].key)
    ensures var key, s' := s.flights[t].key, RunFrom(Step(s, Answer(t, Some(c)), fallback), h, fallback);
            && Sound(s') && key in s'.cache && s'.cache[key] == c
  {
    var first, key := Step(s, Answer(t, Some(c)), fallback), s.flights[t].key;
    if h == [] {
      StepIsSound(s, Answer(t, Some(c)), fallback);
      assert Bracketed(s, t);
    } else {
      var n := |h| - 1;
      QuietPrefix(first, h, h[..n], n, fallback, key);
      AnswerIsKept(s, t, c, h[..n], fallback);
      KeptNext(RunFrom(first, h[..n], fallback), h[n], RunFrom(first, h, fallback), fallback, key);
    }
  }

  lemma QuietPrefix(s: State, h: seq<Action>, before: seq<Action>, n: nat, fallback: string, key: string)
    requires n < |h| && before == h[..n] && QuietFor(s, h, fallback, key)
    ensures QuietFor(s, before, fallback, key)
    ensures !(h[n].Answer? && h[n].ctx.Some? && KeyAt(RunFrom(s, before, fallback), h[n].t) == Some(key))
    ensures !(h[n].SetDefault? && KeyAt(RunFrom(s, before, fallback), h[n].t) == Some(key))
  {
    forall i | 0 <= i < n ensures before[..i] == h[..i] && before[i] == h[i] {
    }
  }

  lemma KeptNext(s: State, a: Action, s': State, fallback: string, key: string)
    requires Sound(s) && key in s.cache && s' == Step(s, a, fallback)
    requires !(a.Answer? && a.ctx.Some? && KeyAt(s, a.t) == Some(key)) && !(a.SetDefault? && KeyAt(s, a.t) == Some(key))
    ensures Sound(s') && key in s'.cache && s'.cache[key] == s.cache[key]
  {
    StepIsSound(s, a, fallback);
    KeptByStep(s, a, fallback, key);
  }

  lemma KeptByStep(s: State, a: Action, fallback: string, key: string)
    requires Sound(s) && key in s.cache
    requires !(a.Answer? && a.ctx.Some? && KeyAt(s, a.t) == Some(key)) && !(a.SetDefault? && KeyAt(s, a.t) == Some(key))
    ensures key in Step(s, a, fallback).cache && Step(s, a, fallback).cache[key] == s.cache[key]
  {
    assert Bracketed(s, a.t);
  }

  /** What a request of a key reads when the key's context is cached. */
  lemma CachedIsRead(s: State, u: nat, key: string, c: Ctx, fallback: string)
    requires Sound(s) && key in s.cache && s.cache[key] == c && u in s.flights && s.flights[u].key == key
    ensures MemberRead(s, u, fallback) == c.member && OrgRead(s, u, fallback) == c.org
    ensures s.fields.project == "" && OrNone(VarsOf(s, u).project) == None ==> ProjectRead(s, u, fallback) == c.project
  {
    assert Bracketed(s, u);
  }

  /** A request whose key is cached does not ask the backend; one whose key is not, does. */
  lemma AsksOnce(s: State, u: nat, key: string, header: Option<string>, fallback: string)
    requires u !in s.flights && key != ""
    ensures var s' := Step(s, Open(u, key, header), fallback);
            && u in s'.flights && s'.flights[u].key == key
            && s'.flights[u].phase == (if key in s.cache then Serving(true) else Resolving)
            && VarsOf(s', u) == Vars(Some(key), if header == Some("") then None else header)
            && s'.cache == s.cache && s'.fields == s.fields && s'.said == s.said
  {
  }

  /** A request whose answer failed reads nothing about itself until some request of its key is answered. */
  lemma UnansweredReadsNothing(s: State, u: nat, fallback: string)
    requires Sound(s) && u in s.flights && s.flights[u].key !in s.cache
    ensures MemberRead(s, u, fallback) == "" && OrgRead(s, u, fallback) == ""
    ensures OrNone(VarsOf(s, u).project) == None ==> ProjectRead(s, u, fallback) == s.fields.project
  {
    assert Bracketed(s, u);
  }

  /** A default saved inside a call is what the request itself reads afterwards when a call names no project. */
  lemma SavedDefaultIsRead(s: State, t: nat, project: string, fallback: string)
    requires t in s.flights && s.flights[t].phase.InTool? && project != ""
    ensures var s' := Step(s, SetDefault(t, Some(project)), fallback);
            && (OrNone(VarsOf(s', t).project) == None ==> ProjectRead(s', t, fallback) == project)
            && MemberRead(s', t, fallback) == MemberRead(s, t, fallback)
            && OrgRead(s', t, fallback) == OrgRead(s, t, fallback)
            && VarsOf(s', t) == VarsOf(s, t)
  {
  }

  /** Overrides do not outlive their request: a context with no request in flight has none set, and
      a request in flight has its own key set. */
  lemma OverridesAreRestored(h: seq<Action>, fallback: string, t: nat)
    ensures var s := Run(h, fallback);
            if t in s.flights then VarsOf(s, t).key == Some(s.flights[t].key)
                               && EffectiveKey(VarsOf(s, t), fallback) == s.flights[t].key
            else VarsOf(s, t) == UNSET
  {
    EveryRunIsSound(h, fallback);
    assert Bracketed(Run(h, fallback), t);
  }

  ghost predicate NotAt(h: seq<Action>, t: nat) { forall i :: 0 <= i < |h| ==> h[i].t != t }

  function RunFrom(s: State, h: seq<Action>, fallback: string): State {
    if h == [] then s else Step(RunFrom(s, h[..|h| - 1], fallback), h[|h| - 1], fallback)
  }

  /** Nothing other requests do touches this one's variables or phase. */
  lemma {:induction false} OthersDoNotInterfere(s: State, h: seq<Action>, fallback: string, t: nat)
    requires NotAt(h, t)
    ensures var s' := RunFrom(s, h, fallback);
            && VarsOf(s', t) == VarsOf(s, t)
            && (t in s'.flights <==> t in s.flights) && (t in s.flights ==> s'.flights[t] == s.flights[t])
  {
    if h != [] {
      OthersDoNotInterfere(s, h[..|h| - 1], fallback, t);
    }
  }

  /** A tool call sees its own project argument, even when it is absent, and the header's project again
      after it, whatever other requests did in between. */
  lemma ToolBracket(s: State, t: nat, argument: Option<string>, during: seq<Action>, fallback: string)
    requires t in s.flights && s.flights[t].phase.Serving? && NotAt(during, t)
    ensures var inside := RunFrom(Step(s, Call(t, argument), fallback), during, fallback);
            && VarsOf(inside, t) == VarsOf(s, t).(project := OrNone(argument))
            && VarsOf(Step(inside, Return(t), fallback), t) == VarsOf(s, t)
  {
    var called := Step(s, Call(t, argument), fallback);
    OthersDoNotInterfere(called, during, fallback, t);
  }
}

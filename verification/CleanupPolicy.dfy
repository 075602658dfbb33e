/** The registry clean-up check: which versions are in use, the policy generated to keep them, and a
    simulation of Keep and Delete rules per repository. Times and durations are seconds. */
module CleanupPolicy {
  import opened Text
  import opened Sorting

  /** A version is named by package and digest, whatever repository holds it. */
  type Key = (string, string)

  datatype Version = Version(repo: Option<string>, package: string, digest: string, tags: seq<string>, created: int) {
    function Key(): Key { (package, digest) }
  }

  /** An extracted reference; an absent part is `None` or empty. */
  datatype Ref = Ref(repo: Option<string>, package: Option<string>, digest: string, tag: string) {
    function Package(): string { if package.Some? then package.value else "" }

    predicate Asks() { digest != "" || tag != "" }

    /** What a reference stands for: a bare digest every version with it, a digest or a tag the
        versions of that repository and package. The digest wins over the tag. */
    predicate Denotes(v: Version) {
      if digest != "" then
        v.digest == digest && (package == None || (v.repo == repo && v.package == Package()))
      else
        tag != "" && tag in v.tags && v.repo == repo && v.package == Package()
    }
  }

  datatype TagState = AnyTag | Tagged | Untagged

  /** An empty list of prefixes is the same as none. */
  datatype Condition = Condition(
    tagState: TagState,
    tagPrefixes: seq<string>,
    versionPrefixes: seq<string>,
    packagePrefixes: seq<string>,
    olderThan: Option<int>,
    newerThan: Option<int>)

  datatype Body = MostRecent(packages: seq<string>, keepCount: int) | Where(cond: Condition)

  datatype Rule = Rule(name: string, keeps: bool, body: Body)

  const KEEP_IN_USE := "keep-in-use"
  const PREFIX_MAX: nat := 64

  // ---------- resolving references ----------

  ghost function KeysOf(versions: seq<Version>, refs: seq<Ref>): set<Key> {
    set v, r | v in versions && r in refs && r.Denotes(v) :: v.Key()
  }

  function KeySet(versions: seq<Version>): set<Key> {
    set v | v in versions :: v.Key()
  }

  ghost predicate Unresolved(r: Ref, versions: seq<Version>) {
    r.Asks() && forall v :: v in versions ==> !r.Denotes(v)
  }

  type TagKey = (Option<string>, string, string)

  /** The three dictionaries of the resolver: versions by repository, package and digest, by digest
      alone, and by tag. */
  datatype Index = Index(
    exact: map<(Option<string>, string, string), Version>,
    byDigest: map<string, seq<Version>>,
    byTag: map<TagKey, seq<Version>>)

  ghost predicate ExactIndexed(m: map<(Option<string>, string, string), Version>, versions: seq<Version>) {
    forall k :: k in m <==> exists v :: v in versions && (v.repo, v.package, v.digest) == k
  }

  ghost predicate DigestIndexed(m: map<string, seq<Version>>, versions: seq<Version>) {
    && (forall d :: d in m ==> m[d] != [])
    && (forall d, v :: v in (if d in m then m[d] else []) <==> v in versions && v.digest == d)
  }

  ghost predicate TagIndexed(m: map<TagKey, seq<Version>>, versions: seq<Version>) {
    && (forall k :: k in m ==> m[k] != [])
    && (forall k, v :: v in (if k in m then m[k] else []) <==>
          v in versions && v.repo == k.0 && v.package == k.1 && k.2 in v.tags)
  }

  function Append<K, V>(m: map<K, seq<V>>, k: K, v: V): map<K, seq<V>> {
    m[k := (if k in m then m[k] else []) + [v]]
  }

  function AddExact(m: map<(Option<string>, string, string), Version>, v: Version, ghost before: seq<Version>)
    : (m': map<(Option<string>, string, string), Version>)
    requires ExactIndexed(m, before)
    ensures ExactIndexed(m', before + [v])
  {
    m[(v.repo, v.package, v.digest) := v]
  }

  function AddDigest(m: map<string, seq<Version>>, v: Version,
                     ghost before: seq<Version>): (m': map<string, seq<Version>>)
    requires DigestIndexed(m, before)
    ensures DigestIndexed(m', before + [v])
  {
    Append(m, v.digest, v)
  }

  method AddTags(m: map<TagKey, seq<Version>>, v: Version, ghost before: seq<Version>)
    returns (m': map<TagKey, seq<Version>>)
    requires TagIndexed(m, before)
    ensures TagIndexed(m', before + [v])
  {
    m' := m;
    for k := 0 to |v.tags|
      invariant forall t :: t in m' ==> m'[t] != []
      invariant forall t, w :: w in (if t in m' then m'[t] else []) <==>
        || (w in before && w.repo == t.0 && w.package == t.1 && t.2 in w.tags)
        || (w == v && v.repo == t.0 && v.package == t.1 && t.2 in v.tags[..k])
    {
      assert v.tags[..k + 1] == v.tags[..k] + [v.tags[k]];
      m' := Append(m', (v.repo, v.package, v.tags[k]), v);
    }
    assert v.tags[..|v.tags|] == v.tags;
  }

  method BuildIndex(versions: seq<Version>) returns (ix: Index)
    ensures ExactIndexed(ix.exact, versions) && DigestIndexed(ix.byDigest, versions) && TagIndexed(ix.byTag, versions)
  {
    var exact, byDigest, byTag := map[], map[], map[];
    for i := 0 to |versions|
      invariant ExactIndexed(exact, versions[..i])
      invariant DigestIndexed(byDigest, versions[..i])
      invariant TagIndexed(byTag, versions[..i])
    {
      var v := versions[i];
      ghost var before := versions[..i];
      assert versions[..i + 1] == before + [v];
      exact := AddExact(exact, v, before);
      byDigest := AddDigest(byDigest, v, before);
      byTag := AddTags(byTag, v, before);
    }
    assert versions[..|versions|] == versions;
    ix := Index(exact, byDigest, byTag);
  }

  /** The keys one reference resolves to; none when it has to be reported missing. */
  function Lookup(ix: Index, r: Ref, ghost versions: seq<Version>): (keys: set<Key>)
    requires ExactIndexed(ix.exact, versions) && DigestIndexed(ix.byDigest, versions) && TagIndexed(ix.byTag, versions)
    ensures keys == KeysOf(versions, [r])
    ensures keys == {} <==> forall v :: v in versions ==> !r.Denotes(v)
  {
    assert forall v :: v in versions && r.Denotes(v) ==> v.Key() in KeysOf(versions, [r]);
    if r.digest != "" && r.package == None then
      var hit := if r.digest in ix.byDigest then ix.byDigest[r.digest] else [];
      assert forall v :: v in hit <==> v in versions && r.Denotes(v);
      KeySet(hit)
    else if r.digest != "" then
      var key := (r.repo, r.Package(), r.digest);
      assert forall v :: r.Denotes(v) <==> (v.repo, v.package, v.digest) == key;
      if key in ix.exact then
        assert exists v :: v in versions && r.Denotes(v);
        {(key.1, key.2)}
      else {}
    else if r.tag != "" then
      var key := (r.repo, r.Package(), r.tag);
      var hit := if key in ix.byTag then ix.byTag[key] else [];
      assert forall v :: v in hit <==> v in versions && r.Denotes(v);
      KeySet(hit)
    else {}
  }

  method ResolveInUse(refs: seq<Ref>, versions: seq<Version>) returns (found: set<Key>, missing: seq<Ref>)
    ensures found == KeysOf(versions, refs)
    ensures forall r :: r in missing <==> r in refs && Unresolved(r, versions)
  {
    var ix := BuildIndex(versions);
    found, missing := {}, [];
    for i := 0 to |refs|
      invariant found == KeysOf(versions, refs[..i])
      invariant forall r :: r in missing <==> r in refs[..i] && Unresolved(r, versions)
    {
      assert refs[..i + 1] == refs[..i] + [refs[i]];
      var keys := Lookup(ix, refs[i], versions);
      if keys == {} && refs[i].Asks() {
        missing := missing + [refs[i]];
      }
      found := found + keys;
    }
    assert refs[..|refs|] == refs;
  }

  // ---------- the generated policy ----------

  function KeepPrefix(digest: string): string {
    if |digest| <= PREFIX_MAX then digest else digest[..PREFIX_MAX]
  }

  /** A digest that starts like one in use, as far as the registry lets a rule look. */
  predicate Shielded(digest: string, inUse: set<Key>) {
    exists k :: k in inUse && StartsWith(digest, KeepPrefix(k.1))
  }

  function WithoutKeepInUse(base: seq<Rule>): (r: seq<Rule>)
    ensures forall x :: x in r <==> x in base && x.name != KEEP_IN_USE
  {
    if base == [] then []
    else (if base[0].name != KEEP_IN_USE then [base[0]] else []) + WithoutKeepInUse(base[1..])
  }

  function KeepRule(prefixes: seq<string>): Rule {
    Rule(KEEP_IN_USE, true, Where(Condition(AnyTag, [], prefixes, [], None, None)))
  }

  method SortedPrefixes(inUse: set<Key>) returns (prefixes: seq<string>)
    ensures Elements(prefixes) == set k | k in inUse :: KeepPrefix(k.1)
    ensures SortedBy(NameLe, prefixes) && NoDuplicates(prefixes)
  {
    var todo := set k | k in inUse :: KeepPrefix(k.1);
    ghost var all := todo;
    prefixes := [];
    while todo != {}
      invariant todo <= all && NoDuplicates(prefixes) && Elements(prefixes) == all - todo
      decreases |todo|
    {
      var p :| p in todo;
      assert p !in Elements(prefixes);
      assert Elements(prefixes + [p]) == Elements(prefixes) + {p};
      prefixes := prefixes + [p];
      todo := todo - {p};
    }
    var sorted := Sort(NameLe, prefixes);
    NamesAreTotallyOrdered();
    SortSorted(NameLe, prefixes);
    SortMultiset(NameLe, prefixes);
    PermutationIff(sorted, prefixes);
    prefixes := sorted;
  }

  /** The generated policy: the base rules in their order, the keep rule first. */
  ghost predicate Generated(policy: seq<Rule>, base: seq<Rule>, inUse: set<Key>) {
    var rest := WithoutKeepInUse(base);
    if inUse == {} then policy == rest
    else exists prefixes: seq<string> ::
      && policy == [KeepRule(prefixes)] + rest
      && Elements(prefixes) == set k | k in inUse :: KeepPrefix(k.1)
  }

  method BuildPolicy(base: seq<Rule>, inUse: set<Key>) returns (policy: seq<Rule>)
    ensures Generated(policy, base, inUse)
  {
    var prefixes := SortedPrefixes(inUse);
    policy := WithoutKeepInUse(base);
    assert inUse != {} ==> Elements(prefixes) != {} by {
      if inUse != {} {
        var k :| k in inUse;
        assert KeepPrefix(k.1) in Elements(prefixes);
      }
    }
    if prefixes != [] {
      assert prefixes[0] in Elements(prefixes);
      policy := [KeepRule(prefixes)] + policy;
    }
  }

  // ---------- the simulation ----------

  predicate AnyPrefix(prefixes: seq<string>, s: string) {
    exists p :: p in prefixes && StartsWith(s, p)
  }

  predicate AnyTagPrefix(prefixes: seq<string>, tags: seq<string>) {
    exists t :: t in tags && AnyPrefix(prefixes, t)
  }

  predicate Matches(c: Condition, v: Version, now: int) {
    && (c.tagState == Tagged ==> v.tags != [])
    && (c.tagState == Untagged ==> v.tags == [])
    && (c.tagPrefixes != [] ==> AnyTagPrefix(c.tagPrefixes, v.tags))
    && (c.versionPrefixes != [] ==> AnyPrefix(c.versionPrefixes, v.digest))
    && (c.packagePrefixes != [] ==> AnyPrefix(c.packagePrefixes, v.package))
    && (c.olderThan.Some? ==> now - v.created > c.olderThan.value)
    && (c.newerThan.Some? ==> now - v.created < c.newerThan.value)
  }

  predicate NewerFirst(a: Version, b: Version) { a.created >= b.created }

  predicate InPool(packages: seq<string>, v: Version) {
    packages == [] || AnyPrefix(packages, v.package)
  }

  /** The versions of one package that a most-recent rule looks at, in their listed order. */
  function Pool(packages: seq<string>, pkg: string, versions: seq<Version>): (r: seq<Version>)
    ensures forall v :: v in r <==> v in versions && v.package == pkg && InPool(packages, v)
  {
    if versions == [] then []
    else
      (if versions[0].package == pkg && InPool(packages, versions[0]) then [versions[0]] else [])
      + Pool(packages, pkg, versions[1..])
  }

  /** `s[:n]`, where a negative count leaves that many off the end. */
  function Slice<T>(s: seq<T>, n: int): seq<T> {
    if n >= |s| then s else if n >= 0 then s[..n] else if -n >= |s| then [] else s[..|s| + n]
  }

  function Newest(packages: seq<string>, keepCount: int, pkg: string, versions: seq<Version>): seq<Version> {
    Slice(Sort(NewerFirst, Pool(packages, pkg, versions)), keepCount)
  }

  /** The keys a rule takes hold of in one repository. */
  function Matched(rule: Rule, versions: seq<Version>, now: int): set<Key> {
    match rule.body
    case MostRecent(packages, keepCount) =>
      set v | v in versions && v in Newest(packages, keepCount, v.package, versions) :: v.Key()
    case Where(cond) =>
      set v | v in versions && Matches(cond, v, now) :: v.Key()
  }

  ghost function Taken(policy: seq<Rule>, keeps: bool, versions: seq<Version>, now: int): set<Key> {
    set r, k | r in policy && r.keeps == keeps && k in Matched(r, versions, now) :: k
  }

  /** One repository: what some Delete rule takes and no Keep rule does. */
  ghost function DeletedIn(policy: seq<Rule>, versions: seq<Version>, now: int): set<Key> {
    Taken(policy, false, versions, now) - Taken(policy, true, versions, now)
  }

  function OfRepo(repo: Option<string>, versions: seq<Version>): (r: seq<Version>)
    ensures forall v :: v in r <==> v in versions && v.repo == repo
  {
    if versions == [] then []
    else (if versions[0].repo == repo then [versions[0]] else []) + OfRepo(repo, versions[1..])
  }

  function Repos(versions: seq<Version>): set<Option<string>> {
    set v | v in versions :: v.repo
  }

  /** Every repository on its own. */
  ghost function Deleted(policy: seq<Rule>, versions: seq<Version>, now: int): set<Key> {
    DeletedOver(Repos(versions), policy, versions, now)
  }

  ghost function DeletedOver(repos: set<Option<string>>, policy: seq<Rule>, versions: seq<Version>, now: int): set<Key>
  {
    set repo, k | repo in repos && k in DeletedIn(policy, OfRepo(repo, versions), now) :: k
  }

  lemma OneMoreRepo(repos: set<Option<string>>, repo: Option<string>, policy: seq<Rule>, versions: seq<Version>,
                    now: int)
    ensures DeletedOver(repos + {repo}, policy, versions, now)
            == DeletedOver(repos, policy, versions, now) + DeletedIn(policy, OfRepo(repo, versions), now)
  {
  }

  method MostRecentKeys(packages: seq<string>, keepCount: int, versions: seq<Version>) returns (keys: set<Key>)
    ensures keys == set v | v in versions && v in Newest(packages, keepCount, v.package, versions) :: v.Key()
  {
    keys := {};
    var todo := set v | v in versions && InPool(packages, v) :: v.package;
    ghost var all := todo;
    while todo != {}
      invariant todo <= all
      invariant keys == set v | v in versions && v.package in all - todo
                                && v in Newest(packages, keepCount, v.package, versions) :: v.Key()
      decreases |todo|
    {
      var pkg :| pkg in todo;
      var newest := Newest(packages, keepCount, pkg, versions);
      NewestInPool(packages, keepCount, pkg, versions);
      keys := keys + KeySet(newest);
      todo := todo - {pkg};
    }
    forall v | v in versions && v in Newest(packages, keepCount, v.package, versions) ensures v.package in all {
      NewestInPool(packages, keepCount, v.package, versions);
    }
  }

  lemma NewestInPool(packages: seq<string>, keepCount: int, pkg: string, versions: seq<Version>)
    ensures forall v :: v in Newest(packages, keepCount, pkg, versions) ==>
            v in versions && v.package == pkg && InPool(packages, v)
  {
    var pool := Pool(packages, pkg, versions);
    SortMultiset(NewerFirst, pool);
    forall v | v in Sort(NewerFirst, pool) ensures v in pool {
      assert v in multiset(Sort(NewerFirst, pool));
    }
  }

  method SimulateRepo(policy: seq<Rule>, versions: seq<Version>, now: int) returns (deleted: set<Key>)
    ensures deleted == DeletedIn(policy, versions, now)
  {
    var keep: set<Key>, delete: set<Key> := {}, {};
    for i := 0 to |policy|
      invariant keep == Taken(policy[..i], true, versions, now)
      invariant delete == Taken(policy[..i], false, versions, now)
    {
      var rule := policy[i];
      assert policy[..i + 1] == policy[..i] + [rule];
      var matched: set<Key>;
      match rule.body {
        case MostRecent(packages, keepCount) => matched := MostRecentKeys(packages, keepCount, versions);
        case Where(cond) => matched := set v | v in versions && Matches(cond, v, now) :: v.Key();
      }
      assert matched == Matched(rule, versions, now);
      if rule.keeps {
        keep := keep + matched;
      } else {
        delete := delete + matched;
      }
    }
    assert policy[..|policy|] == policy;
    deleted := delete - keep;
  }

  method Simulate(policy: seq<Rule>, versions: seq<Version>, now: int) returns (deleted: set<Key>)
    ensures deleted == Deleted(policy, versions, now)
  {
    var byRepo := GroupByRepo(versions);
    deleted := {};
    var todo := byRepo.Keys;
    while todo != {}
      invariant todo <= byRepo.Keys
      invariant deleted == DeletedOver(Repos(versions) - todo, policy, versions, now)
      decreases |todo|
    {
      var repo :| repo in todo;
      var one := SimulateRepo(policy, byRepo[repo], now);
      OneMoreRepo(Repos(versions) - todo, repo, policy, versions, now);
      OneLessToDo(Repos(versions), todo, repo);
      deleted := deleted + one;
      todo := todo - {repo};
    }
    assert Repos(versions) - todo == Repos(versions);
  }

  lemma OneLessToDo<T>(all: set<T>, todo: set<T>, x: T)
    requires x in todo && todo <= all
    ensures all - todo + {x} == all - (todo - {x})
  {
  }

  method GroupByRepo(versions: seq<Version>) returns (byRepo: map<Option<string>, seq<Version>>)
    ensures byRepo.Keys == Repos(versions)
    ensures forall repo :: repo in byRepo ==> byRepo[repo] == OfRepo(repo, versions)
  {
    byRepo := map[];
    for i := 0 to |versions|
      invariant byRepo.Keys == Repos(versions[..i])
      invariant forall repo :: repo in byRepo ==> byRepo[repo] == OfRepo(repo, versions[..i])
    {
      assert versions[..i + 1] == versions[..i] + [versions[i]];
      byRepo := AddToRepo(byRepo, versions[i], versions[..i]);
    }
    assert versions[..|versions|] == versions;
  }

  function AddToRepo(byRepo: map<Option<string>, seq<Version>>, v: Version, ghost before: seq<Version>)
    : (r: map<Option<string>, seq<Version>>)
    requires byRepo.Keys == Repos(before) && forall repo :: repo in byRepo ==> byRepo[repo] == OfRepo(repo, before)
    ensures r.Keys == Repos(before + [v]) && forall repo :: repo in r ==> r[repo] == OfRepo(repo, before + [v])
  {
    ReposSnoc(before, v);
    var r := Append(byRepo, v.repo, v);
    assert forall repo :: repo in r ==> r[repo] == OfRepo(repo, before + [v]) by {
      forall repo | repo in r ensures r[repo] == OfRepo(repo, before + [v]) {
        OfRepoSnoc(repo, before, v);
        NewRepo(repo, before);
      }
    }
    r
  }

  lemma ReposSnoc(before: seq<Version>, v: Version)
    ensures Repos(before + [v]) == Repos(before) + {v.repo}
  {
    assert forall w :: w in before + [v] <==> w in before || w == v;
  }

  lemma NewRepo(repo: Option<string>, versions: seq<Version>)
    ensures repo !in Repos(versions) ==> OfRepo(repo, versions) == []
  {
    var r := OfRepo(repo, versions);
    assert r != [] ==> r[0] in versions;
  }

  lemma {:induction false} OfRepoSnoc(repo: Option<string>, versions: seq<Version>, v: Version)
    ensures OfRepo(repo, versions + [v]) == OfRepo(repo, versions) + (if v.repo == repo then [v] else [])
  {
    if versions != [] {
      OfRepoSnoc(repo, versions[1..], v);
      assert (versions + [v])[1..] == versions[1..] + [v];
    }
  }

  // ---------- what the generated policy deletes ----------

  lemma PrefixOfItself(digest: string)
    ensures StartsWith(digest, KeepPrefix(digest))
  {
  }

  /** In any repository the keep rule takes exactly the shielded versions. */
  lemma KeepRuleTakes(prefixes: seq<string>, inUse: set<Key>, versions: seq<Version>, now: int)
    requires inUse != {} && Elements(prefixes) == set k | k in inUse :: KeepPrefix(k.1)
    ensures forall v :: v in versions ==>
            (v.Key() in Matched(KeepRule(prefixes), versions, now) <==> Shielded(v.digest, inUse))
    ensures forall key :: key in Matched(KeepRule(prefixes), versions, now) ==> Shielded(key.1, inUse)
  {
    var c := KeepRule(prefixes).body.cond;
    assert prefixes != [] by {
      var k :| k in inUse;
      assert KeepPrefix(k.1) in Elements(prefixes);
    }
    forall v | v in versions ensures Matches(c, v, now) <==> Shielded(v.digest, inUse) {
      ShieldedIff(prefixes, inUse, v.digest);
    }
  }

  lemma ShieldedIff(prefixes: seq<string>, inUse: set<Key>, digest: string)
    requires Elements(prefixes) == set k | k in inUse :: KeepPrefix(k.1)
    ensures AnyPrefix(prefixes, digest) <==> Shielded(digest, inUse)
  {
    if Shielded(digest, inUse) {
      var k :| k in inUse && StartsWith(digest, KeepPrefix(k.1));
      assert KeepPrefix(k.1) in Elements(prefixes);
    }
    if AnyPrefix(prefixes, digest) {
      var p :| p in prefixes && StartsWith(digest, p);
      assert p in Elements(prefixes);
    }
  }

  lemma MatchedAreListed(rule: Rule, versions: seq<Version>, now: int, key: Key)
    requires key in Matched(rule, versions, now)
    ensures exists v :: v in versions && v.Key() == key
  {
  }

  /** The effect of the generated rule in one repository. */
  lemma GeneratedDeletesIn(policy: seq<Rule>, base: seq<Rule>, inUse: set<Key>, versions: seq<Version>, now: int,
                           key: Key)
    requires Generated(policy, base, inUse)
    ensures key in DeletedIn(policy, versions, now) <==>
            key in DeletedIn(WithoutKeepInUse(base), versions, now) && !Shielded(key.1, inUse)
  {
    var rest := WithoutKeepInUse(base);
    if inUse != {} {
      var prefixes: seq<string> :| policy == [KeepRule(prefixes)] + rest &&
                                   Elements(prefixes) == set k | k in inUse :: KeepPrefix(k.1);
      var keep := KeepRule(prefixes);
      KeepRuleTakes(prefixes, inUse, versions, now);
      assert forall r :: r in policy <==> r == keep || r in rest;
      assert Taken(policy, false, versions, now) == Taken(rest, false, versions, now);
      assert Taken(policy, true, versions, now) == Taken(rest, true, versions, now) + Matched(keep, versions, now);
      if key in Taken(rest, false, versions, now) {
        var r :| r in rest && !r.keeps && key in Matched(r, versions, now);
        MatchedAreListed(r, versions, now, key);
        var v :| v in versions && v.Key() == key;
      }
    }
  }

  /** Exactly what the generated policy deletes: the deletions of the base rules, less every version
      whose digest starts like one in use. This holds on any list of versions and at any time, not only on
      those the references were resolved against. */
  lemma GeneratedDeletes(policy: seq<Rule>, base: seq<Rule>, inUse: set<Key>, versions: seq<Version>, now: int)
    requires Generated(policy, base, inUse)
    ensures Deleted(policy, versions, now)
            == set k | k in Deleted(WithoutKeepInUse(base), versions, now) && !Shielded(k.1, inUse)
  {
    var rest := WithoutKeepInUse(base);
    forall k
      ensures k in Deleted(policy, versions, now) <==> k in Deleted(rest, versions, now) && !Shielded(k.1, inUse)
    {
      if k in Deleted(policy, versions, now) {
        var repo :| repo in Repos(versions) && k in DeletedIn(policy, OfRepo(repo, versions), now);
        GeneratedDeletesIn(policy, base, inUse, OfRepo(repo, versions), now, k);
      }
      if k in Deleted(rest, versions, now) {
        var repo :| repo in Repos(versions) && k in DeletedIn(rest, OfRepo(repo, versions), now);
        GeneratedDeletesIn(policy, base, inUse, OfRepo(repo, versions), now, k);
      }
    }
  }

  /** No version in use is deleted, in any repository, on any later list and at any time. */
  lemma InUseIsKept(policy: seq<Rule>, base: seq<Rule>, refs: seq<Ref>, listed: seq<Version>,
                    later: seq<Version>, now: int, r: Ref, v: Version)
    requires Generated(policy, base, KeysOf(listed, refs))
    requires r in refs && v in listed && r.Denotes(v)
    ensures v.Key() !in Deleted(policy, later, now)
  {
    var inUse := KeysOf(listed, refs);
    GeneratedDeletes(policy, base, inUse, later, now);
    PrefixOfItself(v.digest);
    assert v.Key() in inUse;
  }

  /** Truncation costs nothing exactly when no base deletion outside the set in use is shielded. */
  lemma ExactIff(policy: seq<Rule>, base: seq<Rule>, inUse: set<Key>, versions: seq<Version>, now: int)
    requires Generated(policy, base, inUse)
    ensures var plain := Deleted(WithoutKeepInUse(base), versions, now);
            Deleted(policy, versions, now) == plain - inUse
            <==> forall k :: k in plain && Shielded(k.1, inUse) ==> k in inUse
  {
    var plain := Deleted(WithoutKeepInUse(base), versions, now);
    GeneratedDeletes(policy, base, inUse, versions, now);
    forall k | k in inUse ensures Shielded(k.1, inUse) { PrefixOfItself(k.1); }
    if Deleted(policy, versions, now) == plain - inUse {
      forall k | k in plain && Shielded(k.1, inUse) ensures k in inUse {
        assert k !in Deleted(policy, versions, now);
      }
    }
  }

  /** A policy is a set of rules: order and repetition do not matter. */
  lemma OrderDoesNotMatter(p: seq<Rule>, q: seq<Rule>, versions: seq<Version>, now: int)
    requires forall r :: r in p <==> r in q
    ensures Deleted(p, versions, now) == Deleted(q, versions, now)
  {
    forall repo | repo in Repos(versions)
      ensures DeletedIn(p, OfRepo(repo, versions), now) == DeletedIn(q, OfRepo(repo, versions), now)
    {
    }
  }

  /** One more reference can only shrink what is deleted. */
  lemma MoreInUseDeletesLess(p: seq<Rule>, q: seq<Rule>, base: seq<Rule>, few: set<Key>, many: set<Key>,
                             versions: seq<Version>, now: int)
    requires few <= many && Generated(p, base, few) && Generated(q, base, many)
    ensures Deleted(q, versions, now) <= Deleted(p, versions, now)
  {
    GeneratedDeletes(p, base, few, versions, now);
    GeneratedDeletes(q, base, many, versions, now);
  }

  /** A most-recent rule with a count of at least zero takes that many of a package, or all of them,
      and nothing strictly newer than what it takes is left out. */
  lemma MostRecentTakesTheNewest(packages: seq<string>, keepCount: nat, pkg: string, versions: seq<Version>,
                                 kept: Version, other: Version)
    requires kept in Newest(packages, keepCount, pkg, versions)
    requires other in Pool(packages, pkg, versions) && other.created > kept.created
    ensures other in Newest(packages, keepCount, pkg, versions)
    ensures var n := |Pool(packages, pkg, versions)|;
            |Newest(packages, keepCount, pkg, versions)| == if keepCount <= n then keepCount else n
  {
    var pool := Pool(packages, pkg, versions);
    SortMultiset(NewerFirst, pool);
    SortSorted(NewerFirst, pool);
    assert other in multiset(pool);
    NewestPrefix(Sort(NewerFirst, pool), keepCount, kept, other);
  }

  lemma NewestPrefix(sorted: seq<Version>, n: nat, kept: Version, other: Version)
    requires SortedBy(NewerFirst, sorted) && kept in Slice(sorted, n) && other in sorted && other.created > kept.created
    ensures other in Slice(sorted, n)
  {
    var taken := Slice(sorted, n);
    var i :| 0 <= i < |sorted| && sorted[i] == other;
    var j :| 0 <= j < |taken| && taken[j] == kept;
    assert j < i ==> NewerFirst(sorted[j], sorted[i]);
    assert taken[i] == other;
  }

  // ---------- the verdict ----------

  ghost predicate Ambiguous(inUse: set<Key>, v: Version) {
    Shielded(v.digest, inUse) && v.Key() !in inUse
  }

  /** The keys in use whose prefix also fits a version that is not. */
  method PrefixAmbiguities(inUse: set<Key>, versions: seq<Version>) returns (out: seq<Key>)
    ensures out == [] <==> forall v :: v in versions ==> !Ambiguous(inUse, v)
  {
    out := [];
    var todo := inUse;
    while todo != {}
      invariant todo <= inUse
      invariant out == [] <==> forall v :: v in versions && v.Key() !in inUse ==> !Shielded(v.digest, inUse - todo)
      decreases |todo|
    {
      var k :| k in todo;
      var prefix := KeepPrefix(k.1);
      var extra := set v | v in versions && StartsWith(v.digest, prefix) && v.Key() !in inUse :: v.Key();
      forall v: Version
        ensures Shielded(v.digest, inUse - (todo - {k})) <==>
                Shielded(v.digest, inUse - todo) || StartsWith(v.digest, prefix)
      {
        OneMoreShield(inUse - todo, k, v.digest);
        assert inUse - (todo - {k}) == inUse - todo + {k};
      }
      NoExtra(inUse, versions, prefix, extra);
      if extra != {} {
        out := out + [k];
      }
      todo := todo - {k};
    }
    assert inUse - todo == inUse;
  }

  lemma NoExtra(inUse: set<Key>, versions: seq<Version>, prefix: string, extra: set<Key>)
    requires extra == set v | v in versions && StartsWith(v.digest, prefix) && v.Key() !in inUse :: v.Key()
    ensures extra == {} <==> forall v :: v in versions && v.Key() !in inUse ==> !StartsWith(v.digest, prefix)
  {
    assert forall v :: v in versions && StartsWith(v.digest, prefix) && v.Key() !in inUse ==> v.Key() in extra;
  }

  lemma OneMoreShield(inUse: set<Key>, k: Key, digest: string)
    ensures Shielded(digest, inUse + {k}) <==> Shielded(digest, inUse) || StartsWith(digest, KeepPrefix(k.1))
  {
    if Shielded(digest, inUse) {
      var j :| j in inUse && StartsWith(digest, KeepPrefix(j.1));
      assert j in inUse + {k};
    }
    assert k in inUse + {k};
  }

  predicate Overlong(rule: Rule) {
    rule.body.Where? && exists p :: p in rule.body.cond.versionPrefixes && |p| > PREFIX_MAX
  }

  /** The same image listed twice in a named repository. */
  ghost predicate Repeated(versions: seq<Version>) {
    exists i, j :: 0 <= i < j < |versions| && SameImage(versions[i], versions[j])
  }

  predicate SameImage(v: Version, w: Version) {
    v.repo.Some? && v.repo.value != "" && w.repo == v.repo && w.Key() == v.Key()
  }

  method DuplicateImages(versions: seq<Version>) returns (dupes: seq<Version>)
    ensures dupes == [] <==> !Repeated(versions)
  {
    dupes := [];
    var seen: set<(string, string, string)> := {};
    for i := 0 to |versions|
      invariant forall j :: 0 <= j < i && versions[j].repo.Some? && versions[j].repo.value != "" ==>
                  (versions[j].repo.value, versions[j].package, versions[j].digest) in seen
      invariant forall t :: t in seen ==>
                  exists j :: 0 <= j < i && versions[j].repo == Some(t.0) && t.0 != "" &&
                              versions[j].Key() == (t.1, t.2)
      invariant dupes == [] <==> forall j, k :: 0 <= j < k < i ==> !SameImage(versions[j], versions[k])
    {
      var v := versions[i];
      if v.repo == None || v.repo.value == "" {
        continue;
      }
      var key := (v.repo.value, v.package, v.digest);
      if key in seen {
        dupes := dupes + [v];
      }
      seen := seen + {key};
    }
  }

  /** When the check promises anything: usable lists, a base the generator may extend, every reference
      resolved, nothing else reported and no ambiguous prefix. */
  ghost predicate Promised(refs: seq<Ref>, versions: seq<Version>, base: seq<Rule>, problems: seq<string>) {
    && versions != [] && refs != [] && !Repeated(versions)
    && (forall r :: r in base ==> r.name != KEEP_IN_USE && !Overlong(r))
    && (forall r :: r in refs ==> !Unresolved(r, versions))
    && problems == []
    && (forall v :: v in versions ==> !Ambiguous(KeysOf(versions, refs), v))
  }

  /** The end of the check: exit code and, when it is zero, the policy to apply. `problems` are those of
      reading the dumps. Exit 1, the code for an image in use being deleted, never occurs. */
  method Decide(refs: seq<Ref>, versions: seq<Version>, base: seq<Rule>, problems: seq<string>, now: int)
    returns (exit: int, emitted: seq<Rule>)
    ensures exit == 0 || exit == 2 || exit == 3
    ensures exit == 0 <==> Promised(refs, versions, base, problems)
    ensures exit == 2 <==>
            || versions == [] || refs == [] || Repeated(versions)
            || exists r :: r in base && (r.name == KEEP_IN_USE || Overlong(r))
    ensures exit != 0 ==> emitted == []
    ensures exit == 0 ==>
      && Generated(emitted, base, KeysOf(versions, refs))
      && Deleted(emitted, versions, now) == Deleted(base, versions, now) - KeysOf(versions, refs)
  {
    emitted := [];
    if versions == [] {
      return 2, emitted;
    }
    var dupes := DuplicateImages(versions);
    if dupes != [] || exists r :: r in base && r.name == KEEP_IN_USE {
      return 2, emitted;
    }
    if refs == [] {
      return 2, emitted;
    }
    var inUse, missing := ResolveInUse(refs, versions);
    var policy := BuildPolicy(base, inUse);
    OverlongInBase(policy, base, inUse);
    if exists r :: r in policy && Overlong(r) {
      return 2, emitted;
    }
    var ambiguous := PrefixAmbiguities(inUse, versions);
    var wouldDelete := Simulate(policy, versions, now);
    NothingInUseDeleted(policy, base, inUse, versions, now);
    if wouldDelete * inUse != {} {
      return 1, emitted;
    }
    assert missing != [] <==> exists r :: r in refs && Unresolved(r, versions) by {
      assert missing != [] ==> missing[0] in missing;
    }
    if missing != [] || problems != [] || ambiguous != [] {
      return 3, emitted;
    }
    UnambiguousIsExact(policy, base, inUse, versions, now);
    return 0, policy;
  }

  lemma NothingInUseDeleted(policy: seq<Rule>, base: seq<Rule>, inUse: set<Key>, versions: seq<Version>, now: int)
    requires Generated(policy, base, inUse)
    ensures Deleted(policy, versions, now) * inUse == {}
  {
    GeneratedDeletes(policy, base, inUse, versions, now);
    forall k | k in inUse ensures Shielded(k.1, inUse) { PrefixOfItself(k.1); }
  }

  /** Without ambiguous prefixes nothing else is kept. */
  lemma UnambiguousIsExact(policy: seq<Rule>, base: seq<Rule>, inUse: set<Key>, versions: seq<Version>, now: int)
    requires Generated(policy, base, inUse) && forall r :: r in base ==> r.name != KEEP_IN_USE
    requires forall v :: v in versions ==> !Ambiguous(inUse, v)
    ensures Deleted(policy, versions, now) == Deleted(base, versions, now) - inUse
  {
    NothingToDrop(base);
    ExactIff(policy, base, inUse, versions, now);
    forall k | k in Deleted(base, versions, now) && Shielded(k.1, inUse) ensures k in inUse {
      DeletedIsListed(base, versions, now, k);
    }
  }

  lemma DeletedIsListed(policy: seq<Rule>, versions: seq<Version>, now: int, k: Key)
    requires k in Deleted(policy, versions, now)
    ensures exists v :: v in versions && v.Key() == k
  {
    var repo :| repo in Repos(versions) && k in DeletedIn(policy, OfRepo(repo, versions), now);
    var r :| r in policy && !r.keeps && k in Matched(r, OfRepo(repo, versions), now);
    MatchedAreListed(r, OfRepo(repo, versions), now, k);
  }

  lemma {:induction false} NothingToDrop(base: seq<Rule>)
    requires forall r :: r in base ==> r.name != KEEP_IN_USE
    ensures WithoutKeepInUse(base) == base
  {
    if base != [] {
      NothingToDrop(base[1..]);
      assert base == [base[0]] + base[1..];
    }
  }

  /** The generated rule is never too long for the registry. */
  lemma OverlongInBase(policy: seq<Rule>, base: seq<Rule>, inUse: set<Key>)
    requires Generated(policy, base, inUse) && forall r :: r in base ==> r.name != KEEP_IN_USE
    ensures (exists r :: r in policy && Overlong(r)) <==> (exists r :: r in base && Overlong(r))
  {
    NothingToDrop(base);
    if inUse != {} {
      var prefixes: seq<string> :| policy == [KeepRule(prefixes)] + base &&
                                   Elements(prefixes) == set k | k in inUse :: KeepPrefix(k.1);
      forall p | p in prefixes ensures |p| <= PREFIX_MAX {
        assert p in Elements(prefixes);
      }
      assert !Overlong(KeepRule(prefixes));
      assert forall r :: r in policy <==> r == KeepRule(prefixes) || r in base;
    }
  }
}

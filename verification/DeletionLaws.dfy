/** What the clean-up rules delete, in terms of the versions alone: their age, their tags, how their names begin,
    and which of their package are newer. */
module DeletionLaws {
  import opened Text
  import opened Sorting
  import opened CleanupPolicy

  /** Every version. */
  const ANY: Condition := Condition(AnyTag, [], [], [], None, None)

  function DeleteRule(name: string, cond: Condition): Rule { Rule(name, false, Where(cond)) }

  function KeepRuleOf(name: string, cond: Condition): Rule { Rule(name, true, Where(cond)) }

  ghost predicate NameBegins(s: string, prefixes: seq<string>) {
    exists p, rest :: p in prefixes && s == p + rest
  }

  lemma BeginsIff(s: string, prefixes: seq<string>)
    ensures NameBegins(s, prefixes) <==> AnyPrefix(prefixes, s)
  {
    if AnyPrefix(prefixes, s) {
      var p :| p in prefixes && StartsWith(s, p);
      assert s == p + s[|p|..];
    }
    if NameBegins(s, prefixes) {
      var p, rest :| p in prefixes && s == p + rest;
      assert (p + rest)[..|p|] == p;
    }
  }

  // ---------- references and prefixes ----------

  /** A digest without a package stands for it anywhere, with a package for that version of that repository; a tag,
      where there is no digest, for the versions of that repository and package that carry it. */
  lemma ReferenceStandsFor(r: Ref, v: Version)
    ensures r.digest != "" && r.package == None ==> (r.Denotes(v) <==> v.digest == r.digest)
    ensures r.digest != "" && r.package != None ==>
              (r.Denotes(v) <==> v.digest == r.digest && v.repo == r.repo && Some(v.package) == r.package)
    ensures r.digest == "" && r.tag != "" && r.package != None ==>
              (r.Denotes(v) <==> r.tag in v.tags && v.repo == r.repo && Some(v.package) == r.package)
    ensures r.digest == "" && r.tag != "" && r.package == None ==>
              (r.Denotes(v) <==> r.tag in v.tags && v.repo == r.repo && v.package == "")
    ensures r.digest == "" && r.tag == "" ==> !r.Denotes(v)
  {
  }

  /** A reference is reported missing when it says something and stands for no version. */
  lemma MissingIff(r: Ref, versions: seq<Version>)
    ensures Unresolved(r, versions) <==> (|r.digest| > 0 || |r.tag| > 0) && !exists v :: v in versions && r.Denotes(v)
  {
  }

  /** The prefix of a digest is the digest, cut to 64 characters if it is longer. */
  lemma PrefixIsCutAt64(digest: string)
    ensures |digest| <= 64 ==> KeepPrefix(digest) == digest
    ensures |digest| > 64 ==> |KeepPrefix(digest)| == 64 && digest == KeepPrefix(digest) + digest[64..]
  {
  }

  /** Base rules called keep-in-use are replaced, all others stay in their order. */
  lemma {:induction false} OthersStayInOrder(base: seq<Rule>, rule: Rule)
    ensures WithoutKeepInUse([rule] + base) ==
            if rule.name == "keep-in-use" then WithoutKeepInUse(base) else [rule] + WithoutKeepInUse(base)
  {
    assert ([rule] + base)[1..] == base;
  }

  /** An image counts as listed twice when two entries of one repository with a name agree in package and digest. */
  lemma RepeatedIff(versions: seq<Version>)
    ensures Repeated(versions) <==> exists i, j :: 0 <= i < j < |versions| && ListedTwice(versions[i], versions[j])
  {
    forall v: Version, w: Version ensures SameImage(v, w) <==> ListedTwice(v, w) {
    }
  }

  ghost predicate ListedTwice(v: Version, w: Version) {
    v.repo == w.repo && v.repo !in {None, Some("")} && v.package == w.package && v.digest == w.digest
  }

  /** What the check asks for before it ends with zero: versions and references are listed, no image twice; no base
      rule is called keep-in-use or has a digest prefix of more than 64 characters; every reference that says
      something stands for a version; nothing else was reported; and every version whose digest begins with the
      first 64 characters of one in use is in use itself. */
  lemma PromisedMeans(refs: seq<Ref>, versions: seq<Version>, base: seq<Rule>, problems: seq<string>)
    ensures Promised(refs, versions, base, problems) <==>
            && |versions| > 0 && |refs| > 0 && |problems| == 0 && !Repeated(versions)
            && (forall r :: r in base ==> r.name != "keep-in-use")
            && (forall r, p :: r in base && r.body.Where? && p in r.body.cond.versionPrefixes ==> |p| <= 64)
            && (forall r :: r in refs && (r.digest != "" || r.tag != "") ==> exists v :: v in versions && r.Denotes(v))
            && (forall v, k :: v in versions && k in KeysOf(versions, refs) && CutMatches(v.digest, k.1) ==>
                  v.Key() in KeysOf(versions, refs))
  {
    ClearIff(versions, KeysOf(versions, refs));
    forall r | r in refs && Unresolved(r, versions) ensures !exists v :: v in versions && r.Denotes(v) {
      MissingIff(r, versions);
    }
  }

  lemma ClearIff(versions: seq<Version>, inUse: set<Key>)
    ensures (forall v :: v in versions ==> !Ambiguous(inUse, v)) <==>
            (forall v, k :: v in versions && k in inUse && CutMatches(v.digest, k.1) ==> v.Key() in inUse)
  {
    forall digest: string, other: string ensures CutMatches(digest, other) <==> StartsWith(digest, KeepPrefix(other)) {
      CutMatchesIff(digest, other);
    }
    if forall v :: v in versions ==> !Ambiguous(inUse, v) {
      forall v, k | v in versions && k in inUse && CutMatches(v.digest, k.1) ensures v.Key() in inUse {
        assert !Ambiguous(inUse, v);
      }
    }
  }

  /** The first 64 characters, or fewer if there are fewer. */
  function Cut64(s: string): string {
    if |s| <= 64 then s else s[..64]
  }

  /** `digest` begins with the first 64 characters of `other`. */
  ghost predicate CutMatches(digest: string, other: string) {
    exists rest: string :: digest == Cut64(other) + rest
  }

  lemma CutMatchesIff(digest: string, other: string)
    ensures CutMatches(digest, other) <==> StartsWith(digest, KeepPrefix(other))
  {
    var p := Cut64(other);
    if StartsWith(digest, p) {
      assert digest == p + digest[|p|..];
    }
    if CutMatches(digest, other) {
      var rest: string :| digest == p + rest;
      assert (p + rest)[..|p|] == p;
    }
  }

  // ---------- one Delete rule ----------

  lemma WhereDeletes(name: string, cond: Condition, versions: seq<Version>, now: int)
    ensures Deleted([DeleteRule(name, cond)], versions, now) ==
            set v | v in versions && Matches(cond, v, now) :: v.Key()
  {
    var policy := [DeleteRule(name, cond)];
    var hit := set v | v in versions && Matches(cond, v, now) :: v.Key();
    forall k ensures k in Deleted(policy, versions, now) <==> k in hit {
      if k in Deleted(policy, versions, now) {
        var repo :| repo in Repos(versions) && k in DeletedIn(policy, OfRepo(repo, versions), now);
        OneDelete(name, cond, OfRepo(repo, versions), now);
        var v :| v in OfRepo(repo, versions) && Matches(cond, v, now) && v.Key() == k;
        assert v in versions;
      }
      if k in hit {
        var v :| v in versions && Matches(cond, v, now) && v.Key() == k;
        OneDelete(name, cond, OfRepo(v.repo, versions), now);
        assert v in OfRepo(v.repo, versions) && v.repo in Repos(versions);
        assert k in DeletedIn(policy, OfRepo(v.repo, versions), now);
      }
    }
  }

  lemma OneDelete(name: string, cond: Condition, versions: seq<Version>, now: int)
    ensures DeletedIn([DeleteRule(name, cond)], versions, now) ==
            set v | v in versions && Matches(cond, v, now) :: v.Key()
  {
    var r := DeleteRule(name, cond);
    assert r in [r] && Matched(r, versions, now) == set v | v in versions && Matches(cond, v, now) :: v.Key();
    assert Taken([r], false, versions, now) == Matched(r, versions, now);
    assert Taken([r], true, versions, now) == {};
  }

  /** Older than `d`: exactly the versions created more than `d` before. */
  lemma OlderThanDeletes(name: string, d: int, versions: seq<Version>, now: int)
    ensures Deleted([DeleteRule(name, ANY.(olderThan := Some(d)))], versions, now) ==
            set v | v in versions && v.created + d < now :: v.Key()
  {
    WhereDeletes(name, ANY.(olderThan := Some(d)), versions, now);
  }

  /** Newer than `d`: exactly the versions created less than `d` before. */
  lemma NewerThanDeletes(name: string, d: int, versions: seq<Version>, now: int)
    ensures Deleted([DeleteRule(name, ANY.(newerThan := Some(d)))], versions, now) ==
            set v | v in versions && now < v.created + d :: v.Key()
  {
    WhereDeletes(name, ANY.(newerThan := Some(d)), versions, now);
  }

  /** Any tag deletes everything; tagged and untagged split that by whether a version has tags. */
  lemma TagStatesDelete(name: string, versions: seq<Version>, now: int)
    ensures Deleted([DeleteRule(name, ANY)], versions, now) == KeySet(versions)
    ensures Deleted([DeleteRule(name, ANY.(tagState := Tagged))], versions, now) ==
            set v | v in versions && |v.tags| > 0 :: v.Key()
    ensures Deleted([DeleteRule(name, ANY.(tagState := Untagged))], versions, now) ==
            set v | v in versions && |v.tags| == 0 :: v.Key()
  {
    WhereDeletes(name, ANY, versions, now);
    WhereDeletes(name, ANY.(tagState := Tagged), versions, now);
    WhereDeletes(name, ANY.(tagState := Untagged), versions, now);
  }

  /** Prefixes: some tag, the digest, or the package begins with one of them; an empty list asks nothing. */
  lemma PrefixesDelete(name: string, prefixes: seq<string>, versions: seq<Version>, now: int)
    requires prefixes != []
    ensures Deleted([DeleteRule(name, ANY.(tagPrefixes := prefixes))], versions, now) ==
            set v, t | v in versions && t in v.tags && NameBegins(t, prefixes) :: v.Key()
    ensures Deleted([DeleteRule(name, ANY.(versionPrefixes := prefixes))], versions, now) ==
            set v | v in versions && NameBegins(v.digest, prefixes) :: v.Key()
    ensures Deleted([DeleteRule(name, ANY.(packagePrefixes := prefixes))], versions, now) ==
            set v | v in versions && NameBegins(v.package, prefixes) :: v.Key()
  {
    forall s: string ensures NameBegins(s, prefixes) <==> AnyPrefix(prefixes, s) { BeginsIff(s, prefixes); }
    WhereDeletes(name, ANY.(tagPrefixes := prefixes), versions, now);
    WhereDeletes(name, ANY.(versionPrefixes := prefixes), versions, now);
    WhereDeletes(name, ANY.(packagePrefixes := prefixes), versions, now);
  }

  /** Does the rule with this condition delete the version when it stands alone? */
  ghost predicate Hits(cond: Condition, v: Version, now: int) {
    Deleted([DeleteRule("", cond)], [v], now) == {v.Key()}
  }

  lemma HitsIff(cond: Condition, v: Version, now: int)
    ensures Hits(cond, v, now) <==> Matches(cond, v, now)
  {
    WhereDeletes("", cond, [v], now);
    var hit := set w | w in [v] && Matches(cond, w, now) :: w.Key();
    if Matches(cond, v, now) {
      assert v in [v];
      assert hit == {v.Key()};
    } else {
      assert hit == {};
      assert v.Key() !in hit;
    }
  }

  /** A condition with several parts deletes what every part would delete on its own. */
  lemma PartsConjoin(c: Condition, v: Version, now: int)
    ensures Hits(c, v, now) <==>
            && Hits(ANY.(tagState := c.tagState), v, now)
            && Hits(ANY.(tagPrefixes := c.tagPrefixes), v, now)
            && Hits(ANY.(versionPrefixes := c.versionPrefixes), v, now)
            && Hits(ANY.(packagePrefixes := c.packagePrefixes), v, now)
            && Hits(ANY.(olderThan := c.olderThan), v, now)
            && Hits(ANY.(newerThan := c.newerThan), v, now)
  {
    HitsIff(c, v, now);
    HitsIff(ANY.(tagState := c.tagState), v, now);
    HitsIff(ANY.(tagPrefixes := c.tagPrefixes), v, now);
    HitsIff(ANY.(versionPrefixes := c.versionPrefixes), v, now);
    HitsIff(ANY.(packagePrefixes := c.packagePrefixes), v, now);
    HitsIff(ANY.(olderThan := c.olderThan), v, now);
    HitsIff(ANY.(newerThan := c.newerThan), v, now);
  }

  // ---------- several rules ----------

  /** A Keep rule takes out exactly what the same condition would delete. */
  lemma KeepUndoesDelete(cond: Condition, v: Version, now: int)
    ensures Deleted([DeleteRule("", ANY), KeepRuleOf("", cond)], [v], now) == {v.Key()} <==> !Hits(cond, v, now)
  {
    var all, keep := DeleteRule("", ANY), KeepRuleOf("", cond);
    var policy := [all, keep];
    HitsIff(cond, v, now);
    assert all in policy && keep in policy && v in [v];
    assert v.Key() in Matched(all, [v], now) && (v.Key() in Matched(keep, [v], now) <==> Matches(cond, v, now));
    assert Taken(policy, false, [v], now) == {v.Key()};
    assert v.Key() in Taken(policy, true, [v], now) <==> Matches(cond, v, now);
    AloneInItsRepo(policy, v, now);
  }

  lemma AloneInItsRepo(policy: seq<Rule>, v: Version, now: int)
    ensures Deleted(policy, [v], now) == DeletedIn(policy, [v], now)
  {
    assert OfRepo(v.repo, [v]) == [v];
    assert v in [v] && Repos([v]) == {v.repo};
  }

  /** Rules that can only come to apply: Delete rules without a newer-than or most-recent part. */
  ghost predicate OnlyAges(policy: seq<Rule>) {
    forall r :: r in policy ==> !r.keeps && r.body.Where? && r.body.cond.newerThan == None
  }

  /** With them, more is deleted as time passes, never less. */
  lemma TimeOnlyDeletesMore(policy: seq<Rule>, versions: seq<Version>, now: int, later: int)
    requires OnlyAges(policy) && now <= later
    ensures Deleted(policy, versions, now) <= Deleted(policy, versions, later)
  {
    forall k | k in Deleted(policy, versions, now) ensures k in Deleted(policy, versions, later) {
      var repo :| repo in Repos(versions) && k in DeletedIn(policy, OfRepo(repo, versions), now);
      LaterInRepo(policy, OfRepo(repo, versions), now, later, k);
    }
  }

  lemma LaterInRepo(policy: seq<Rule>, versions: seq<Version>, now: int, later: int, k: Key)
    requires OnlyAges(policy) && now <= later && k in DeletedIn(policy, versions, now)
    ensures k in DeletedIn(policy, versions, later)
  {
    var r :| r in policy && !r.keeps && k in Matched(r, versions, now);
    var v :| v in versions && Matches(r.body.cond, v, now) && v.Key() == k;
    assert Matches(r.body.cond, v, later);
    assert k in Matched(r, versions, later);
  }

  // ---------- separate repositories and packages ----------

  /** No package of a repository is in both lists. */
  ghost predicate Separate(a: seq<Version>, b: seq<Version>) {
    forall v, w :: v in a && w in b ==> v.repo != w.repo || v.package != w.package
  }

  lemma {:induction false} OfRepoConcat(repo: Option<string>, a: seq<Version>, b: seq<Version>)
    ensures OfRepo(repo, a + b) == OfRepo(repo, a) + OfRepo(repo, b)
  {
    if a == [] {
      assert a + b == b && OfRepo(repo, a) == [];
    } else {
      OfRepoConcat(repo, a[1..], b);
      HeadAndTail(a, b);
      AppendAssociates(if a[0].repo == repo then [a[0]] else [], OfRepo(repo, a[1..]), OfRepo(repo, b));
    }
  }

  lemma {:induction false} PoolConcat(packages: seq<string>, pkg: string, a: seq<Version>, b: seq<Version>)
    ensures Pool(packages, pkg, a + b) == Pool(packages, pkg, a) + Pool(packages, pkg, b)
  {
    if a == [] {
      assert a + b == b && Pool(packages, pkg, a) == [];
    } else {
      PoolConcat(packages, pkg, a[1..], b);
      HeadAndTail(a, b);
      AppendAssociates(if a[0].package == pkg && InPool(packages, a[0]) then [a[0]] else [],
                       Pool(packages, pkg, a[1..]), Pool(packages, pkg, b));
    }
  }

  lemma SomethingOrNothing<T>(s: seq<T>)
    ensures s == [] || exists x :: x in s
  {
    if s != [] { assert s[0] in s; }
  }

  ghost predicate NoCommonPackage(a: seq<Version>, b: seq<Version>) {
    forall v, w :: v in a && w in b ==> v.package != w.package
  }

  lemma PoolOfOne(packages: seq<string>, pkg: string, a: seq<Version>, b: seq<Version>)
    requires NoCommonPackage(a, b)
    ensures (exists v :: v in a && v.package == pkg) ==> Pool(packages, pkg, a + b) == Pool(packages, pkg, a)
    ensures (exists w :: w in b && w.package == pkg) ==> Pool(packages, pkg, a + b) == Pool(packages, pkg, b)
  {
    PoolConcat(packages, pkg, a, b);
    var p, q := Pool(packages, pkg, a), Pool(packages, pkg, b);
    if v :| v in a && v.package == pkg {
      SomethingOrNothing(q);
    }
    if w :| w in b && w.package == pkg {
      SomethingOrNothing(p);
    }
  }

  lemma MatchedConcat(rule: Rule, a: seq<Version>, b: seq<Version>, now: int)
    requires NoCommonPackage(a, b)
    ensures Matched(rule, a + b, now) == Matched(rule, a, now) + Matched(rule, b, now)
  {
    if rule.body.MostRecent? {
      var packages, n := rule.body.packages, rule.body.keepCount;
      forall v | v in a
        ensures Newest(packages, n, v.package, a + b) == Newest(packages, n, v.package, a)
      {
        PoolOfOne(packages, v.package, a, b);
      }
      forall v | v in b
        ensures Newest(packages, n, v.package, a + b) == Newest(packages, n, v.package, b)
      {
        PoolOfOne(packages, v.package, a, b);
      }
    }
  }

  lemma TakenConcat(policy: seq<Rule>, keeps: bool, a: seq<Version>, b: seq<Version>, now: int)
    requires NoCommonPackage(a, b)
    ensures Taken(policy, keeps, a + b, now) == Taken(policy, keeps, a, now) + Taken(policy, keeps, b, now)
  {
    forall r | r in policy ensures Matched(r, a + b, now) == Matched(r, a, now) + Matched(r, b, now) {
      MatchedConcat(r, a, b, now);
    }
  }

  lemma TakenAreListed(policy: seq<Rule>, keeps: bool, versions: seq<Version>, now: int, k: Key)
    requires k in Taken(policy, keeps, versions, now)
    ensures exists v :: v in versions && v.package == k.0
  {
    var r :| r in policy && r.keeps == keeps && k in Matched(r, versions, now);
    MatchedAreListed(r, versions, now, k);
    var v :| v in versions && v.Key() == k;
  }

  lemma DeletedInConcat(policy: seq<Rule>, a: seq<Version>, b: seq<Version>, now: int)
    requires NoCommonPackage(a, b)
    ensures DeletedIn(policy, a + b, now) == DeletedIn(policy, a, now) + DeletedIn(policy, b, now)
  {
    TakenConcat(policy, false, a, b, now);
    TakenConcat(policy, true, a, b, now);
    forall k | k in Taken(policy, false, a, now) ensures k !in Taken(policy, true, b, now) {
      TakenAreListed(policy, false, a, now, k);
      if k in Taken(policy, true, b, now) { TakenAreListed(policy, true, b, now, k); }
    }
    forall k | k in Taken(policy, false, b, now) ensures k !in Taken(policy, true, a, now) {
      TakenAreListed(policy, false, b, now, k);
      if k in Taken(policy, true, a, now) { TakenAreListed(policy, true, a, now, k); }
    }
  }

  /** Packages are judged apart, and so are repositories, even where they hold a package of the same name. */
  lemma PackagesAreJudgedApart(policy: seq<Rule>, a: seq<Version>, b: seq<Version>, now: int)
    requires Separate(a, b)
    ensures Deleted(policy, a + b, now) == Deleted(policy, a, now) + Deleted(policy, b, now)
  {
    forall k
      ensures k in Deleted(policy, a + b, now) <==> k in Deleted(policy, a, now) || k in Deleted(policy, b, now)
    {
      if k in Deleted(policy, a + b, now) { DeletedApart(policy, a, b, now, k); }
      if k in Deleted(policy, a, now) || k in Deleted(policy, b, now) { DeletedTogether(policy, a, b, now, k); }
    }
  }

  lemma DeletedApart(policy: seq<Rule>, a: seq<Version>, b: seq<Version>, now: int, k: Key)
    requires Separate(a, b) && k in Deleted(policy, a + b, now)
    ensures k in Deleted(policy, a, now) || k in Deleted(policy, b, now)
  {
    var repo := DeletedWhere(policy, a + b, now, k);
    DeletedInRepo(policy, a, b, repo, now);
    if k in DeletedIn(policy, OfRepo(repo, a), now) {
      DeletedSomewhere(policy, a, now, k, repo);
    } else {
      DeletedSomewhere(policy, b, now, k, repo);
    }
  }

  lemma DeletedTogether(policy: seq<Rule>, a: seq<Version>, b: seq<Version>, now: int, k: Key)
    requires Separate(a, b) && (k in Deleted(policy, a, now) || k in Deleted(policy, b, now))
    ensures k in Deleted(policy, a + b, now)
  {
    var repo: Option<string>;
    if k in Deleted(policy, a, now) {
      repo := DeletedWhere(policy, a, now, k);
    } else {
      repo := DeletedWhere(policy, b, now, k);
    }
    DeletedInRepo(policy, a, b, repo, now);
    DeletedSomewhere(policy, a + b, now, k, repo);
  }

  lemma DeletedInRepo(policy: seq<Rule>, a: seq<Version>, b: seq<Version>, repo: Option<string>, now: int)
    requires Separate(a, b)
    ensures DeletedIn(policy, OfRepo(repo, a + b), now) ==
            DeletedIn(policy, OfRepo(repo, a), now) + DeletedIn(policy, OfRepo(repo, b), now)
  {
    OfRepoConcat(repo, a, b);
    DeletedInConcat(policy, OfRepo(repo, a), OfRepo(repo, b), now);
  }

  lemma DeletedWhere(policy: seq<Rule>, versions: seq<Version>, now: int, k: Key) returns (repo: Option<string>)
    requires k in Deleted(policy, versions, now)
    ensures k in DeletedIn(policy, OfRepo(repo, versions), now)
  {
    repo :| repo in Repos(versions) && k in DeletedIn(policy, OfRepo(repo, versions), now);
  }

  lemma DeletedSomewhere(policy: seq<Rule>, versions: seq<Version>, now: int, k: Key, repo: Option<string>)
    requires k in DeletedIn(policy, OfRepo(repo, versions), now)
    ensures k in Deleted(policy, versions, now)
  {
    TakenAreListed(policy, false, OfRepo(repo, versions), now, k);
    assert repo in Repos(versions);
  }

  // ---------- the most recent versions ----------

  /** How many versions from the `j`-th on come before version `i`: the newer ones, and of those created at the
      same moment the ones listed earlier. */
  function Before(versions: seq<Version>, i: nat, j: nat): nat
    requires i < |versions| && j <= |versions|
    decreases |versions| - j
  {
    if j == |versions| then 0
    else
      var v, w := versions[i], versions[j];
      (if w.created > v.created || (w.created == v.created && j < i) then 1 else 0) + Before(versions, i, j + 1)
  }

  /** One package of one repository, no digest twice. */
  ghost predicate OnePackage(versions: seq<Version>) {
    forall i, j :: 0 <= i < j < |versions| ==>
      && versions[i].repo == versions[j].repo && versions[i].package == versions[j].package
      && versions[i].digest != versions[j].digest
  }

  /** How many of `n` versions a count keeps; a negative one leaves that many out. */
  function Kept(keepCount: int, n: nat): int {
    if keepCount >= 0 then keepCount else n + keepCount
  }

  /** Everything is deleted but the most recent: a version of the package stays exactly when fewer than the
      kept number come before it. */
  lemma MostRecentKeepsTheNewest(packages: seq<string>, keepCount: int, versions: seq<Version>, now: int, i: nat)
    requires OnePackage(versions) && i < |versions|
    requires packages == [] || NameBegins(versions[i].package, packages)
    ensures versions[i].Key() in Deleted([DeleteRule("", ANY), Rule("", true, MostRecent(packages, keepCount))],
                                         versions, now)
            <==> Before(versions, i, 0) >= Kept(keepCount, |versions|)
  {
    var policy, v := [DeleteRule("", ANY), Rule("", true, MostRecent(packages, keepCount))], versions[i];
    assert v in versions;
    WholePool(packages, versions, i);
    AllOfOneRepo(versions, v.repo);
    NewestByRank(versions, keepCount, i);
    RankIsBefore(versions, i, 0);
    assert versions[0..] == versions;
    AllButKept(policy, packages, keepCount, versions, now, v);
    OneRepoDeletes(policy, versions, now, v);
  }

  lemma {:induction false} WholePool(packages: seq<string>, versions: seq<Version>, i: nat)
    requires i < |versions|
    requires forall j :: 0 <= j < |versions| ==> versions[j].package == versions[i].package
    requires packages == [] || NameBegins(versions[i].package, packages)
    ensures Pool(packages, versions[i].package, versions) == versions
  {
    BeginsIff(versions[i].package, packages);
    AllInPool(packages, versions[i].package, versions);
  }

  lemma {:induction false} AllInPool(packages: seq<string>, pkg: string, versions: seq<Version>)
    requires packages == [] || AnyPrefix(packages, pkg)
    requires forall j :: 0 <= j < |versions| ==> versions[j].package == pkg
    ensures Pool(packages, pkg, versions) == versions
  {
    if versions != [] { AllInPool(packages, pkg, versions[1..]); }
  }

  lemma {:induction false} AllOfOneRepo(versions: seq<Version>, repo: Option<string>)
    requires forall j :: 0 <= j < |versions| ==> versions[j].repo == repo
    ensures OfRepo(repo, versions) == versions
  {
    if versions != [] { AllOfOneRepo(versions[1..], repo); }
  }

  lemma OneRepoDeletes(policy: seq<Rule>, versions: seq<Version>, now: int, v: Version)
    requires v in versions && OfRepo(v.repo, versions) == versions
    ensures Deleted(policy, versions, now) == DeletedIn(policy, versions, now)
  {
    assert forall w :: w in versions ==> w in OfRepo(v.repo, versions);
    assert v.repo in Repos(versions);
  }

  lemma AllButKept(policy: seq<Rule>, packages: seq<string>, keepCount: int, versions: seq<Version>, now: int,
                   v: Version)
    requires policy == [DeleteRule("", ANY), Rule("", true, MostRecent(packages, keepCount))] && v in versions
    requires OnePackage(versions)
    ensures v.Key() in DeletedIn(policy, versions, now) <==> v !in Newest(packages, keepCount, v.package, versions)
  {
    var all, keep := DeleteRule("", ANY), Rule("", true, MostRecent(packages, keepCount));
    assert all in policy && keep in policy;
    assert v.Key() in Matched(all, versions, now);
    assert Taken(policy, true, versions, now) == Matched(keep, versions, now);
    if v.Key() in Matched(keep, versions, now) {
      var w :| w in versions && w in Newest(packages, keepCount, w.package, versions) && w.Key() == v.Key();
      SameKeySame(versions, v, w);
    }
  }

  lemma SameKeySame(versions: seq<Version>, v: Version, w: Version)
    requires OnePackage(versions) && v in versions && w in versions && v.Key() == w.Key()
    ensures v == w
  {
    var i :| 0 <= i < |versions| && versions[i] == v;
    var j :| 0 <= j < |versions| && versions[j] == w;
  }

  lemma NewerFirstIsAnOrder()
    ensures TotalPreorder(NewerFirst)
  {
  }

  lemma NewestByRank(versions: seq<Version>, keepCount: int, i: nat)
    requires OnePackage(versions) && i < |versions|
    ensures versions[i] in Slice(Sort(NewerFirst, versions), keepCount) <==>
            Rank(NewerFirst, versions, i) < Kept(keepCount, |versions|)
  {
    var sorted, taken := Sort(NewerFirst, versions), Slice(Sort(NewerFirst, versions), keepCount);
    var r := Rank(NewerFirst, versions, i);
    NewerFirstIsAnOrder();
    SortPlaces(NewerFirst, versions, i);
    SortMultiset(NewerFirst, versions);
    assert NoDuplicates(versions);
    PermutationIff(sorted, versions);
    if r < Kept(keepCount, |versions|) {
      assert taken[r] == versions[i];
    }
    if versions[i] in taken {
      var k :| 0 <= k < |taken| && taken[k] == versions[i];
      assert sorted[k] == sorted[r];
    }
  }

  lemma {:induction false} RankIsBefore(versions: seq<Version>, i: nat, j: nat)
    requires j <= i < |versions|
    ensures Rank(NewerFirst, versions[j..], i - j) == Before(versions, i, j)
    decreases i - j
  {
    var rest := versions[j..];
    assert rest[0] == versions[j] && rest[i - j] == versions[i] && rest[1..] == versions[j + 1..];
    if j == i {
      CountIsBefore(versions, i, i + 1);
    } else {
      RankIsBefore(versions, i, j + 1);
    }
  }

  lemma {:induction false} CountIsBefore(versions: seq<Version>, i: nat, j: nat)
    requires i < |versions| && i < j <= |versions|
    ensures CountBefore(NewerFirst, versions[j..], versions[i]) == Before(versions, i, j)
    decreases |versions| - j
  {
    if j < |versions| {
      CountIsBefore(versions, i, j + 1);
      assert versions[j..][1..] == versions[j + 1..] && versions[j..][0] == versions[j];
    }
  }
}

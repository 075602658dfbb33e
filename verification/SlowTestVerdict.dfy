/** The verdict of the slow-file guard over check, rerun and confirm, and over all shards. */
module SlowTestVerdict {
  import opened Text
  import opened Sorting
  import opened SlowTestJudge

  /** What one judgement reads besides the logs. `changed` is the diff, `None` when there is no diff
      information; `direct` the tests the pull request itself touched, `None` when not told apart. */
  datatype Setup = Setup(
    weights: Seconds,
    provisional: set<string>,
    changed: Option<set<string>>,
    direct: Option<set<string>>)
  {
    predicate Registered(f: string) { f in weights && f !in provisional }

    predicate Candidate(f: string) { changed == None || f in changed.value }

    /** Counted as changed only because it imports a changed module. */
    predicate ImportOnly(f: string) { direct.Some? && changed.Some? && f !in direct.value }

    function Exclude(): set<string> { if changed == None then {} else changed.value }

    ghost function RunFactor(elapsed: Seconds): (x: real)
      ensures 1.0 <= x <= RUNNER_FACTOR_CAP
    {
      Factor(ControlRatios(elapsed, weights, Exclude(), provisional))
    }

    /** The judged files over their line at this factor. */
    ghost function Over(elapsed: Seconds, factor: real): set<string> {
      set f | f in elapsed && IsOver(f, elapsed[f], factor)
    }

    /** Over the absolute line, but absorbed by the factor or outside the diff. */
    ghost function WarnedOnly(elapsed: Seconds, factor: real): set<string> {
      set f | f in elapsed && IsWarned(f, elapsed[f], factor)
    }

    predicate IsOver(f: string, sec: real, factor: real) {
      Registered(f) && Candidate(f) && !Within(sec, weights[f], factor)
    }

    predicate IsWarned(f: string, sec: real, factor: real) {
      Registered(f) && sec > AbsoluteLine(weights[f]) && (Candidate(f) ==> Within(sec, weights[f], factor))
    }
  }

  function AbsoluteLine(weight: real): real {
    Max(weight * ABSOLUTE_SLOW_MULTIPLIER, 60.0)
  }

  predicate Within(sec: real, weight: real, factor: real) {
    sec <= AbsoluteLine(weight) * Max(1.0, factor)
  }

  /** Slower than max(3.75 w, 90 s) is over the line for every factor a run can have; at or below
      max(2.5 w, 60 s) never is. */
  lemma LineBounds(sec: real, weight: real, factor: real)
    requires 1.0 <= factor <= RUNNER_FACTOR_CAP
    ensures sec > Max(3.75 * weight, 90.0) ==> !Within(sec, weight, factor)
    ensures sec <= Max(2.5 * weight, 60.0) ==> Within(sec, weight, factor)
  {
    Scale(AbsoluteLine(weight), 1.0, factor);
    Scale(AbsoluteLine(weight), factor, 1.5);
  }

  lemma Scale(line: real, k: real, k': real)
    requires line >= 0.0 && k <= k'
    ensures line * k <= line * k'
  {
  }

  // ---------- the first judgement ----------

  datatype Colour = Fine | Warn | Red

  /** One turn of the loop: unregistered and provisional files are passed over. */
  function Judge(s: Setup, f: string, sec: real, factor: real): (c: Colour)
    ensures c == Red <==> s.IsOver(f, sec, factor)
    ensures c == Warn <==> s.IsWarned(f, sec, factor)
  {
    if f !in s.weights || f in s.provisional then Fine
    else
      var threshold := AbsoluteLine(s.weights[f]);
      Scale(threshold, 1.0, Max(1.0, factor));
      if sec <= threshold then Fine
      else if s.Candidate(f) && sec > threshold * Max(1.0, factor) then Red
      else Warn
  }

  method SlowFilesAbsolute(s: Setup, elapsed: Seconds, factor: real) returns (red: seq<string>, warn: seq<string>)
    ensures SortedListOf(red, s.Over(elapsed, factor)) && |red| == |s.Over(elapsed, factor)|
    ensures SortedListOf(warn, s.WarnedOnly(elapsed, factor))
  {
    red, warn := [], [];
    ghost var over, warned := s.Over(elapsed, factor), s.WarnedOnly(elapsed, factor);
    var todo := elapsed.Keys;
    while todo != {}
      invariant todo <= elapsed.Keys
      invariant NoDuplicates(red) && Elements(red) == over - todo
      invariant NoDuplicates(warn) && Elements(warn) == warned - todo
      decreases |todo|
    {
      var f :| f in todo;
      var c := Judge(s, f, elapsed[f], factor);
      assert (c == Red <==> f in over) && (c == Warn <==> f in warned);
      red := Appended(red, over, todo, f, c == Red);
      warn := Appended(warn, warned, todo, f, c == Warn);
      todo := todo - {f};
    }
    red := SortedNames(red, over);
    warn := SortedNames(warn, warned);
  }

  /** The list of files that had to run: not asked for, asked for but absent, or its names. */
  datatype Listing = NotAsked | Absent | Names(names: seq<string>)

  ghost function ExpectedFiles(l: Listing): set<string> {
    if l.Names? then Elements(l.names) else {}
  }

  ghost predicate FirstRunTrusted(log: Log, listing: Listing) {
    listing != Absent && Trustworthy(log, ExpectedFiles(listing))
  }

  ghost function Direct(s: Setup, files: set<string>): set<string> {
    set f | f in files && !s.ImportOnly(f)
  }

  ghost function Imported(s: Setup, files: set<string>): set<string> {
    set f | f in files && s.ImportOnly(f)
  }

  method SplitDirect(s: Setup, l: seq<string>, ghost files: set<string>)
    returns (direct: seq<string>, imported: seq<string>)
    requires SortedListOf(l, files)
    ensures NoDuplicates(direct) && Elements(direct) == Direct(s, files)
    ensures SortedListOf(imported, Imported(s, files))
  {
    direct, imported := [], [];
    ghost var direct', imported' := {}, {};
    for k := 0 to |l|
      invariant NoDuplicates(direct) && Elements(direct) == direct' == Direct(s, Elements(l[..k]))
      invariant NoDuplicates(imported) && Elements(imported) == imported' == Imported(s, Elements(l[..k]))
    {
      assert l[..k + 1] == l[..k] + [l[k]];
      assert l[k] !in Elements(l[..k]);
      Grown(l[..k], Elements(l[..k]), l[k]);
      if s.ImportOnly(l[k]) {
        Grown(imported, imported', l[k]);
        imported, imported' := imported + [l[k]], imported' + {l[k]};
      } else {
        Grown(direct, direct', l[k]);
        direct, direct' := direct + [l[k]], direct' + {l[k]};
      }
    }
    assert l[..|l|] == l;
    imported := SortedNames(imported, imported');
  }

  /** Exit 0 is green, 1 red, 3 asks for a rerun of `suspects`. `importOver` is the file that carries
      the import-only files over their line to the audit of all shards. */
  method CheckElapsed(s: Setup, log: Log, listing: Listing, canRerun: bool)
    returns (exit: int, suspects: seq<string>, importOver: seq<string>)
    ensures !FirstRunTrusted(log, listing) ==> exit == 1 && importOver == []
    ensures FirstRunTrusted(log, listing) ==>
      var elapsed := Recorded(log.lines);
      var over := s.Over(elapsed, s.RunFactor(elapsed));
      if canRerun && 0 < |over| <= CONFIRM_RERUN_MAX_FILES then
        exit == CONFIRM_RERUN_EXIT && SortedListOf(suspects, over) && importOver == []
      else
        && exit == (if Direct(s, over) == {} then 0 else 1)
        && SortedListOf(importOver, Imported(s, over))
  {
    suspects, importOver := [], [];
    var expected := if listing.Names? then listing.names else [];
    var elapsed, problems := ReadElapsedStrict(log, expected);
    assert Elements(expected) == ExpectedFiles(listing);
    if listing == Absent {
      problems := problems + ["the list of files that had to run is missing"];
    }
    if problems != [] {
      return 1, suspects, importOver;
    }
    var factor := RunnerSpeedFactor(elapsed, s.weights, s.Exclude(), s.provisional);
    var red, warn := SlowFilesAbsolute(s, elapsed, factor);
    ghost var over := s.Over(elapsed, s.RunFactor(elapsed));
    if red != [] && canRerun && |red| <= CONFIRM_RERUN_MAX_FILES {
      return CONFIRM_RERUN_EXIT, red, importOver;
    }
    var direct, imported := SplitDirect(s, red, over);
    assert direct == [] <==> Direct(s, over) == {} by { NoneIffEmpty(direct); }
    importOver := imported;
    exit := if direct != [] then 1 else 0;
  }

  // ---------- the confirmation ----------

  /** The suspects whose rerun is missing or again over the line. */
  ghost function StillOver(weights: Seconds, suspects: set<string>, rerun: Seconds, factor: real): set<string>
    requires suspects <= weights.Keys
  {
    set f | f in suspects && (f in rerun ==> !Within(rerun[f], weights[f], factor))
  }

  /** `None` is the `KeyError` of a suspect without a registered weight. */
  method ConfirmedSlowFiles(suspects: seq<string>, rerun: Seconds, weights: Seconds, factor: real)
    returns (r: Option<(seq<string>, seq<string>)>)
    requires NoDuplicates(suspects)
    ensures r.Some? <==> Elements(suspects) <= weights.Keys
    ensures r.Some? ==> var over := StillOver(weights, Elements(suspects), rerun, factor);
      SortedListOf(r.value.0, over) && SortedListOf(r.value.1, Elements(suspects) - over)
  {
    var confirmed: seq<string>, cleared: seq<string> := [], [];
    ghost var over: set<string>, rest: set<string> := {}, {};
    for k := 0 to |suspects|
      invariant Elements(suspects[..k]) <= weights.Keys
      invariant NoDuplicates(confirmed) && Elements(confirmed) == over
      invariant NoDuplicates(cleared) && Elements(cleared) == rest
      invariant over == StillOver(weights, Elements(suspects[..k]), rerun, factor)
      invariant rest == Elements(suspects[..k]) - over
    {
      var f := suspects[k];
      assert suspects[..k + 1] == suspects[..k] + [f];
      assert f !in Elements(suspects[..k]);
      if f !in weights {
        assert f in Elements(suspects);
        return None;
      }
      Grown(suspects[..k], Elements(suspects[..k]), f);
      var threshold := AbsoluteLine(weights[f]) * Max(1.0, factor);
      if f !in rerun || rerun[f] > threshold {
        Grown(confirmed, over, f);
        confirmed, over := confirmed + [f], over + {f};
      } else {
        Grown(cleared, rest, f);
        cleared, rest := cleared + [f], rest + {f};
      }
    }
    assert suspects[..|suspects|] == suspects;
    confirmed := SortedNames(confirmed, over);
    cleared := SortedNames(cleared, rest);
    r := Some((confirmed, cleared));
  }

  /** `suspects` is the file the check wrote, `noted` the import-over file as it stands. The factor is
      the first run's. */
  method ConfirmElapsed(s: Setup, log: Log, rerun: Log, suspects: seq<string>, noted: seq<string>)
    returns (exit: int, importOver: seq<string>)
    requires NoDuplicates(suspects)
    ensures !(suspects != [] && Trustworthy(log, {}) && Trustworthy(rerun, Elements(suspects))
              && Elements(suspects) <= s.weights.Keys)
            ==> exit == 1 && importOver == noted
    ensures suspects != [] && Trustworthy(log, {}) && Trustworthy(rerun, Elements(suspects))
            && Elements(suspects) <= s.weights.Keys ==>
      var factor := s.RunFactor(Recorded(log.lines));
      var over := StillOver(s.weights, Elements(suspects), Recorded(rerun.lines), factor);
      && exit == (if Direct(s, over) == {} then 0 else 1)
      && if s.direct.Some? && s.changed.Some? then SortedListOf(importOver, Imported(s, over)) else importOver == noted
  {
    importOver := noted;
    var elapsed, firstProblems := ReadElapsedStrict(log, []);
    var again, rerunProblems := ReadElapsedStrict(rerun, suspects);
    assert Elements<string>([]) == {};
    if suspects == [] {
      rerunProblems := rerunProblems + ["the list of suspects is empty or missing"];
    }
    if firstProblems != [] || rerunProblems != [] {
      return 1, importOver;
    }
    var factor := RunnerSpeedFactor(elapsed, s.weights, s.Exclude(), s.provisional);
    var r := ConfirmedSlowFiles(suspects, again, s.weights, factor);
    if r == None {
      return 1, importOver;
    }
    ghost var over := StillOver(s.weights, Elements(suspects), again, factor);
    var direct, imported := SplitDirect(s, r.value.0, over);
    assert direct == [] <==> Direct(s, over) == {} by { NoneIffEmpty(direct); }
    if s.direct.Some? && s.changed.Some? {
      importOver := imported;
    }
    exit := if direct != [] then 1 else 0;
  }

  // ---------- one shard, from the first run to the verdict ----------

  /** Why a judged shard is green: the first run can be trusted, and the files over their line are
      none, or more than five of which none was touched directly, or at most five of which a passing
      and trusted rerun brought every directly touched one back within the first run's line. */
  ghost predicate Green(s: Setup, log: Log, listing: Listing, rerunPassed: bool, rerun: Log) {
    && FirstRunTrusted(log, listing)
    && var elapsed := Recorded(log.lines);
       var factor := s.RunFactor(elapsed);
       var over := s.Over(elapsed, factor);
       if 0 < |over| <= CONFIRM_RERUN_MAX_FILES then
         && rerunPassed && Trustworthy(rerun, over)
         && forall f :: f in over && !s.ImportOnly(f) ==> Within(Recorded(rerun.lines)[f], s.weights[f], factor)
       else
         forall f :: f in over ==> s.ImportOnly(f)
  }

  /** The import-only files a green shard hands to the audit: over the line, and again in the rerun
      when there was one. */
  ghost function Noted(s: Setup, log: Log, rerun: Log): set<string>
  {
    if !log.Lines? then {} else
    var elapsed := Recorded(log.lines);
    var factor := s.RunFactor(elapsed);
    var over := s.Over(elapsed, factor);
    if 0 < |over| <= CONFIRM_RERUN_MAX_FILES then
      Imported(s, StillOver(s.weights, over, if rerun.Lines? then Recorded(rerun.lines) else map[], factor))
    else
      Imported(s, over)
  }

  /** The step of the workflow: check, rerun the suspects when asked to, confirm. `rerunPassed` says
      the rerun loop ended well with no failing test and `rerun` is the log it left. */
  method GuardShard(s: Setup, log: Log, listing: Listing, rerunPassed: bool, rerun: Log)
    returns (green: bool, importOver: seq<string>)
    ensures green <==> Green(s, log, listing, rerunPassed, rerun)
    ensures green ==> SortedListOf(importOver, Noted(s, log, rerun))
  {
    var exit, suspects;
    exit, suspects, importOver := CheckElapsed(s, log, listing, true);
    ghost var trusted := FirstRunTrusted(log, listing);
    ghost var elapsed := if trusted then Recorded(log.lines) else map[];
    ghost var over := s.Over(elapsed, s.RunFactor(elapsed));
    if exit == CONFIRM_RERUN_EXIT {
      NoneIffEmpty(suspects);
      if !rerunPassed {
        exit := 1;
      } else {
        exit, importOver := ConfirmElapsed(s, log, rerun, suspects, importOver);
        if Trustworthy(rerun, over) {
          NoImports(s, StillOver(s.weights, over, Recorded(rerun.lines), s.RunFactor(elapsed)));
          ClearedIff(s, over, Recorded(rerun.lines), s.RunFactor(elapsed));
        }
      }
    } else {
      assert Direct(s, over) == {} <==> forall f :: f in over ==> s.ImportOnly(f) by { DirectIff(s, over); }
    }
    green := exit == 0;
  }

  lemma DirectIff(s: Setup, files: set<string>)
    ensures Direct(s, files) == {} <==> forall f :: f in files ==> s.ImportOnly(f)
  {
    if Direct(s, files) != {} {
      var f :| f in Direct(s, files);
    }
    assert forall f :: f in files && !s.ImportOnly(f) ==> f in Direct(s, files);
  }

  lemma ClearedIff(s: Setup, over: set<string>, again: Seconds, factor: real)
    requires over <= s.weights.Keys && over <= again.Keys
    ensures Direct(s, StillOver(s.weights, over, again, factor)) == {} <==>
            forall f :: f in over && !s.ImportOnly(f) ==> Within(again[f], s.weights[f], factor)
  {
    DirectIff(s, StillOver(s.weights, over, again, factor));
  }

  lemma NoImports(s: Setup, files: set<string>)
    ensures !(s.direct.Some? && s.changed.Some?) ==> SortedListOf([], Imported(s, files))
  {
    assert Elements<string>([]) == {};
  }

  /** A green shard has a record for every expected file, and every directly touched, registered,
      non-provisional one stayed within its line in the first run, or in the rerun at the first
      run's factor. An import-only one did, or is handed to the audit. */
  lemma GreenMeansWithinLine(s: Setup, log: Log, listing: Listing, rerunPassed: bool, rerun: Log, f: string)
    requires Green(s, log, listing, rerunPassed, rerun) && f in ExpectedFiles(listing)
    ensures exists i :: LastGood(log.lines, f, i)
    ensures s.Registered(f) && s.Candidate(f) ==>
      var elapsed := Recorded(log.lines);
      var factor := s.RunFactor(elapsed);
      || Within(elapsed[f], s.weights[f], factor)
      || (rerun.Lines? && f in Recorded(rerun.lines) && Within(Recorded(rerun.lines)[f], s.weights[f], factor))
      || (s.ImportOnly(f) && f in Noted(s, log, rerun))
  {
    RecordedIsLastGood(log.lines, f);
    var elapsed := Recorded(log.lines);
    var factor := s.RunFactor(elapsed);
    var over := s.Over(elapsed, factor);
    if s.IsOver(f, elapsed[f], factor) {
      assert f in over && over != {};
    }
  }

  /** Far over the line in every run the guard can have seen. */
  ghost predicate PersistentlySlow(s: Setup, log: Log, rerun: Log, f: string) {
    && s.Registered(f) && s.Candidate(f)
    && TooSlow(s.weights[f], log, f) && TooSlow(s.weights[f], rerun, f)
  }

  ghost predicate TooSlow(weight: real, log: Log, f: string) {
    log.Lines? ==> f in Recorded(log.lines) ==> Recorded(log.lines)[f] > Max(3.75 * weight, 90.0)
  }

  /** Whatever the control files did, such a file makes its shard red or is handed to the audit. */
  lemma SlowIsNeverLost(s: Setup, log: Log, listing: Listing, rerunPassed: bool, rerun: Log, f: string)
    requires PersistentlySlow(s, log, rerun, f) && f in ExpectedFiles(listing)
    ensures Green(s, log, listing, rerunPassed, rerun) ==> s.ImportOnly(f) && f in Noted(s, log, rerun)
  {
    if Green(s, log, listing, rerunPassed, rerun) {
      GreenMeansWithinLine(s, log, listing, rerunPassed, rerun, f);
      var elapsed := Recorded(log.lines);
      LineBounds(elapsed[f], s.weights[f], s.RunFactor(elapsed));
      if rerun.Lines? && f in Recorded(rerun.lines) {
        LineBounds(Recorded(rerun.lines)[f], s.weights[f], s.RunFactor(elapsed));
      }
    }
  }

  /** A trusted first run in which no judged file passed max(2.5 w, 60 s) is green without a rerun. */
  lemma QuickRunIsGreen(s: Setup, log: Log, listing: Listing, rerunPassed: bool, rerun: Log)
    requires FirstRunTrusted(log, listing)
    requires forall f :: f in Recorded(log.lines) && s.Registered(f) && s.Candidate(f) ==>
               Recorded(log.lines)[f] <= Max(2.5 * s.weights[f], 60.0)
    ensures Green(s, log, listing, rerunPassed, rerun) && Noted(s, log, rerun) == {}
  {
    var elapsed := Recorded(log.lines);
    var factor := s.RunFactor(elapsed);
    forall f | f in elapsed ensures !s.IsOver(f, elapsed[f], factor) {
      if s.Registered(f) { LineBounds(elapsed[f], s.weights[f], factor); }
    }
    assert s.Over(elapsed, factor) == {};
  }

  // ---------- the audit of all shards ----------

  predicate IntLe(a: int, b: int) { a <= b }

  ghost function ShardsWithOver(overByShard: map<int, seq<string>>): set<int> {
    set k | k in overByShard && overByShard[k] != []
  }

  /** The shards whose import-only files went over, when there are at least two of them. */
  method ImportExpandedCrossShardRed(overByShard: map<int, seq<string>>) returns (shards: seq<int>)
    ensures forall i, j :: 0 <= i < j < |shards| ==> shards[i] < shards[j]
    ensures var over := ShardsWithOver(overByShard);
      Elements(shards) == if |over| >= IMPORT_EXPANDED_MIN_SHARDS then over else {}
  {
    shards := [];
    ghost var over := ShardsWithOver(overByShard);
    var todo := overByShard.Keys;
    while todo != {}
      invariant todo <= overByShard.Keys
      invariant NoDuplicates(shards) && Elements(shards) == over - todo
      decreases |todo|
    {
      assert (forall k :: k !in todo) ==> todo == {};
      var k :| k in todo;
      shards := Appended(shards, over, todo, k, overByShard[k] != []);
      todo := todo - {k};
    }
    shards := SortedShards(shards, over);
    if |shards| < IMPORT_EXPANDED_MIN_SHARDS {
      NoneIffEmpty<int>([]);
      shards := [];
    }
  }

  method SortedShards(l: seq<int>, ghost s: set<int>) returns (r: seq<int>)
    requires NoDuplicates(l) && Elements(l) == s
    ensures SortedBy(IntLe, r) && NoDuplicates(r) && Elements(r) == s && |r| == |s|
  {
    r := Sort(IntLe, l);
    SortSorted(IntLe, l);
    SortMultiset(IntLe, l);
    PermutationIff(r, l);
    DistinctCount(r);
  }

  /** One shard of a run, as the guard saw it. */
  datatype ShardRun = ShardRun(setup: Setup, log: Log, listing: Listing, rerunPassed: bool, rerun: Log) {
    ghost predicate IsGreen() { Green(setup, log, listing, rerunPassed, rerun) }
    ghost function Over(): set<string> { Noted(setup, log, rerun) }
  }

  /** Each green shard left the sorted list of its noted files for the audit. */
  ghost predicate Reported(runs: map<int, ShardRun>, overByShard: map<int, seq<string>>) {
    && overByShard.Keys == runs.Keys
    && forall k :: k in runs && runs[k].IsGreen() ==> SortedListOf(overByShard[k], runs[k].Over())
  }

  /** When every shard is green, the audit stays quiet only if at most one shard still has files over:
      files persistently slow in two shards cannot both go unnoticed. */
  lemma SlowInTwoShardsIsRed(runs: map<int, ShardRun>, overByShard: map<int, seq<string>>, p: int, q: int, f: string,
                             g: string)
    requires p in runs && q in runs && p != q && Reported(runs, overByShard)
    requires f in ExpectedFiles(runs[p].listing) && PersistentlySlow(runs[p].setup, runs[p].log, runs[p].rerun, f)
    requires g in ExpectedFiles(runs[q].listing) && PersistentlySlow(runs[q].setup, runs[q].log, runs[q].rerun, g)
    ensures (exists k :: k in runs && !runs[k].IsGreen())
            || |ShardsWithOver(overByShard)| >= IMPORT_EXPANDED_MIN_SHARDS
  {
    var a, b := runs[p], runs[q];
    if a.IsGreen() && b.IsGreen() {
      SlowIsReported(a, overByShard[p], f);
      SlowIsReported(b, overByShard[q], g);
      TwoShardsReport(overByShard, p, q);
    }
  }

  lemma TwoShardsReport(overByShard: map<int, seq<string>>, p: int, q: int)
    requires p in overByShard && q in overByShard && p != q && overByShard[p] != [] && overByShard[q] != []
    ensures |ShardsWithOver(overByShard)| >= IMPORT_EXPANDED_MIN_SHARDS
  {
    SetLe({p, q}, ShardsWithOver(overByShard));
  }

  lemma SlowIsReported(run: ShardRun, reported: seq<string>, f: string)
    requires run.IsGreen() && SortedListOf(reported, run.Over())
    requires f in ExpectedFiles(run.listing) && PersistentlySlow(run.setup, run.log, run.rerun, f)
    ensures reported != []
  {
    SlowIsNeverLost(run.setup, run.log, run.listing, run.rerunPassed, run.rerun, f);
    assert f in run.Over();
  }
}

/** What the guard's verdict means for a single file, in terms of the lists and the logs alone: which files
    the list of directly changed tests protects a shard from, and which it does not. */
module VerdictLaws {
  import opened Text
  import opened Sorting
  import opened SlowTestJudge
  import opened SlowTestVerdict

  /** A log that says the file took longer than the guard can allow, or does not mention the file. */
  ghost predicate FarTooSlow(weight: real, log: Log, f: string) {
    log.Lines? && f in Recorded(log.lines) ==>
      Recorded(log.lines)[f] > 3.75 * weight && Recorded(log.lines)[f] > 90.0
  }

  /** A judged file: registered with a measured weight, and part of the diff if there is one. */
  ghost predicate IsJudged(s: Setup, f: string) {
    f in s.weights && f !in s.provisional && (s.changed == None || f in s.changed.value)
  }

  /** A file that is slow in every run makes its shard red unless both lists are given and it is not in the
      list of directly changed tests. */
  lemma SlowIsRedUnlessImported(s: Setup, log: Log, listing: Listing, rerunPassed: bool, rerun: Log, f: string)
    requires f in ExpectedFiles(listing) && IsJudged(s, f)
    requires FarTooSlow(s.weights[f], log, f) && FarTooSlow(s.weights[f], rerun, f)
    requires s.direct == None || s.changed == None || f in s.direct.value
    ensures !Green(s, log, listing, rerunPassed, rerun)
  {
    assert PersistentlySlow(s, log, rerun, f);
    SlowIsNeverLost(s, log, listing, rerunPassed, rerun, f);
  }

  /** Whatever a green shard hands to the audit was judged, is not among the directly changed tests, and took
      longer than its own absolute line in the first run. */
  lemma NotedIsImported(s: Setup, log: Log, listing: Listing, rerunPassed: bool, rerun: Log, f: string)
    requires Green(s, log, listing, rerunPassed, rerun) && f in Noted(s, log, rerun)
    ensures s.direct.Some? && s.changed.Some? && f in s.changed.value && f !in s.direct.value
    ensures f in s.weights && f !in s.provisional && f in Recorded(log.lines)
    ensures Recorded(log.lines)[f] > 2.5 * s.weights[f] && Recorded(log.lines)[f] > 60.0
  {
    var elapsed := Recorded(log.lines);
    LineBounds(elapsed[f], s.weights[f], s.RunFactor(elapsed));
  }

  /** A file outside that list, both lists given, that is slow in every run leaves a green shard only by being
      handed to the audit. */
  lemma SlowImportedIsNoted(s: Setup, log: Log, listing: Listing, rerunPassed: bool, rerun: Log, f: string)
    requires f in ExpectedFiles(listing) && IsJudged(s, f)
    requires FarTooSlow(s.weights[f], log, f) && FarTooSlow(s.weights[f], rerun, f)
    requires Green(s, log, listing, rerunPassed, rerun)
    ensures f in Noted(s, log, rerun)
  {
    assert PersistentlySlow(s, log, rerun, f);
    SlowIsNeverLost(s, log, listing, rerunPassed, rerun, f);
  }

  /** With both lists given, files outside the list of directly changed tests never make a shard red by being
      slow, however many there are: a trusted first run and a passing and trusted rerun are enough, when every
      directly changed test stays within its own absolute line in the first run. */
  lemma ImportedAloneIsGreen(s: Setup, log: Log, listing: Listing, rerunPassed: bool, rerun: Log)
    requires s.direct.Some? && s.changed.Some? && FirstRunTrusted(log, listing)
    requires forall f :: f in Recorded(log.lines) && f in s.direct.value && IsJudged(s, f) ==>
               Recorded(log.lines)[f] <= 2.5 * s.weights[f] || Recorded(log.lines)[f] <= 60.0
    requires rerunPassed && Trustworthy(rerun, Recorded(log.lines).Keys * s.changed.value)
    ensures Green(s, log, listing, rerunPassed, rerun)
  {
    var elapsed := Recorded(log.lines);
    var factor := s.RunFactor(elapsed);
    var over := s.Over(elapsed, factor);
    forall f | f in over ensures f !in s.direct.value && f in elapsed.Keys * s.changed.value {
      LineBounds(elapsed[f], s.weights[f], factor);
    }
    assert Trustworthy(rerun, over);
  }

  /** A rerun clears up to five files: when no other file is over its own absolute line in the first run, and these
      come back within theirs in a passing and trusted rerun, the shard is green and nothing is handed on. */
  lemma RerunClears(s: Setup, log: Log, listing: Listing, rerun: Log, slow: set<string>)
    requires |slow| <= 5 && FirstRunTrusted(log, listing) && Trustworthy(rerun, slow)
    requires forall f :: f in Recorded(log.lines) && f !in slow && IsJudged(s, f) ==>
               Recorded(log.lines)[f] <= 2.5 * s.weights[f] || Recorded(log.lines)[f] <= 60.0
    requires forall f :: f in slow && f in s.weights ==>
               Recorded(rerun.lines)[f] <= 2.5 * s.weights[f] || Recorded(rerun.lines)[f] <= 60.0
    ensures Green(s, log, listing, true, rerun) && Noted(s, log, rerun) == {}
  {
    var elapsed := Recorded(log.lines);
    var factor := s.RunFactor(elapsed);
    var over := s.Over(elapsed, factor);
    forall f | f in over ensures f in slow && Within(Recorded(rerun.lines)[f], s.weights[f], factor) {
      LineBounds(elapsed[f], s.weights[f], factor);
      LineBounds(Recorded(rerun.lines)[f], s.weights[f], factor);
    }
    SetLe(over, slow);
  }

  /** No rerun helps a shard whose first run cannot be trusted, or whose list of files is missing. */
  lemma GreenIsTrusted(s: Setup, log: Log, listing: Listing, rerunPassed: bool, rerun: Log)
    requires Green(s, log, listing, rerunPassed, rerun)
    ensures listing != Absent && Trustworthy(log, ExpectedFiles(listing))
    ensures !rerunPassed || !Trustworthy(rerun, {}) ==>
              forall f :: f in Recorded(log.lines) && IsJudged(s, f) &&
                          (s.direct == None || s.changed == None || f in s.direct.value) ==>
                Recorded(log.lines)[f] <= 3.75 * s.weights[f] || Recorded(log.lines)[f] <= 90.0
  {
    if !rerunPassed || !Trustworthy(rerun, {}) {
      forall f | f in Recorded(log.lines) && IsJudged(s, f)
                 && (s.direct == None || s.changed == None || f in s.direct.value)
        ensures Recorded(log.lines)[f] <= 3.75 * s.weights[f] || Recorded(log.lines)[f] <= 90.0
      {
        WithoutRerun(s, log, listing, rerunPassed, rerun, f);
      }
    }
  }

  lemma WithoutRerun(s: Setup, log: Log, listing: Listing, rerunPassed: bool, rerun: Log, f: string)
    requires Green(s, log, listing, rerunPassed, rerun) && (!rerunPassed || !Trustworthy(rerun, {}))
    requires f in Recorded(log.lines) && IsJudged(s, f)
    requires s.direct == None || s.changed == None || f in s.direct.value
    ensures Recorded(log.lines)[f] <= 3.75 * s.weights[f] || Recorded(log.lines)[f] <= 90.0
  {
    var elapsed := Recorded(log.lines);
    var factor := s.RunFactor(elapsed);
    LineBounds(elapsed[f], s.weights[f], factor);
    assert Trustworthy(rerun, s.Over(elapsed, factor)) ==> Trustworthy(rerun, {});
    assert f in s.Over(elapsed, factor) <==> !Within(elapsed[f], s.weights[f], factor);
  }

  /** More than five directly changed tests far over their line make the shard red without a rerun. */
  lemma ManySlowAreRed(s: Setup, log: Log, listing: Listing, rerunPassed: bool, rerun: Log,
                       slow: set<string>, f: string)
    requires |slow| > 5 && slow <= ExpectedFiles(listing) && f in slow
    requires forall g :: g in slow ==> IsJudged(s, g) && FarTooSlow(s.weights[g], log, g)
    requires s.direct == None || s.changed == None || f in s.direct.value
    ensures !Green(s, log, listing, rerunPassed, rerun)
  {
    if Green(s, log, listing, rerunPassed, rerun) {
      var elapsed := Recorded(log.lines);
      var factor := s.RunFactor(elapsed);
      forall g | g in slow ensures g in s.Over(elapsed, factor) {
        LineBounds(elapsed[g], s.weights[g], factor);
      }
      SetLe(slow, s.Over(elapsed, factor));
      assert false;
    }
  }

  /** The line of a file is two and a half times its weight, or a minute if that is more, scaled by the factor. */
  lemma LineIs(sec: real, weight: real, factor: real)
    requires factor >= 1.0
    ensures Within(sec, weight, factor) <==> sec <= 2.5 * weight * factor || sec <= 60.0 * factor
  {
    if weight * 2.5 >= 60.0 {
      Scaled(60.0, weight * 2.5, factor);
    } else {
      Scaled(weight * 2.5, 60.0, factor);
    }
  }

  lemma Scaled(a: real, b: real, factor: real)
    requires a <= b && factor >= 0.0
    ensures a * factor <= b * factor
  {
  }

  /** What a log needs to be trusted, line by line: there are entries; every one of them is a finite number that is
      not negative, zero included; and each expected file has one. */
  lemma TrustworthyIff(log: Log, expected: set<string>)
    ensures Trustworthy(log, expected) <==>
            && log != Missing
            && (exists l :: l in log.lines && l.Entry?)
            && (forall l :: l in log.lines && l.Entry? ==> exists sec: real :: l.reading == Finite(sec) && sec >= 0.0)
            && (forall f :: f in expected ==> exists l :: l in log.lines && l.Entry? && l.file == f)
  {
    if log.Lines? {
      forall f | f in expected
        ensures f in Recorded(log.lines) ==> exists l :: l in log.lines && l.Entry? && l.file == f
      {
        RecordedIsLastGood(log.lines, f);
      }
      if forall i :: 0 <= i < |log.lines| ==> Good(log.lines[i]) {
        forall l | l in log.lines && l.Entry? ensures l.file in Recorded(log.lines) {
          var i :| 0 <= i < |log.lines| && log.lines[i] == l;
          LastMention(log.lines, l.file, i);
        }
        forall l | l in log.lines && l.Entry? ensures l.reading == Finite(l.reading.sec) && l.reading.sec >= 0.0 {
          assert Good(l);
        }
      }
    }
  }

  /** In a log of good records every file that is mentioned has a last record. */
  lemma {:induction false} LastMention(lines: seq<Line>, f: string, i: nat)
    requires (forall j :: 0 <= j < |lines| ==> Good(lines[j])) && i < |lines| && lines[i].Entry? && lines[i].file == f
    ensures f in Recorded(lines)
  {
    var n := |lines| - 1;
    if i < n { LastMention(lines[..n], f, i); }
  }

  // ---------- the audit of all shards ----------

  /** The audit turns red at the second shard that reports a file, and not before. */
  lemma AuditIsRedFromTwoOn(overByShard: map<int, seq<string>>)
    ensures |ShardsWithOver(overByShard)| >= IMPORT_EXPANDED_MIN_SHARDS <==>
            exists p, q :: Reports(overByShard, p) && Reports(overByShard, q) && p != q
  {
    var over := ShardsWithOver(overByShard);
    if |over| >= 2 {
      var p := SomeShard(over);
      assert |over - {p}| == |over| - 1;
      var q := SomeShard(over - {p});
      assert Reports(overByShard, p) && Reports(overByShard, q);
    }
    if p, q :| Reports(overByShard, p) && Reports(overByShard, q) && p != q {
      TwoShardsReport(overByShard, p, q);
    }
  }

  lemma SomeShard(shards: set<int>) returns (p: int)
    requires |shards| > 0
    ensures p in shards
  {
    assert (forall k :: k !in shards) ==> shards == {};
    p :| p in shards;
  }

  ghost predicate Reports(overByShard: map<int, seq<string>>, p: int) {
    p in overByShard && overByShard[p] != []
  }
}

/** The check that keeps sibling pull requests from splitting the migration history: no revision id
    and no parent may be shared with the base branch or with another open pull request. */
module RevisionHeads {
  import opened Text

  datatype Revision = Revision(id: string, parents: set<string>)

  /** The literal assigned to `down_revision`. */
  datatype Down = Root | One(parent: string) | Many(parents: seq<Option<string>>)

  function DownRevisionSet(d: Down): set<string> {
    match d
    case Root => {}
    case One(parent) => {parent}
    case Many(parents) => set p | p in parents && p.Some? :: p.value
  }

  /** A file new in the pull request: the four digits its name starts with, if any, the revision id
      assigned in it, `None` when that is not a literal, and its parents. */
  datatype NewFile = NewFile(prefix: Option<string>, id: Option<string>, down: Down) {
    function Read(): Option<Revision> {
      if id == None then None else Some(Revision(id.value, DownRevisionSet(down)))
    }
  }

  function Ids(s: seq<Revision>): set<string> { set r | r in s :: r.id }

  function Parents(s: seq<Revision>): set<string> { set r, p | r in s && p in r.parents :: p }

  /** Revisions no other revision builds on. */
  function Heads(s: seq<Revision>): set<string> { Ids(s) - Parents(s) }

  function Own(files: seq<NewFile>): (own: seq<Revision>)
    ensures forall r :: r in own <==> exists f :: f in files && f.Read() == Some(r)
  {
    if files == [] then []
    else (if files[0].Read().Some? then [files[0].Read().value] else []) + Own(files[1..])
  }

  predicate Misnamed(f: NewFile) {
    f.id.Some? && f.prefix.Some? && f.prefix != f.id
  }

  datatype Error =
    | WrongName(file: NewFile)
    | SameRevision(mine: Revision, other: Revision)
    | SameParent(mine: Revision, other: Revision)

  ghost predicate Apart(mine: seq<Revision>, others: seq<Revision>) {
    Ids(mine) !! Ids(others) && Parents(mine) !! Parents(others)
  }

  method Compare(own: seq<Revision>, others: seq<Revision>) returns (errors: seq<Error>)
    ensures errors == [] <==> Apart(own, others)
  {
    errors := [];
    for i := 0 to |own|
      invariant errors == [] <==> forall k :: 0 <= k < i ==> Apart([own[k]], others)
    {
      var one := CompareOne(own[i], others);
      errors := errors + one;
    }
    ApartByMember(own, others);
  }

  method CompareOne(mine: Revision, others: seq<Revision>) returns (errors: seq<Error>)
    ensures errors == [] <==> Apart([mine], others)
  {
    errors := [];
    for j := 0 to |others|
      invariant errors == [] <==>
                  forall k :: 0 <= k < j ==> others[k].id != mine.id && mine.parents * others[k].parents == {}
    {
      var other := others[j];
      if other.id == mine.id {
        errors := errors + [SameRevision(mine, other)];
      }
      if mine.parents * other.parents != {} && other.id != mine.id {
        errors := errors + [SameParent(mine, other)];
      }
    }
    ApartFromOne(mine, others);
  }

  lemma ApartFromOne(mine: Revision, others: seq<Revision>)
    ensures Apart([mine], others) <==>
            forall k :: 0 <= k < |others| ==> others[k].id != mine.id && mine.parents * others[k].parents == {}
  {
    assert Ids([mine]) == {mine.id} && Parents([mine]) == mine.parents by { assert mine in [mine]; }
    if Apart([mine], others) {
      forall k | 0 <= k < |others| ensures others[k].id != mine.id && mine.parents * others[k].parents == {} {
        assert others[k] in others;
        assert others[k].id in Ids(others) && others[k].parents <= Parents(others);
      }
    }
    if forall k :: 0 <= k < |others| ==> others[k].id != mine.id && mine.parents * others[k].parents == {} {
      forall x | x in Parents(others) ensures x !in mine.parents {
        var r :| r in others && x in r.parents;
        var k :| 0 <= k < |others| && others[k] == r;
        assert x !in mine.parents * others[k].parents;
      }
    }
  }

  lemma ApartByMember(own: seq<Revision>, others: seq<Revision>)
    ensures Apart(own, others) <==> forall k :: 0 <= k < |own| ==> Apart([own[k]], others)
  {
    forall k | 0 <= k < |own| ensures Ids([own[k]]) == {own[k].id} && Parents([own[k]]) == own[k].parents {
      assert own[k] in [own[k]];
    }
    if Apart(own, others) {
      forall k | 0 <= k < |own| ensures Apart([own[k]], others) {
        assert own[k] in own;
        assert own[k].id in Ids(own) && own[k].parents <= Parents(own);
      }
    }
    if forall k :: 0 <= k < |own| ==> Apart([own[k]], others) {
      forall x | x in Ids(own) ensures x !in Ids(others) {
        var k :| 0 <= k < |own| && own[k].id == x;
        assert Apart([own[k]], others);
      }
      forall x | x in Parents(own) ensures x !in Parents(others) {
        var r :| r in own && x in r.parents;
        var k :| 0 <= k < |own| && own[k] == r;
        assert Apart([own[k]], others);
      }
    }
  }

  /** The job: zero when there is nothing new, or nothing clashes. */
  method CheckSiblings(files: seq<NewFile>, base: seq<Revision>, siblings: seq<Revision>) returns (exit: int)
    ensures exit == 0 || exit == 1
    ensures exit == 0 <==> (forall f :: f in files ==> !Misnamed(f)) && Apart(Own(files), base + siblings)
    ensures exit == 0 <==>
            && (forall f :: f in files && f.id != None && f.prefix != None ==> f.prefix == f.id)
            && (forall f :: f in files ==> Clear(f, base + siblings))
  {
    PassesIff(files, base + siblings);
    if files == [] {
      return 0;
    }
    var own := Own(files);
    var errors: seq<Error> := [];
    for i := 0 to |files|
      invariant errors == [] <==> forall k :: 0 <= k < i ==> !Misnamed(files[k])
    {
      if Misnamed(files[i]) {
        errors := errors + [WrongName(files[i])];
      }
    }
    var clashes := Compare(own, base + siblings);
    errors := errors + clashes;
    exit := if errors == [] then 0 else 1;
  }

  /** `p` is named as a parent. */
  ghost predicate Names(d: Down, p: string) {
    d == One(p) || (d.Many? && Some(p) in d.parents)
  }

  /** No other revision has the id of the file or a parent the file names; a file whose id cannot be read is
      passed over. */
  ghost predicate Clear(f: NewFile, others: seq<Revision>) {
    f.id != None ==>
      forall r :: r in others ==> r.id != f.id.value && forall p :: p in r.parents ==> !Names(f.down, p)
  }

  /** What it means for the check to end with zero, file by file: the four digits a name starts with are the
      revision id of the file, and the file is clear of the others. */
  lemma PassesIff(files: seq<NewFile>, others: seq<Revision>)
    ensures (forall f :: f in files ==> !Misnamed(f)) && Apart(Own(files), others) <==>
            && (forall f :: f in files && f.id != None && f.prefix != None ==> f.prefix == f.id)
            && (forall f :: f in files ==> Clear(f, others))
  {
    if Apart(Own(files), others) {
      forall f | f in files ensures Clear(f, others) { ApartIsClear(files, others, f); }
    }
    if forall f :: f in files ==> Clear(f, others) {
      ClearIsApart(files, others);
    }
    if forall f :: f in files ==> !Misnamed(f) {
      forall f | f in files && f.id != None && f.prefix != None ensures f.prefix == f.id {
        assert !Misnamed(f);
      }
    }
  }

  lemma ApartIsClear(files: seq<NewFile>, others: seq<Revision>, f: NewFile)
    requires Apart(Own(files), others) && f in files
    ensures Clear(f, others)
  {
    if f.id != None {
      var mine := Revision(f.id.value, DownRevisionSet(f.down));
      assert f.Read() == Some(mine) && mine in Own(files);
      NamesIff(f.down);
      forall r | r in others ensures r.id != f.id.value && forall p :: p in r.parents ==> !Names(f.down, p) {
        assert mine.id in Ids(Own(files)) && mine.parents <= Parents(Own(files));
        assert r.id in Ids(others) && r.parents <= Parents(others);
      }
    }
  }

  lemma ClearIsApart(files: seq<NewFile>, others: seq<Revision>)
    requires forall f :: f in files ==> Clear(f, others)
    ensures Apart(Own(files), others)
  {
    if !Apart(Own(files), others) {
      var mine, r := Clash(Own(files), others);
      var f :| f in files && f.Read() == Some(mine);
      NamesIff(f.down);
      assert false;
    }
  }

  lemma Clash(own: seq<Revision>, others: seq<Revision>) returns (mine: Revision, other: Revision)
    requires !Apart(own, others)
    ensures mine in own && other in others
    ensures mine.id == other.id || exists p :: p in mine.parents && p in other.parents
  {
    if x :| x in Ids(own) && x in Ids(others) {
      mine :| mine in own && mine.id == x;
      other :| other in others && other.id == x;
    } else {
      var p :| p in Parents(own) && p in Parents(others);
      mine :| mine in own && p in mine.parents;
      other :| other in others && p in other.parents;
    }
  }

  lemma NamesIff(d: Down)
    ensures forall p :: p in DownRevisionSet(d) <==> Names(d, p)
  {
    forall p ensures p in DownRevisionSet(d) <==> Names(d, p) {
      if d.Many? && Some(p) in d.parents { assert Some(p).value in DownRevisionSet(d); }
    }
  }

  // ---------- counting heads ----------

  /** The parents of new revisions that exist once the two lists are merged. */
  ghost function ParentsFound(own: seq<Revision>, base: seq<Revision>): set<string> {
    Parents(own) * (Ids(base) + Ids(own))
  }

  ghost predicate ParentsPresent(own: seq<Revision>, base: seq<Revision>) {
    Parents(own) <= Ids(base) + Ids(own)
  }

  lemma MergedSets(base: seq<Revision>, own: seq<Revision>)
    ensures Ids(base + own) == Ids(base) + Ids(own)
    ensures Parents(base + own) == Parents(base) + Parents(own)
  {
    assert forall r :: r in base + own <==> r in base || r in own;
  }

  /** The balance of heads when a pull request that passed is merged: each new id is a head unless built
      on, each existing parent of a new revision stops being one, and so does a new id the base already
      builds on. */
  lemma HeadBalance(base: seq<Revision>, own: seq<Revision>)
    requires Apart(own, base)
    ensures |Heads(base + own)| + |ParentsFound(own, base)| + |Parents(base) * Ids(own)| == |Heads(base)| + |Ids(own)|
  {
    MergedSets(base, own);
    var all, found := Ids(base) + Ids(own), ParentsFound(own, base);
    SetBalance(Ids(base), Ids(own), Parents(base), found);
    assert Heads(base + own) == all - (Parents(base) + found);
  }

  lemma SetBalance(ib: set<string>, io: set<string>, pb: set<string>, po: set<string>)
    requires ib !! io && pb !! po && po <= ib + io
    ensures |(ib + io) - (pb + po)| + |po| + |pb * io| == |ib - pb| + |io|
  {
    var rest := (ib - pb) + (io - pb);
    assert |rest| == |ib - pb| + |io - pb|;
    assert io == (io - pb) + pb * io && |io| == |io - pb| + |pb * io|;
    var left := (ib + io) - (pb + po);
    assert rest == left + po;
    assert |left + po| == |left| + |po|;
  }

  /** A pull request that passed leaves the number of heads as it was exactly when it adds as many distinct
      ids as it builds on distinct existing parents, new ids the base already builds on counted among
      the latter. Nothing else is asked of the pull request or of the base. */
  lemma HeadsPreservedIff(base: seq<Revision>, own: seq<Revision>)
    requires Apart(own, base)
    ensures |Heads(base + own)| == |Heads(base)| <==>
            |Ids(own)| == |ParentsFound(own, base)| + |Parents(base) * Ids(own)|
  {
    HeadBalance(base, own);
  }

  ghost predicate OneParentEach(own: seq<Revision>) {
    forall i :: 0 <= i < |own| ==> OneParent(own[i])
  }

  ghost predicate OneParent(r: Revision) { exists p :: r.parents == {p} }

  ghost predicate DistinctIds(own: seq<Revision>) {
    forall i, j :: 0 <= i < j < |own| ==> own[i].id != own[j].id
  }

  ghost predicate DistinctParents(own: seq<Revision>) {
    forall i, j :: 0 <= i < j < |own| ==> own[i].parents !! own[j].parents
  }

  lemma {:induction false} IdCount(own: seq<Revision>)
    requires DistinctIds(own)
    ensures |Ids(own)| == |own|
  {
    if own != [] {
      var n := |own| - 1;
      var before := own[..n];
      IdCount(before);
      assert own == before + [own[n]];
      assert Ids(own) == Ids(before) + {own[n].id} by { MergedSets(before, [own[n]]); assert own[n] in [own[n]]; }
      assert own[n].id !in Ids(before);
    }
  }

  lemma {:induction false} ParentCount(own: seq<Revision>)
    requires OneParentEach(own)
    ensures |Parents(own)| <= |own|
    ensures |Parents(own)| == |own| <==> DistinctParents(own)
  {
    if own != [] {
      var n := |own| - 1;
      var before := own[..n];
      ParentCount(before);
      assert OneParent(own[n]);
      var p :| own[n].parents == {p};
      LastParent(own, p);
      var some := Parents(before);
      if p in some {
        assert some + {p} == some;
      } else {
        assert |some + {p}| == |some| + 1;
      }
    }
  }

  lemma LastParent(own: seq<Revision>, p: string)
    requires own != [] && own[|own| - 1].parents == {p}
    ensures Parents(own) == Parents(own[..|own| - 1]) + {p}
    ensures DistinctParents(own) <==> DistinctParents(own[..|own| - 1]) && p !in Parents(own[..|own| - 1])
  {
    var n := |own| - 1;
    var before := own[..n];
    assert own == before + [own[n]];
    MergedSets(before, [own[n]]);
    Singleton(own[n]);
    if DistinctParents(own) {
      forall r | r in before ensures p !in r.parents {
        var i :| 0 <= i < n && before[i] == r;
        assert own[i].parents !! own[n].parents;
      }
    }
    if DistinctParents(before) && p !in Parents(before) {
      forall i | 0 <= i < n ensures own[i].parents !! own[n].parents {
        assert own[i] == before[i] && before[i] in before;
      }
    }
  }

  /** With a complete base, and one present parent and an id of its own for every new revision, the number
      of heads never falls, and stays exactly when the new revisions do not share a parent. */
  lemma HeadsWithOwnIds(base: seq<Revision>, own: seq<Revision>)
    requires Apart(own, base) && ParentsPresent(own, base) && Parents(base) <= Ids(base)
    requires OneParentEach(own) && DistinctIds(own)
    ensures |Heads(base + own)| == |Heads(base)| <==> DistinctParents(own)
    ensures |Heads(base + own)| >= |Heads(base)|
  {
    HeadBalance(base, own);
    IdCount(own);
    ParentCount(own);
    assert Parents(base) * Ids(own) == {} && ParentsFound(own, base) == Parents(own);
  }

  /** Accepted although it splits the history: two new revisions on one parent. */
  method OwnClashIsAccepted() returns (exit: int, base: seq<Revision>, files: seq<NewFile>)
    ensures exit == 0
    ensures ParentsPresent(Own(files), base) && OneParentEach(Own(files)) && DistinctIds(Own(files))
    ensures |Heads(base)| == 1 && |Heads(base + Own(files))| == 2
  {
    exit, base, files := CheckOwnClash("0001", "0002", "0003");
  }

  method CheckOwnClash(root: string, a: string, b: string)
    returns (exit: int, base: seq<Revision>, files: seq<NewFile>)
    requires root != a && root != b && a != b
    ensures exit == 0
    ensures ParentsPresent(Own(files), base) && OneParentEach(Own(files)) && DistinctIds(Own(files))
    ensures |Heads(base)| == 1 && |Heads(base + Own(files))| == 2
  {
    base := [Revision(root, {})];
    files := [NewFile(Some(a), Some(a), One(root)), NewFile(Some(b), Some(b), One(root))];
    TwoFiles(files, Revision(a, {root}), Revision(b, {root}));
    OwnClash(base[0], Revision(a, {root}), Revision(b, {root}));
    assert base + [] == base;
    exit := CheckSiblings(files, base, []);
  }

  lemma OwnClash(root: Revision, a: Revision, b: Revision)
    requires root.parents == {} && a.parents == b.parents == {root.id}
    requires root.id != a.id && root.id != b.id && a.id != b.id
    ensures var own := [a, b];
            && Apart(own, [root]) && ParentsPresent(own, [root]) && OneParentEach(own) && DistinctIds(own)
            && |Heads([root])| == 1 && |Heads([root] + own)| == 2
  {
    Singleton(root);
    TwoRevisions(a, b);
    MergedSets([root], [a, b]);
    assert OneParent(a) && OneParent(b);
    assert Heads([root]) == {root.id};
    assert Heads([root] + [a, b]) == {a.id, b.id};
  }

  /** Accepted although it joins two heads in one id: the same new id twice. */
  method RepeatedIdIsAccepted() returns (exit: int, base: seq<Revision>, files: seq<NewFile>)
    ensures exit == 0
    ensures ParentsPresent(Own(files), base) && OneParentEach(Own(files)) && !DistinctIds(Own(files))
    ensures |Heads(base)| == 2 && |Heads(base + Own(files))| == 1
  {
    exit, base, files := CheckRepeatedId("0001", "0003", "0002");
  }

  method CheckRepeatedId(x: string, y: string, id: string) returns (exit: int, base: seq<Revision>, files: seq<NewFile>)
    requires x != y && id != x && id != y
    ensures exit == 0
    ensures ParentsPresent(Own(files), base) && OneParentEach(Own(files)) && !DistinctIds(Own(files))
    ensures |Heads(base)| == 2 && |Heads(base + Own(files))| == 1
  {
    var a, b := Revision(id, {x}), Revision(id, {y});
    base := [Revision(x, {}), Revision(y, {})];
    files := [NewFile(None, Some(id), One(x)), NewFile(None, Some(id), One(y))];
    TwoFiles(files, a, b);
    RepeatedId(base[0], base[1], a, b);
    assert base + [] == base;
    exit := CheckSiblings(files, base, []);
  }

  lemma RepeatedId(x: Revision, y: Revision, a: Revision, b: Revision)
    requires x.parents == y.parents == {} && a.parents == {x.id} && b.parents == {y.id}
    requires x.id != y.id && a.id == b.id && a.id != x.id && a.id != y.id
    ensures var own := [a, b];
            && Apart(own, [x, y]) && ParentsPresent(own, [x, y]) && OneParentEach(own) && !DistinctIds(own)
            && |Heads([x, y])| == 2 && |Heads([x, y] + own)| == 1
  {
    TwoRevisions(x, y);
    TwoRevisions(a, b);
    MergedSets([x, y], [a, b]);
    assert OneParent(a) && OneParent(b);
    assert Heads([x, y]) == {x.id, y.id};
    assert Heads([x, y] + [a, b]) == {a.id};
    assert [a, b][0].id == [a, b][1].id;
  }

  lemma {:induction false} TwoFiles(files: seq<NewFile>, a: Revision, b: Revision)
    requires |files| == 2 && files[0].Read() == Some(a) && files[1].Read() == Some(b)
    ensures Own(files) == [a, b]
  {
    assert files[1..][1..] == [];
    assert Own(files[1..]) == [b] + Own(files[1..][1..]);
  }

  lemma Singleton(r: Revision)
    ensures Ids([r]) == {r.id} && Parents([r]) == r.parents
  {
    assert r in [r];
  }

  lemma TwoRevisions(a: Revision, b: Revision)
    ensures Ids([a, b]) == {a.id, b.id} && Parents([a, b]) == a.parents + b.parents
  {
    assert [a, b] == [a] + [b];
    MergedSets([a], [b]);
    Singleton(a);
    Singleton(b);
  }

  // ---------- several pull requests ----------

  function Merged(prs: seq<seq<Revision>>): seq<Revision> {
    if prs == [] then [] else Merged(prs[..|prs| - 1]) + prs[|prs| - 1]
  }

  /** Each pull request passed against the base and against every other one. */
  ghost predicate PairwiseClean(base: seq<Revision>, prs: seq<seq<Revision>>) {
    && (forall i :: 0 <= i < |prs| ==> Apart(prs[i], base))
    && (forall i, j :: 0 <= i < j < |prs| ==> Apart(prs[i], prs[j]))
  }

  ghost predicate NoOwnClash(own: seq<Revision>) {
    OneParentEach(own) && DistinctIds(own) && DistinctParents(own)
  }

  lemma {:induction false} MergedIsApart(prs: seq<seq<Revision>>, others: seq<Revision>)
    requires forall i :: 0 <= i < |prs| ==> Apart(prs[i], others)
    ensures Apart(Merged(prs), others)
  {
    if prs != [] {
      var n := |prs| - 1;
      MergedIsApart(prs[..n], others);
      assert Apart(prs[n], others);
      MergedSets(Merged(prs[..n]), prs[n]);
    }
  }

  lemma JoinedHasNoClash(a: seq<Revision>, b: seq<Revision>)
    requires NoOwnClash(a) && NoOwnClash(b) && Apart(a, b)
    ensures NoOwnClash(a + b)
  {
    var c := a + b;
    forall i | 0 <= i < |c| ensures OneParent(c[i]) {
      if i >= |a| { assert c[i] == b[i - |a|]; } else { assert c[i] == a[i]; }
    }
    forall i, j | 0 <= i < j < |c| ensures c[i].id != c[j].id && c[i].parents !! c[j].parents {
      if j < |a| {
        assert c[i] == a[i] && c[j] == a[j];
      } else if i >= |a| {
        assert c[i] == b[i - |a|] && c[j] == b[j - |a|];
      } else {
        assert c[i] in a && c[j] in b;
        assert c[i].id in Ids(a) && c[j].id in Ids(b);
        assert c[i].parents <= Parents(a) && c[j].parents <= Parents(b);
      }
    }
  }

  lemma {:induction false} MergedHasNoClash(base: seq<Revision>, prs: seq<seq<Revision>>)
    requires PairwiseClean(base, prs) && forall i :: 0 <= i < |prs| ==> NoOwnClash(prs[i])
    ensures NoOwnClash(Merged(prs))
  {
    if prs != [] {
      var n := |prs| - 1;
      var before := prs[..n];
      MergedHasNoClash(base, before);
      forall i | 0 <= i < n ensures Apart(before[i], prs[n]) {
        assert Apart(prs[i], prs[n]);
      }
      MergedIsApart(before, prs[n]);
      JoinedHasNoClash(Merged(before), prs[n]);
    }
  }

  /** Any set of pull requests that passed against the base and against one another can be merged
      together without changing the number of heads. */
  lemma CleanTogether(base: seq<Revision>, prs: seq<seq<Revision>>)
    requires Parents(base) <= Ids(base) && PairwiseClean(base, prs) && ParentsPresent(Merged(prs), base)
    requires forall i :: 0 <= i < |prs| ==> NoOwnClash(prs[i])
    ensures |Heads(base + Merged(prs))| == |Heads(base)|
  {
    MergedIsApart(prs, base);
    MergedHasNoClash(base, prs);
    HeadsWithOwnIds(base, Merged(prs));
  }
}

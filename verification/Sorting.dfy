/** Stable sorting, the order of names, and sums that do not depend on order. */
module Sorting {

  // ---------- stable sort by a total preorder ----------

  ghost predicate TotalPreorder<T(!new)>(le: (T, T) -> bool) {
    && (forall x, y :: le(x, y) || le(y, x))
    && (forall x, y, z :: le(x, y) && le(y, z) ==> le(x, z))
  }

  ghost predicate Antisymmetric<T(!new)>(le: (T, T) -> bool) {
    forall x, y :: le(x, y) && le(y, x) ==> x == y
  }

  ghost predicate SortedBy<T>(le: (T, T) -> bool, s: seq<T>) {
    forall i, j :: 0 <= i < j < |s| ==> le(s[i], s[j])
  }

  function Insert<T>(le: (T, T) -> bool, x: T, s: seq<T>): seq<T> {
    if s == [] || le(x, s[0]) then [x] + s else [s[0]] + Insert(le, x, s[1..])
  }

  /** Python's `sorted`: elements that compare equal keep their order. */
  function Sort<T>(le: (T, T) -> bool, s: seq<T>): (r: seq<T>)
    ensures |r| == |s|
  {
    if s == [] then []
    else
      var r := Insert(le, s[0], Sort(le, s[1..]));
      InsertSize(le, s[0], Sort(le, s[1..]));
      r
  }

  lemma {:induction false} InsertSize<T>(le: (T, T) -> bool, x: T, s: seq<T>)
    ensures |Insert(le, x, s)| == |s| + 1
  {
    if s != [] && !le(x, s[0]) { InsertSize(le, x, s[1..]); }
  }

  lemma {:induction false} InsertMultiset<T>(le: (T, T) -> bool, x: T, s: seq<T>)
    ensures multiset(Insert(le, x, s)) == multiset(s) + multiset{x}
  {
    if s != [] && !le(x, s[0]) {
      InsertMultiset(le, x, s[1..]);
      assert s == [s[0]] + s[1..];
    }
  }

  lemma {:induction false} SortMultiset<T>(le: (T, T) -> bool, s: seq<T>)
    ensures multiset(Sort(le, s)) == multiset(s)
  {
    if s != [] {
      SortMultiset(le, s[1..]);
      InsertMultiset(le, s[0], Sort(le, s[1..]));
      assert s == [s[0]] + s[1..];
    }
  }

  lemma {:induction false} InsertSorted<T(!new)>(le: (T, T) -> bool, x: T, s: seq<T>)
    requires TotalPreorder(le) && SortedBy(le, s)
    ensures SortedBy(le, Insert(le, x, s))
  {
    if s == [] {
    } else if le(x, s[0]) {
      assert forall j :: 0 <= j < |s| ==> le(x, s[j]);
    } else {
      var t := Insert(le, x, s[1..]);
      InsertSorted(le, x, s[1..]);
      InsertMultiset(le, x, s[1..]);
      forall j | 0 <= j < |t| ensures le(s[0], t[j]) {
        assert t[j] in multiset(t);
        assert t[j] == x || t[j] in s[1..];
      }
    }
  }

  lemma {:induction false} SortSorted<T(!new)>(le: (T, T) -> bool, s: seq<T>)
    requires TotalPreorder(le)
    ensures SortedBy(le, Sort(le, s))
  {
    if s != [] {
      SortSorted(le, s[1..]);
      InsertSorted(le, s[0], Sort(le, s[1..]));
    }
  }

  /** How many elements of `t` come strictly before `x`. */
  function CountBefore<T>(le: (T, T) -> bool, t: seq<T>, x: T): nat {
    if t == [] then 0 else (if le(x, t[0]) then 0 else 1) + CountBefore(le, t[1..], x)
  }

  /** How many elements come before element `i`: those strictly before it, and of its equals the earlier ones. */
  function Rank<T>(le: (T, T) -> bool, s: seq<T>, i: nat): nat
    requires i < |s|
  {
    if i == 0 then CountBefore(le, s[1..], s[0])
    else (if le(s[0], s[i]) then 1 else 0) + Rank(le, s[1..], i - 1)
  }

  lemma {:induction false} CountInSorted<T(!new)>(le: (T, T) -> bool, t: seq<T>, x: T)
    requires TotalPreorder(le) && SortedBy(le, t)
    ensures CountBefore(le, t, x) <= |t|
    ensures forall j :: 0 <= j < |t| ==> (j < CountBefore(le, t, x) <==> !le(x, t[j]))
    ensures Insert(le, x, t) == t[..CountBefore(le, t, x)] + [x] + t[CountBefore(le, t, x)..]
  {
    if t != [] {
      CountInSorted(le, t[1..], x);
      if le(x, t[0]) {
        assert forall j :: 0 <= j < |t| ==> le(x, t[j]);
        NoneBefore(le, t, x);
      }
    }
  }

  lemma {:induction false} NoneBefore<T>(le: (T, T) -> bool, t: seq<T>, x: T)
    requires forall j :: 0 <= j < |t| ==> le(x, t[j])
    ensures CountBefore(le, t, x) == 0
  {
    if t != [] { NoneBefore(le, t[1..], x); }
  }

  lemma {:induction false} CountPermuted<T>(le: (T, T) -> bool, s: seq<T>, t: seq<T>, x: T)
    requires multiset(s) == multiset(t)
    ensures CountBefore(le, s, x) == CountBefore(le, t, x)
  {
    var f: T -> real := y => if le(x, y) then 0.0 else 1.0;
    CountIsSum(le, s, x, f);
    CountIsSum(le, t, x, f);
    SumPermuted(f, s, t);
  }

  lemma {:induction false} CountIsSum<T>(le: (T, T) -> bool, t: seq<T>, x: T, f: T -> real)
    requires forall y :: f(y) == if le(x, y) then 0.0 else 1.0
    ensures CountBefore(le, t, x) as real == SumOf(f, t)
  {
    if t != [] { CountIsSum(le, t[1..], x, f); }
  }

  /** Sorting puts every element at its rank; equal elements keep their order. */
  lemma {:induction false} SortPlaces<T(!new)>(le: (T, T) -> bool, s: seq<T>, i: nat)
    requires TotalPreorder(le) && i < |s|
    ensures Rank(le, s, i) < |s| && Sort(le, s)[Rank(le, s, i)] == s[i]
    decreases |s|
  {
    var x, t := s[0], Sort(le, s[1..]);
    var k := CountBefore(le, t, x);
    SortSorted(le, s[1..]);
    SortMultiset(le, s[1..]);
    CountInSorted(le, t, x);
    CountPermuted(le, t, s[1..], x);
    if i > 0 {
      SortPlaces(le, s[1..], i - 1);
      InsertedAt(t, x, k, Rank(le, s[1..], i - 1));
    }
  }

  /** Inserting at `k` moves what is there or later by one. */
  lemma InsertedAt<T>(t: seq<T>, x: T, k: nat, p: nat)
    requires k <= |t| && p < |t|
    ensures (t[..k] + [x] + t[k..])[if p < k then p else p + 1] == t[p]
  {
  }

  /** With a total order there is only one sorted arrangement. */
  lemma {:induction false} SortedIsUnique<T(!new)>(le: (T, T) -> bool, s: seq<T>, t: seq<T>)
    requires TotalPreorder(le) && Antisymmetric(le)
    requires SortedBy(le, s) && SortedBy(le, t) && multiset(s) == multiset(t)
    ensures s == t
  {
    if s == [] {
      assert |multiset(t)| == 0;
    } else {
      SameLeast(le, s, t);
      SameRest(s, t);
      SortedIsUnique(le, s[1..], t[1..]);
    }
  }

  lemma SameLeast<T(!new)>(le: (T, T) -> bool, s: seq<T>, t: seq<T>)
    requires TotalPreorder(le) && Antisymmetric(le)
    requires SortedBy(le, s) && SortedBy(le, t) && multiset(s) == multiset(t) && s != []
    ensures t != [] && s[0] == t[0]
  {
    assert |multiset(t)| == |s|;
    assert s[0] in multiset(t) && t[0] in multiset(s);
    assert le(s[0], t[0]) && le(t[0], s[0]);
  }

  lemma SameRest<T>(s: seq<T>, t: seq<T>)
    requires multiset(s) == multiset(t) && s != [] && t != [] && s[0] == t[0]
    ensures multiset(s[1..]) == multiset(t[1..])
  {
    assert s == [s[0]] + s[1..] && t == [t[0]] + t[1..];
    assert multiset(s[1..]) == multiset(s) - multiset{s[0]};
    assert multiset(t[1..]) == multiset(t) - multiset{t[0]};
  }

  // ---------- names ----------

  /** Code-point order of strings, as Python compares them. */
  predicate NameLe(a: string, b: string) {
    a == "" || (b != "" && (a[0] < b[0] || (a[0] == b[0] && NameLe(a[1..], b[1..]))))
  }

  lemma {:induction false} NameTotal(a: string, b: string)
    ensures NameLe(a, b) || NameLe(b, a)
  {
    if a != "" && b != "" { NameTotal(a[1..], b[1..]); }
  }

  lemma {:induction false} NameTransitive(a: string, b: string, c: string)
    ensures NameLe(a, b) && NameLe(b, c) ==> NameLe(a, c)
  {
    if a != "" && b != "" && c != "" { NameTransitive(a[1..], b[1..], c[1..]); }
  }

  lemma {:induction false} NameAntisymmetric(a: string, b: string)
    ensures NameLe(a, b) && NameLe(b, a) ==> a == b
  {
    if a != "" && b != "" {
      NameAntisymmetric(a[1..], b[1..]);
      assert a == [a[0]] + a[1..] && b == [b[0]] + b[1..];
    }
  }

  lemma NamesAreTotallyOrdered()
    ensures TotalPreorder(NameLe) && Antisymmetric(NameLe)
  {
    forall a, b ensures NameLe(a, b) || NameLe(b, a) { NameTotal(a, b); }
    forall a, b, c ensures NameLe(a, b) && NameLe(b, c) ==> NameLe(a, c) { NameTransitive(a, b, c); }
    forall a, b ensures NameLe(a, b) && NameLe(b, a) ==> a == b { NameAntisymmetric(a, b); }
  }

  /** Dictionary order: a name comes before those it begins, and otherwise the first difference decides. */
  lemma {:induction false} NameLeIff(a: string, b: string)
    ensures NameLe(a, b) <==>
            (exists rest: string :: b == a + rest)
            || exists k: nat :: k < |a| && k < |b| && a[..k] == b[..k] && a[k] < b[k]
    decreases |a|
  {
    if a == "" {
      assert b == a + b;
    } else if b != "" && a[0] == b[0] {
      NameLeIff(a[1..], b[1..]);
      NameLeCons(a, b);
    } else if b != "" && a[0] < b[0] {
      assert a[..0] == b[..0];
    }
  }

  lemma NameLeCons(a: string, b: string)
    requires a != "" && b != "" && a[0] == b[0]
    ensures (exists rest: string :: b[1..] == a[1..] + rest) <==> (exists rest: string :: b == a + rest)
    ensures (exists k: nat :: k < |a[1..]| && k < |b[1..]| && a[1..][..k] == b[1..][..k] && a[1..][k] < b[1..][k]) <==>
            (exists k: nat :: k < |a| && k < |b| && a[..k] == b[..k] && a[k] < b[k])
  {
    BeginsCons(a, b, a[1..], b[1..]);
    DiffersCons(a, b, a[1..], b[1..]);
  }

  lemma BeginsCons(a: string, b: string, x: string, y: string)
    requires a != "" && b != "" && a[0] == b[0] && x == a[1..] && y == b[1..]
    ensures (exists rest: string :: y == x + rest) <==> (exists rest: string :: b == a + rest)
  {
    assert a == [a[0]] + x && b == [a[0]] + y;
    if rest: string :| y == x + rest {
      assert b == a + rest;
    }
    if rest: string :| b == a + rest {
      assert y == x + rest;
    }
  }

  lemma DiffersCons(a: string, b: string, x: string, y: string)
    requires a != "" && b != "" && a[0] == b[0] && x == a[1..] && y == b[1..]
    ensures (exists k: nat :: k < |x| && k < |y| && x[..k] == y[..k] && x[k] < y[k]) <==>
            (exists k: nat :: k < |a| && k < |b| && a[..k] == b[..k] && a[k] < b[k])
  {
    if k: nat :| k < |x| && k < |y| && x[..k] == y[..k] && x[k] < y[k] {
      assert a[..k + 1] == [a[0]] + x[..k] && b[..k + 1] == [a[0]] + y[..k];
      assert a[k + 1] == x[k] && b[k + 1] == y[k];
    }
    if k: nat :| k < |a| && k < |b| && a[..k] == b[..k] && a[k] < b[k] {
      assert k > 0;
      assert x[..k - 1] == a[..k][1..] && y[..k - 1] == b[..k][1..];
      assert a[k] == x[k - 1] && b[k] == y[k - 1];
    }
  }

  // ---------- sums ----------

  function SumOf<T>(f: T -> real, s: seq<T>): real {
    if s == [] then 0.0 else f(s[0]) + SumOf(f, s[1..])
  }

  lemma {:induction false} SumConcat<T>(f: T -> real, a: seq<T>, b: seq<T>)
    ensures SumOf(f, a + b) == SumOf(f, a) + SumOf(f, b)
  {
    if a == [] {
      assert a + b == b;
    } else {
      SumConcat(f, a[1..], b);
      assert (a + b)[1..] == a[1..] + b;
    }
  }

  ghost function Without<T>(t: seq<T>, i: nat): seq<T>
    requires i < |t|
  {
    t[..i] + t[i + 1..]
  }

  lemma {:induction false} SumWithout<T>(f: T -> real, t: seq<T>, i: nat)
    requires i < |t|
    ensures SumOf(f, t) == f(t[i]) + SumOf(f, Without(t, i))
    decreases i
  {
    if i == 0 {
      assert Without(t, 0) == t[1..];
    } else {
      SumWithout(f, t[1..], i - 1);
      assert Without(t, i) == [t[0]] + Without(t[1..], i - 1);
      assert Without(t, i)[1..] == Without(t[1..], i - 1);
    }
  }

  lemma MultisetWithout<T>(t: seq<T>, i: nat)
    requires i < |t|
    ensures multiset(t) == multiset{t[i]} + multiset(Without(t, i))
  {
    assert t == t[..i] + [t[i]] + t[i + 1..];
  }

  /** A sum only depends on which elements there are. */
  lemma {:induction false} SumPermuted<T>(f: T -> real, s: seq<T>, t: seq<T>)
    requires multiset(s) == multiset(t)
    ensures SumOf(f, s) == SumOf(f, t)
    decreases |s|
  {
    if s == [] {
      assert |multiset(t)| == 0;
    } else {
      assert s[0] in multiset(t);
      var i :| 0 <= i < |t| && t[i] == s[0];
      MultisetWithout(s, 0);
      MultisetWithout(t, i);
      SumWithout(f, s, 0);
      SumWithout(f, t, i);
      assert multiset(Without(s, 0)) == multiset(s) - multiset{s[0]} == multiset(Without(t, i));
      SumPermuted(f, Without(s, 0), Without(t, i));
    }
  }

  // ---------- permutations and duplicates ----------

  ghost predicate NoDuplicates<T>(s: seq<T>) {
    forall i, j :: 0 <= i < j < |s| ==> s[i] != s[j]
  }

  ghost function Elements<T>(s: seq<T>): set<T> {
    set x | x in s
  }

  lemma {:induction false} DistinctCount<T>(s: seq<T>)
    ensures |Elements(s)| <= |s|
    ensures |Elements(s)| == |s| <==> NoDuplicates(s)
  {
    if s == [] {
      assert Elements(s) == {};
    } else {
      var t := s[1..];
      DistinctCount(t);
      assert Elements(s) == Elements(t) + {s[0]};
      if s[0] in t {
        assert Elements(s) == Elements(t);
        var j :| 0 <= j < |t| && t[j] == s[0];
        assert s[j + 1] == s[0];
      } else {
        assert NoDuplicates(t) ==> NoDuplicates(s);
      }
      assert NoDuplicates(s) ==> NoDuplicates(t);
    }
  }

  lemma {:induction false} DistinctMultiplicity<T>(s: seq<T>, x: T)
    requires NoDuplicates(s)
    ensures multiset(s)[x] == if x in s then 1 else 0
  {
    if s != [] {
      DistinctMultiplicity(s[1..], x);
      assert multiset(s) == multiset{s[0]} + multiset(s[1..]) by { assert s == [s[0]] + s[1..]; }
      assert s[0] !in s[1..];
      assert x in s <==> x == s[0] || x in s[1..];
    }
  }

  /** Against a list without duplicates, being a permutation means no duplicates and the same set. */
  lemma PermutationIff<T>(s: seq<T>, t: seq<T>)
    requires NoDuplicates(t)
    ensures multiset(s) == multiset(t) <==> NoDuplicates(s) && Elements(s) == Elements(t)
  {
    if NoDuplicates(s) && Elements(s) == Elements(t) {
      forall x ensures multiset(s)[x] == multiset(t)[x] {
        DistinctMultiplicity(s, x);
        DistinctMultiplicity(t, x);
        assert x in s <==> x in Elements(s);
        assert x in t <==> x in Elements(t);
      }
      assert multiset(s) == multiset(t);
    }
    if multiset(s) == multiset(t) {
      forall x ensures x in Elements(s) <==> x in Elements(t) {
        assert x in s <==> x in multiset(s);
        assert x in t <==> x in multiset(t);
      }
      assert Elements(s) == Elements(t);
      assert |s| == |multiset(s)| == |multiset(t)| == |t|;
      DistinctCount(s);
      DistinctCount(t);
    }
  }

  // ---------- sorted lists of names ----------

  ghost predicate SortedListOf(l: seq<string>, s: set<string>) {
    SortedBy(NameLe, l) && NoDuplicates(l) && Elements(l) == s
  }

  method SortedNames(l: seq<string>, ghost s: set<string>) returns (r: seq<string>)
    requires NoDuplicates(l) && Elements(l) == s
    ensures SortedListOf(r, s) && |r| == |s|
  {
    r := Sort(NameLe, l);
    NamesAreTotallyOrdered();
    SortSorted(NameLe, l);
    SortMultiset(NameLe, l);
    PermutationIff(r, l);
    DistinctCount(r);
  }

  /** A duplicate-free list grown by a new name. */
  lemma Grown<T>(l: seq<T>, s: set<T>, f: T)
    requires NoDuplicates(l) && Elements(l) == s && f !in s
    ensures NoDuplicates(l + [f]) && Elements(l + [f]) == s + {f}
  {
    assert forall i :: 0 <= i < |l| ==> l[i] in Elements(l);
  }

  /** Append `f` when it belongs; `l` lists what is done of `all`. */
  function Appended<T>(l: seq<T>, ghost all: set<T>, ghost todo: set<T>, f: T, belongs: bool): (r: seq<T>)
    requires NoDuplicates(l) && Elements(l) == all - todo && f in todo && (belongs <==> f in all)
    ensures NoDuplicates(r) && Elements(r) == all - (todo - {f})
  {
    Grown(l, all - todo, f);
    assert all - (todo - {f}) == all - todo + if belongs then {f} else {};
    if belongs then l + [f] else l
  }

  lemma NoneIffEmpty<T>(l: seq<T>)
    ensures l == [] <==> Elements(l) == {}
  {
    if l != [] { assert l[0] in Elements(l); }
  }
}

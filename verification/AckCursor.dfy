/** The acknowledgement cursor of the SSE bridge: sequence numbers are handed over in any order, and
    an ack carries the end of the unbroken run that starts at the first one received. Zero is the
    "nothing received yet" value of the cursor, so no event has sequence number 0. */
module AckCursor {

  datatype AckState = AckState(pending: set<int>, acked: int, sent: seq<int>)

  function Start(): AckState {
    AckState({}, 0, [])
  }

  ghost predicate IsMin(m: int, s: set<int>) {
    m in s && forall x :: x in s ==> m <= x
  }

  lemma {:induction false} MinExists(s: set<int>)
    requires s != {}
    ensures exists m :: IsMin(m, s)
    decreases |s|
  {
    assert (forall x :: x !in s) ==> s == {};
    var x :| x in s;
    var t := s - {x};
    if t == {} {
      assert s == {x} && IsMin(x, s);
    } else {
      MinExists(t);
      var m :| IsMin(m, t);
      assert forall y :: y in s ==> y == x || y in t;
      assert IsMin(if x < m then x else m, s);
    }
  }

  ghost function MinOf(s: set<int>): (m: int)
    requires s != {}
    ensures IsMin(m, s)
  {
    MinExists(s);
    var m :| IsMin(m, s);
    m
  }

  /** The end of the unbroken run of `pending` that starts right after `base`. */
  ghost function Reach(pending: set<int>, base: int): (r: int)
    ensures base <= r && r + 1 !in pending
    ensures forall x :: base < x <= r ==> x in pending
    decreases |pending|
  {
    if base + 1 in pending then
      var left := pending - {base + 1};
      var r := Reach(left, base + 1);
      assert forall x :: x in left ==> x in pending;
      assert forall x :: base + 1 < x <= r ==> x in left;
      r
    else base
  }

  /** What is left of `pending` once that run is taken out. */
  ghost function Rest(pending: set<int>, base: int): set<int> {
    set x | x in pending && !(base < x <= Reach(pending, base))
  }

  /** `_pending_seqs.add(seq)` followed by `_schedule_ack_if_ready()`. */
  ghost function Receive(st: AckState, q: int): AckState {
    var pending := st.pending + {q};
    var base := if st.acked == 0 then MinOf(pending) - 1 else st.acked;
    var r := Reach(pending, base);
    AckState(Rest(pending, base), r, if r > base then st.sent + [r] else st.sent)
  }

  ghost function ReceiveAll(rs: seq<int>): AckState {
    if rs == [] then Start() else Receive(ReceiveAll(rs[..|rs| - 1]), rs[|rs| - 1])
  }

  /** The ack the shutdown path would still send, if any. */
  ghost function Flush(st: AckState): seq<int> {
    if st.pending == {} then []
    else
      var base := if st.acked == 0 then MinOf(st.pending) - 1 else st.acked;
      var r := Reach(st.pending, base);
      if r > base then [r] else []
  }

  // ---------- the ack code itself ----------

  /** The fields the bridge shares between its callbacks. `sent` records the acks posted. */
  class AckTracker {
    var pending: set<int>
    var lastAcked: int
    var sent: seq<int>

    ghost function State(): AckState reads this {
      AckState(pending, lastAcked, sent)
    }

    constructor ()
      ensures State() == Start()
    {
      pending, lastAcked, sent := {}, 0, [];
    }

    method OnDelivered(q: int)
      modifies this
      ensures State() == Receive(old(State()), q)
    {
      pending := pending + {q};
      ScheduleIfReady();
    }

    method ScheduleIfReady()
      requires pending != {}
      modifies this
      ensures var base := if old(lastAcked) == 0 then MinOf(old(pending)) - 1 else old(lastAcked);
              var r := Reach(old(pending), base);
              && pending == Rest(old(pending), base)
              && lastAcked == r
              && sent == if r > base then old(sent) + [r] else old(sent)
    {
      var base := lastAcked;
      if base == 0 {
        MinExists(pending);
        var m :| m in pending && forall x :: x in pending ==> m <= x;
        assert m == MinOf(pending);
        base := m - 1;
        lastAcked := base;
      }
      ghost var all := pending;
      var current := base;
      while current + 1 in pending
        invariant base <= current
        invariant forall x :: base < x <= current ==> x in all
        invariant pending == set x | x in all && !(base < x <= current)
        invariant sent == old(sent) && lastAcked == base
        decreases |pending|
      {
        PassedOn(all, pending, base, current, current + 1);
        pending := pending - {current + 1};
        current := current + 1;
      }
      ReachUnique(all, base, current);
      if current > base {
        lastAcked := current;
        sent := sent + [current];
      }
    }

    /** The `finally` block of the bridge: post what can still be acked. */
    method ShutdownFlush()
      modifies this
      ensures sent == old(sent) + Flush(old(State()))
    {
      if pending != {} {
        var base := lastAcked;
        if base == 0 {
          MinExists(pending);
          var m :| m in pending && forall x :: x in pending ==> m <= x;
          assert m == MinOf(pending);
          base := m - 1;
        }
        ghost var all := pending;
        var current := base;
        while current + 1 in pending
          invariant base <= current
          invariant forall x :: base < x <= current ==> x in all
          invariant pending == set x | x in all && !(base < x <= current)
          invariant sent == old(sent) && lastAcked == old(lastAcked)
          decreases |pending|
        {
          pending := pending - {current + 1};
          current := current + 1;
        }
        ReachUnique(all, base, current);
        if current > base {
          sent := sent + [current];
        }
      }
    }
  }

  /** The next number of the run leaves the pending ones. */
  lemma PassedOn(all: set<int>, pending: set<int>, base: int, current: int, next: int)
    requires base <= current && next == current + 1 && next in pending
    requires pending == set x | x in all && !(base < x <= current)
    ensures pending - {next} == set x | x in all && !(base < x <= next)
  {
  }

  lemma ReachUnique(pending: set<int>, base: int, r: int)
    requires base <= r && r + 1 !in pending
    requires forall x :: base < x <= r ==> x in pending
    ensures r == Reach(pending, base)
  {
    var t := Reach(pending, base);
    assert t < r ==> t + 1 in pending;
    assert r < t ==> r + 1 in pending;
  }

  /** `r` ends the unbroken run in `pending` that starts right after `base`. */
  ghost predicate RunEnds(pending: set<int>, base: int, r: int) {
    base <= r && r + 1 !in pending && forall x :: base < x <= r ==> x in pending
  }

  /** What one receipt does. With a cursor, it moves to the end of the run after it, and is sent if it moved; the
      numbers it passed are no longer pending, all others still are. Without one it is put right before the smallest
      number pending first. */
  lemma ReceiveIs(st: AckState, q: int, base: int, r: int)
    requires RunEnds(st.pending + {q}, base, r)
    requires if st.acked != 0 then base == st.acked else IsMin(base + 1, st.pending + {q})
    ensures Receive(st, q).acked == r
    ensures forall x :: x in Receive(st, q).pending <==> x in st.pending + {q} && (x <= base || x > r)
    ensures Receive(st, q).sent == if r > base then st.sent + [r] else st.sent
  {
    ReachUnique(st.pending + {q}, base, r);
  }

  /** What the shutdown sends: the end of the run after the cursor, or from the smallest number pending on when
      there is no cursor; nothing when there is no such run. */
  lemma FlushIs(st: AckState, base: int, r: int)
    requires RunEnds(st.pending, base, r)
    requires st.pending != {} ==> if st.acked != 0 then base == st.acked else IsMin(base + 1, st.pending)
    ensures st.pending != {} ==> Flush(st) == if r > base then [r] else []
    ensures st.pending == {} ==> Flush(st) == []
  {
    ReachUnique(st.pending, base, r);
  }

  // ---------- what every run keeps ----------

  ghost predicate Increasing(s: seq<int>) {
    forall i, j :: 0 <= i < j < |s| ==> s[i] < s[j]
  }

  /** The state after receipts `rs`: the cursor is the end of the unbroken run from the first
      receipt, it is the last ack sent, and everything beyond it waits in `pending`. */
  ghost predicate Tracks(rs: seq<int>, st: AckState) {
    if rs == [] then st == Start()
    else
      && rs[0] <= st.acked && st.acked in rs
      && (forall x :: rs[0] <= x <= st.acked ==> x in rs)
      && (forall x :: x in st.pending ==> x in rs && x != st.acked + 1)
      && (forall x :: x in rs && x > st.acked ==> x in st.pending)
      && st.sent != [] && st.sent[|st.sent| - 1] == st.acked
      && Increasing(st.sent)
  }

  lemma {:induction false} EveryRunTracks(rs: seq<int>)
    requires 0 !in rs
    ensures Tracks(rs, ReceiveAll(rs))
  {
    if rs != [] {
      var p, q := rs[..|rs| - 1], rs[|rs| - 1];
      EveryRunTracks(p);
      assert rs == p + [q];
      TrackReceipt(p, q, ReceiveAll(p));
    }
  }

  lemma TrackReceipt(p: seq<int>, q: int, st: AckState)
    requires 0 !in p && q != 0 && Tracks(p, st)
    ensures Tracks(p + [q], Receive(st, q))
  {
    var rs := p + [q];
    var pending := st.pending + {q};
    assert forall x :: x in rs <==> x in p || x == q;
    if p == [] {
      assert MinOf(pending) == q;
      assert Reach(pending, q - 1) == q by { ReachUnique(pending, q - 1, q); }
    } else {
      assert st.acked != 0;
      assert rs[0] == p[0];
      var r := Reach(pending, st.acked);
      assert r > st.acked ==> r in pending;
    }
  }

  /** Acks only go up, and the cursor is always the last one sent. */
  lemma AcksStrictlyIncrease(rs: seq<int>)
    requires 0 !in rs
    ensures Increasing(ReceiveAll(rs).sent)
    ensures rs != [] ==>
      ReceiveAll(rs).sent != [] && ReceiveAll(rs).sent[|ReceiveAll(rs).sent| - 1] == ReceiveAll(rs).acked
  {
    EveryRunTracks(rs);
  }

  ghost predicate AllWithin(lo: int, hi: int, rs: seq<int>) {
    forall x :: lo <= x <= hi ==> x in rs
  }

  /** An ack is safe whenever it arrives: if receipt `j` makes the bridge send ack `c`, then every
      sequence number from the first one received up to `c` is among the receipts so far, and `c` is
      above every earlier ack. */
  lemma AckCoversReceipts(rs: seq<int>, j: nat)
    requires 0 !in rs && j < |rs|
    ensures var before, after := ReceiveAll(rs[..j]), ReceiveAll(rs[..j + 1]);
            || after.sent == before.sent
            || (&& after.sent == before.sent + [after.acked]
                && AllWithin(rs[0], after.acked, rs[..j + 1])
                && (forall c :: c in before.sent ==> c < after.acked))
  {
    var now := rs[..j + 1];
    assert now[..j] == rs[..j] && now[0] == rs[0];
    EveryRunTracks(now);
    var before, after := ReceiveAll(rs[..j]), ReceiveAll(now);
    if after.sent != before.sent {
      forall c | c in before.sent ensures c < after.acked {
        var i :| 0 <= i < |before.sent| && before.sent[i] == c;
        assert after.sent[i] == c;
      }
    }
  }

  /** The cursor depends only on the first receipt and on which numbers were received, not on their
      order or on repetitions. */
  lemma CursorIsDetermined(rs: seq<int>, rs': seq<int>)
    requires 0 !in rs && 0 !in rs' && rs != [] && rs' != []
    requires rs[0] == rs'[0] && (forall x :: x in rs <==> x in rs')
    ensures ReceiveAll(rs).acked == ReceiveAll(rs').acked
  {
    EveryRunTracks(rs);
    EveryRunTracks(rs');
    var a, b := ReceiveAll(rs).acked, ReceiveAll(rs').acked;
    assert a < b ==> a + 1 in rs';
    assert a + 1 in rs ==> a + 1 in ReceiveAll(rs).pending;
    assert b < a ==> b + 1 in rs;
    assert b + 1 in rs' ==> b + 1 in ReceiveAll(rs').pending;
  }

  /** In every reachable state the shutdown flush finds nothing to ack. */
  lemma FlushFindsNothing(rs: seq<int>)
    requires 0 !in rs
    ensures Flush(ReceiveAll(rs)) == []
  {
    EveryRunTracks(rs);
    var st := ReceiveAll(rs);
    if rs != [] && st.pending != {} {
      ReachUnique(st.pending, st.acked, st.acked);
    }
  }
}

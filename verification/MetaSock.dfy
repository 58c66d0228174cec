/**
 The receiving half of the meta socket: the out-of-order queue with its per-subflow shortcuts, the
 receive queue and the drain from one to the other.
 */
module MetaSock {
  import opened Common
  import opened SeqArith
  import opened DataStream
  import opened HighOrder
  import opened OfoQueue

  ghost predicate DistinctIds(q: seq<Skb>) {
    forall i, j :: 0 <= i < j < |q| ==> q[i].id != q[j].id
  }

  ghost predicate HasId(q: seq<Skb>, id: nat) {
    exists i :: 0 <= i < |q| && q[i].id == id
  }

  /** Every shortcut is null or points into the queue, and no two subflows share one. */
  ghost predicate ShortcutsOk(q: seq<Skb>, shortcuts: seq<Option<nat>>) {
    && (forall t :: 0 <= t < |shortcuts| && shortcuts[t].Some? ==> HasId(q, shortcuts[t].value))
    && (forall t, u :: 0 <= t < u < |shortcuts| && shortcuts[t].Some? ==> shortcuts[t] != shortcuts[u])
  }

  // ------------------------------------------------------------ drain, as a function

  /** Segments moved to the receive queue, segments left behind, and the new next expected number. */
  datatype Drained = Drained(taken: seq<Skb>, rest: seq<Skb>, nxt: int)

  /** `mptcp_ofo_queue`: only the head of the queue is ever looked at. */
  function Drain(q: seq<Skb>, nxt: int): Drained {
    if q == [] || q[0].start > nxt then Drained([], q, nxt)
    else if q[0].End() <= nxt then Drain(q[1..], nxt)
    else
      var d := Drain(q[1..], q[0].End());
      Drained([q[0]] + d.taken, d.rest, d.nxt)
  }

  /** What the drain leaves starts with a segment that is not due, if anything is left. */
  lemma {:induction false} DrainStops(q: seq<Skb>, nxt: int)
    ensures Drain(q, nxt).rest == [] || Drain(q, nxt).nxt < Drain(q, nxt).rest[0].start
  {
    if q != [] && q[0].start <= nxt {
      DrainStops(q[1..], if q[0].End() <= nxt then nxt else q[0].End());
    }
  }

  /** The drained segments continue the receive queue, whatever the order of the out-of-order queue. */
  lemma {:induction false} DrainExtendsChain(base: int, r: seq<Skb>, q: seq<Skb>, nxt: int)
    requires Chained(base, r) && Reached(base, r) == nxt
    ensures Chained(base, r + Drain(q, nxt).taken) && Reached(base, r + Drain(q, nxt).taken) == Drain(q, nxt).nxt
    ensures nxt <= Drain(q, nxt).nxt
    decreases |q|
  {
    hide Chained, Reached;
    if q == [] || q[0].start > nxt {
      assert r + [] == r;
    } else if q[0].End() <= nxt {
      DrainExtendsChain(base, r, q[1..], nxt);
    } else {
      ChainedSnoc(base, r, q[0]);
      DrainExtendsChain(base, r + [q[0]], q[1..], q[0].End());
      assert r + [q[0]] + Drain(q[1..], q[0].End()).taken == r + Drain(q, nxt).taken;
    }
  }

  /** The drain passes no number that the queue did not hold, and never goes back. */
  lemma {:induction false} DrainPassesHeld(q: seq<Skb>, nxt: int)
    ensures nxt <= Drain(q, nxt).nxt && forall n :: nxt <= n < Drain(q, nxt).nxt ==> Holds(q, n)
    decreases |q|
  {
    if q != [] && q[0].start <= nxt {
      DrainPassesHeld(q[1..], if q[0].End() <= nxt then nxt else q[0].End());
      forall n
        ensures Holds(q, n) <==> Holds(q[1..], n) || q[0].start <= n < q[0].End()
      {
        HoldsHeadOrTail(q, n);
      }
    }
  }

  lemma HoldsHeadOrTail(q: seq<Skb>, n: int)
    requires q != []
    ensures Holds(q, n) <==> Holds(q[1..], n) || q[0].start <= n < q[0].End()
  {
    if Holds(q, n) {
      var i :| 0 <= i < |q| && q[i].start <= n < q[i].End();
      if i > 0 {
        assert q[1..][i - 1] == q[i];
      }
    }
    if Holds(q[1..], n) {
      var i :| 0 <= i < |q| - 1 && q[1..][i].start <= n < q[1..][i].End();
      assert q[i + 1] == q[1..][i];
    }
  }

  /** The drain from `nxt` on stops at a number that no segment of the queue holds. */
  ghost predicate DrainsAll(q: seq<Skb>, nxt: int) {
    !Holds(q, Drain(q, nxt).nxt)
  }

  /** One of the first `i` segments reaches up to `n`. */
  ghost predicate ReachedBefore(q: seq<Skb>, i: nat, n: int) {
    exists t :: 0 <= t < i && t < |q| && n <= q[t].End()
  }

  /**
   Wherever a segment stands behind one that starts later, an earlier segment reaches up to that later start,
   or all the way to its own end.  A queue sorted by start number is of this kind.
   */
  ghost predicate NoneBlocked(q: seq<Skb>) {
    forall i, j :: 0 <= i < j < |q| && q[j].start < q[i].start ==>
      ReachedBefore(q, i, q[i].start) || ReachedBefore(q, i, q[j].End())
  }

  /** How many segments a drain consumes: all of those end by the number reached, and the next one is not due. */
  lemma {:induction false} DrainConsumes(q: seq<Skb>, nxt: int) returns (i: nat)
    ensures i <= |q| && nxt <= Drain(q, nxt).nxt
    ensures forall t :: 0 <= t < i ==> q[t].End() <= Drain(q, nxt).nxt
    ensures i < |q| ==> Drain(q, nxt).nxt < q[i].start
    decreases |q|
  {
    i := 0;
    if q != [] && q[0].start <= nxt {
      var k := DrainConsumes(q[1..], if q[0].End() <= nxt then nxt else q[0].End());
      i := k + 1;
      assert forall t :: 0 < t < |q| ==> q[t] == q[1..][t - 1];
    }
  }

  /** From a number that the first `i` segments end by, the drain gets no further if the next one is not due. */
  lemma {:induction false} DrainStuck(q: seq<Skb>, nxt: int, i: nat)
    requires i < |q| && nxt < q[i].start
    requires forall t :: 0 <= t < i ==> q[t].End() <= nxt
    ensures Drain(q, nxt).nxt == nxt
    decreases i
  {
    if i > 0 {
      DrainStuck(q[1..], nxt, i - 1);
    }
  }

  /** The largest of `floor` and the ends of the first `i` segments. */
  function TopEnd(q: seq<Skb>, i: nat, floor: int): (n: int)
    requires i <= |q|
    ensures floor <= n && forall t :: 0 <= t < i ==> q[t].End() <= n
    ensures n == floor || exists t :: 0 <= t < i && n == q[t].End()
  {
    if i == 0 then floor
    else
      var n := TopEnd(q, i - 1, floor);
      if q[i - 1].End() > n then q[i - 1].End() else n
  }

  /** The drain hands over everything that is due, wherever it starts, exactly when no segment blocks another. */
  lemma DrainIsMaximalIff(q: seq<Skb>)
    requires forall i :: 0 <= i < |q| ==> q[i].cells != []
    ensures (forall nxt :: DrainsAll(q, nxt)) <==> NoneBlocked(q)
  {
    if NoneBlocked(q) {
      forall nxt
        ensures DrainsAll(q, nxt)
      {
        var i := DrainConsumes(q, nxt);
        hide Drain;
      }
    } else {
      var i, j :| 0 <= i < j < |q| && q[j].start < q[i].start
                  && !ReachedBefore(q, i, q[i].start) && !ReachedBefore(q, i, q[j].End());
      var n := TopEnd(q, i, q[j].start);
      assert n < q[i].start && n < q[j].End();
      DrainStuck(q, n, i);
      assert !DrainsAll(q, n);
    }
  }

  // ------------------------------------------------------------ the meta socket

  class MetaReceive {
    var rcvNxt: int
    var rcvWup: int
    var rcvWnd: nat
    var ofo: seq<Skb>
    var rcvQueue: seq<Skb>
    var shortcuts: seq<Option<nat>>   // shortcut_ofoqueue, in connection_list order
    var nextId: nat                   // every buffer gets an address of its own
    const words: RcvHighOrder
    ghost const base: int

    /** The array, the counter and the shortcuts are in step; the receive queue may have a gap. */
    ghost predicate InStep()
      reads this, words
    {
      && RcvTracks(words.high, words.index, rcvNxt)
      && Reached(base, rcvQueue) == rcvNxt
      && QueueOk()
    }

    ghost predicate NoGap()
      reads this
    {
      Chained(base, rcvQueue)
    }

    ghost predicate Valid()
      reads this, words
    {
      InStep() && NoGap()
    }

    ghost predicate QueueOk()
      reads this
    {
      && DistinctIds(ofo) && ShortcutsOk(ofo, shortcuts)
      && (forall i :: 0 <= i < |ofo| ==> ofo[i].id < nextId)
    }

    constructor (idsn: int, subflows: nat)
      ensures Valid() && fresh(words) && base == idsn && rcvNxt == rcvWup == idsn && rcvWnd == 0
      ensures ofo == [] && rcvQueue == [] && |shortcuts| == subflows && nextId == 0
      ensures Safe(Stream(idsn, []))
    {
      rcvNxt, rcvWup, rcvWnd, ofo, rcvQueue, nextId := idsn, idsn, 0, [], [], 0;
      shortcuts := seq(subflows, _ => None);
      words := new RcvHighOrder(idsn);
      base := idsn;
    }

    /** Follows a shortcut: the position of the buffer with this address. */
    method Locate(id: nat) returns (at: nat)
      requires HasId(ofo, id)
      ensures at < |ofo| && ofo[at].id == id
    {
      at := 0;
      while ofo[at].id != id
        invariant at < |ofo| && forall i :: 0 <= i < at ==> ofo[i].id != id
        decreases |ofo| - at
      {
        at := at + 1;
      }
    }

    /** `mptcp_remove_shortcuts`: stops at the first match, which is the only one. */
    method RemoveShortcuts(id: nat)
      requires forall t, u :: 0 <= t < u < |shortcuts| && shortcuts[t].Some? ==> shortcuts[t] != shortcuts[u]
      modifies this`shortcuts
      ensures |shortcuts| == |old(shortcuts)|
      ensures forall t :: 0 <= t < |shortcuts| ==>
                shortcuts[t] == if old(shortcuts)[t] == Some(id) then None else old(shortcuts)[t]
    {
      var t := 0;
      while t < |shortcuts|
        invariant t <= |shortcuts| && shortcuts == old(shortcuts)
        invariant forall u :: 0 <= u < t ==> shortcuts[u] != Some(id)
      {
        if shortcuts[t] == Some(id) {
          shortcuts := shortcuts[t := None];
          return;
        }
        t := t + 1;
      }
    }

    /** What happens to a segment that starts where the one at `here` ends. */
    static function Touching(here: nat, coalesce: bool): Outcome {
      if coalesce then Merged(here) else Spliced(here + 1, here + 1)
    }

    /**
     `mptcp_ofo_queue_after`: does `skb` fit right after the segment at `here`?  `coalesce` is the answer
     of the coalescing attempt.  Returns 1 if queued, -1 if merged, 0 if it does not fit.
     */
    method QueueAfter(skb: Skb, here: nat, coalesce: bool, ghost lo: int) returns (ret: int, ghost o: Outcome)
      requires here < |ofo| && AllWithin(lo, ofo) && Within(lo, skb)
      modifies this`ofo
      ensures ret == 0 || ret == 1 || ret == -1
      ensures ret == 0 ==> ofo == old(ofo)
      ensures ret == 1 ==> o == Spliced(here + 1, here + 1)
      ensures ret == -1 ==> o == Merged(here)
      ensures ret != 0 ==> Legal(old(ofo), skb, o) && ofo == Apply(old(ofo), skb, o)
      ensures old(ofo)[here].End() == skb.start ==> ret != 0 && o == Touching(here, coalesce)
      ensures ret != 0 && old(ofo)[here].End() != skb.start ==> RoomAfter(old(ofo), skb, here)
    {
      ret, o := 0, Covered(here);
      if Before(skb.start, ofo[here].End()) {
        return;
      }
      if SameSeq(skb.start, ofo[here].End()) {
        if !coalesce {
          ofo := ofo[..here + 1] + [skb] + ofo[here + 1..];
          return 1, Spliced(here + 1, here + 1);
        } else {
          ofo := ofo[here := Merge(ofo[here], skb)];
          return -1, Merged(here);
        }
      }
      if here + 1 == |ofo| || !After(skb.End(), ofo[here + 1].start) {
        ofo := ofo[..here + 1] + [skb] + ofo[here + 1..];
        return 1, Spliced(here + 1, here + 1);
      }
    }

    /** Facts about shortcuts that one insertion needs: all survive, and `tp` gets the new buffer if queued. */
    static lemma ShortcutsAfterInsert(q: seq<Skb>, skb: Skb, o: Outcome, sc: seq<Option<nat>>, tp: nat)
      requires Fits(q, o) && DistinctIds(q) && ShortcutsOk(q, sc) && tp < |sc|
      requires forall i :: 0 <= i < |q| ==> q[i].id != skb.id
      requires o.Spliced? ==> o.at == o.upto
      ensures DistinctIds(Apply(q, skb, o))
      ensures !o.Spliced? ==> ShortcutsOk(Apply(q, skb, o), sc)
      ensures o.Spliced? ==> ShortcutsOk(Apply(q, skb, o), sc[tp := Some(skb.id)])
    {
      var r := Apply(q, skb, o);
      forall i | 0 <= i < |q|
        ensures HasId(r, q[i].id)
      {
        if o.Spliced? {
          assert r[if i < o.at then i else i + 1].id == q[i].id;
        } else {
          assert r[i].id == q[i].id;
        }
      }
      if o.Spliced? {
        assert r[o.at].id == skb.id;
      }
    }

    /** One attempt at a shortcut; when it succeeds in queueing, `tp`'s shortcut moves to the new buffer. */
    method TryAt(tp: nat, skb: Skb, here: nat, coalesce: bool, ghost lo: int) returns (ret: int, ghost o: Outcome)
      requires QueueOk() && tp < |shortcuts| && AllWithin(lo, ofo) && Within(lo, skb)
      requires skb.id + 1 == nextId && here < |ofo| && forall i :: 0 <= i < |ofo| ==> ofo[i].id != skb.id
      modifies this`ofo, this`shortcuts
      ensures ret == 0 ==> ofo == old(ofo) && shortcuts == old(shortcuts)
      ensures ret != 0 ==> Inserted(old(ofo), old(shortcuts), tp, skb, o)
      ensures ret != 0 ==> RemovesNothing(o)
      ensures old(ofo)[here].End() == skb.start ==> ret != 0 && o == Touching(here, coalesce)
      ensures ret != 0 && old(ofo)[here].End() != skb.start ==> RoomAfter(old(ofo), skb, here)
    {
      ret, o := QueueAfter(skb, here, coalesce, lo);
      if ret != 0 {
        ShortcutsAfterInsert(old(ofo), skb, o, shortcuts, tp);
        if ret > 0 {
          shortcuts := shortcuts[tp := Some(skb.id)];
        }
      }
    }

    /** The state after `skb`, received on subflow `tp`, was inserted with outcome `o`. */
    ghost predicate Inserted(ofo0: seq<Skb>, shortcuts0: seq<Option<nat>>, tp: nat, skb: Skb, o: Outcome)
      requires tp < |shortcuts0|
      reads this
    {
      && QueueOk() && |shortcuts| == |shortcuts0|
      && Legal(ofo0, skb, o) && ofo == Apply(ofo0, skb, o)
      && shortcuts[tp] == (if o.Spliced? then Some(skb.id) else shortcuts0[tp])
      && (forall t :: 0 <= t < |shortcuts| && t != tp ==> StaysOrCleared(ofo, shortcuts0[t], shortcuts[t]))
    }

    /** A shortcut keeps its buffer unless that one is queued no longer. */
    static ghost predicate StaysOrCleared(q: seq<Skb>, was: Option<nat>, now: Option<nat>) {
      now == was || (now.None? && was.Some? && !HasId(q, was.value))
    }

    /** Some subflow's shortcut leads to a segment that `skb` continues. */
    static ghost predicate AnyTouches(q: seq<Skb>, sc: seq<Option<nat>>, skb: Skb) {
      exists t, at :: OwnTouches(q, sc, t, skb, at)
    }

    /** What decides about losses: a touching shortcut removes nothing, other routes clean up or find room. */
    static ghost predicate Decided(q: seq<Skb>, sc: seq<Option<nat>>, skb: Skb, o: Outcome) {
      if AnyTouches(q, sc, skb) then RemovesNothing(o)
      else CleanedUp(q, skb, o) || (RemovesNothing(o) && exists here :: RoomAfter(q, skb, here))
    }

    static lemma IntoEmpty(skb: Skb)
      ensures Legal([], skb, Spliced(0, 0)) && Apply([], skb, Spliced(0, 0)) == [skb]
    {
    }

    /** A shortcut that took the segment: it touched, or there was room. */
    static lemma TriedAt(q: seq<Skb>, sc: seq<Option<nat>>, t: nat, skb: Skb, here: nat, o: Outcome)
      requires t < |sc| && here < |q| && sc[t] == Some(q[here].id) && RemovesNothing(o)
      requires q[here].End() == skb.start || RoomAfter(q, skb, here)
      ensures Decided(q, sc, skb, o)
    {
      if q[here].End() == skb.start {
        assert OwnTouches(q, sc, t, skb, here);
      }
    }

    static lemma QueuePoints(q: seq<Skb>, sc: seq<Option<nat>>)
      requires ShortcutsOk(q, sc)
      ensures forall t :: 0 <= t < |sc| && sc[t].Some? ==> q != [] && HasId(q, sc[t].value)
    {
    }

    static lemma OwnIsThere(q: seq<Skb>, sc: seq<Option<nat>>, tp: nat, skb: Skb, here: nat)
      requires DistinctIds(q) && tp < |sc| && here < |q| && sc[tp] == Some(q[here].id)
      ensures forall at :: OwnTouches(q, sc, tp, skb, at) ==> at == here
    {
    }

    /** The shortcut of subflow `tp` points to the segment at `at`, and `skb` starts where that one ends. */
    static ghost predicate OwnTouches(q: seq<Skb>, sc: seq<Option<nat>>, tp: nat, skb: Skb, at: nat) {
      at < |q| && tp < |sc| && sc[tp] == Some(q[at].id) && q[at].End() == skb.start
    }

    /**
     `try_shortcut`: inserts `skb`, received on subflow `tp`, into the out-of-order queue.  The outcome is
     legal on any queue; the shortcuts stay valid and `tp`'s points to the new buffer if it was queued.
     */
    method TryShortcut(tp: nat, skb: Skb, coalesce: bool, ghost lo: int) returns (ghost o: Outcome)
      requires QueueOk() && tp < |shortcuts| && AllWithin(lo, ofo) && Within(lo, skb)
      requires skb.id == nextId
      modifies this`ofo, this`shortcuts, this`nextId
      ensures Inserted(old(ofo), old(shortcuts), tp, skb, o) && nextId == old(nextId) + 1
      ensures forall at :: OwnTouches(old(ofo), old(shortcuts), tp, skb, at) ==> o == Touching(at, coalesce)
      ensures SortedDisjoint(old(ofo)) ==>
                (KeepsBytes(old(ofo), ofo) <==>
                   AnyTouches(old(ofo), old(shortcuts), skb) || forall j :: !ReachesInto(old(ofo), skb, j))
    {
      ghost var q, sc := ofo, shortcuts;
      o := Route(tp, skb, coalesce, lo);
      WithinHasCells(lo, skb);
      if SortedDisjoint(q) {
        LossIff(q, skb, o, AnyTouches(q, sc, skb));
      }
    }

    static lemma WithinHasCells(lo: int, skb: Skb)
      requires Within(lo, skb)
      ensures skb.cells != []
    {
    }

    /** The routes of `try_shortcut`. */
    method Route(tp: nat, skb: Skb, coalesce: bool, ghost lo: int) returns (ghost o: Outcome)
      requires QueueOk() && tp < |shortcuts| && AllWithin(lo, ofo) && Within(lo, skb)
      requires skb.id == nextId
      modifies this`ofo, this`shortcuts, this`nextId
      ensures Inserted(old(ofo), old(shortcuts), tp, skb, o) && nextId == old(nextId) + 1
      ensures forall at :: OwnTouches(old(ofo), old(shortcuts), tp, skb, at) ==> o == Touching(at, coalesce)
      ensures Decided(old(ofo), old(shortcuts), skb, o)
    {
      hide Legal, Apply, AllWithin, Within, DistinctIds, ShortcutsOk, HasId;
      nextId := nextId + 1;
      var ret := 0;
      if shortcuts[tp].None? {
        if ofo == [] {
          o := Spliced(0, 0);
          ShortcutsAfterInsert(ofo, skb, o, shortcuts, tp);
          IntoEmpty(skb);
          ofo, shortcuts := [skb], shortcuts[tp := Some(skb.id)];
          return;
        }
      } else {
        QueuePoints(ofo, shortcuts);
        var here := Locate(shortcuts[tp].value);
        OwnIsThere(ofo, shortcuts, tp, skb, here);
        ret, o := TryAt(tp, skb, here, coalesce, lo);
        if ret != 0 {
          TriedAt(old(ofo), old(shortcuts), tp, skb, here, o);
          return;
        }
      }
      var best: Option<nat>;
      ret, best, o := TryOthers(tp, skb, coalesce, lo);
      if ret == 0 {
        o := WalkAndInsert(tp, skb, if best.Some? then best.value else |ofo| - 1, coalesce, lo);
      }
    }

    /**
     The loop over the other subflows' shortcuts: insert right after one of them, or remember the nearest
     one that starts beyond `skb`.
     */
    method TryOthers(tp: nat, skb: Skb, coalesce: bool, ghost lo: int)
      returns (ret: int, best: Option<nat>, ghost o: Outcome)
      requires QueueOk() && tp < |shortcuts| && AllWithin(lo, ofo) && Within(lo, skb)
      requires skb.id + 1 == nextId && forall i :: 0 <= i < |ofo| ==> ofo[i].id != skb.id
      modifies this`ofo, this`shortcuts
      ensures ret == 0 ==> ofo == old(ofo) && shortcuts == old(shortcuts)
      ensures ret == 0 && best.Some? ==> best.value < |ofo| && ofo[best.value].start > skb.start
      ensures ret != 0 ==> Inserted(old(ofo), old(shortcuts), tp, skb, o)
      ensures ret != 0 ==> Decided(old(ofo), old(shortcuts), skb, o)
      ensures ret == 0 ==> !AnyTouches(ofo, shortcuts, skb)
    {
      hide Legal, Apply, Decided;
      ret, best, o := 0, None, Covered(0);
      var distance := 0xffff_ffff;
      var it := 0;
      while it < |shortcuts|
        invariant it <= |shortcuts| && ofo == old(ofo) && shortcuts == old(shortcuts)
        invariant best.Some? ==> best.value < |ofo| && ofo[best.value].start > skb.start
        invariant forall t, at :: 0 <= t < it ==> !OwnTouches(ofo, shortcuts, t, skb, at)
      {
        if shortcuts[it].Some? {
          var here := Locate(shortcuts[it].value);
          OwnIsThere(ofo, shortcuts, it, skb, here);
          ret, o := TryAt(tp, skb, here, coalesce, lo);
          if ret != 0 {
            TriedAt(old(ofo), old(shortcuts), it, skb, here, o);
            return;
          }
          if After(ofo[here].start, skb.start) && Low32(ofo[here].start - skb.start) < distance {
            distance := Low32(ofo[here].start - skb.start);
            best := Some(here);
          }
        }
        it := it + 1;
      }
    }

    /** The rest of `try_shortcut`: walk back to the insertion point, insert, remove what is now covered. */
    method WalkAndInsert(tp: nat, skb: Skb, first: int, coalesce: bool, ghost lo: int) returns (ghost o: Outcome)
      requires QueueOk() && tp < |shortcuts| && AllWithin(lo, ofo) && Within(lo, skb)
      requires skb.id + 1 == nextId && forall i :: 0 <= i < |ofo| ==> ofo[i].id != skb.id
      requires 0 <= first < |ofo| && (first == |ofo| - 1 || ofo[first].start > skb.start)
      modifies this`ofo, this`shortcuts
      ensures Inserted(old(ofo), old(shortcuts), tp, skb, o)
      ensures CleanedUp(old(ofo), skb, o) || (RemovesNothing(o) && RoomAfter(old(ofo), skb, |old(ofo)| - 1))
    {
      hide ShortcutsOk, DistinctIds, HasId, Low32;
      var at := first;
      if SameSeq(skb.start, ofo[at].End()) {
        o := if coalesce then Merged(at) else Spliced(at + 1, at + 1);
        ShortcutsAfterInsert(ofo, skb, o, shortcuts, tp);
        if !coalesce {
          ofo := ofo[..at + 1] + [skb] + ofo[at + 1..];
          shortcuts := shortcuts[tp := Some(skb.id)];
        } else {
          ofo := ofo[at := Merge(ofo[at], skb)];
        }
        return;
      }
      while at >= 0 && After(ofo[at].start, skb.start)
        invariant -1 <= at < |ofo|
        invariant at == first || ofo[at + 1].start > skb.start
      {
        at := at - 1;
      }
      if at >= 0 && Before(skb.start, ofo[at].End()) {
        if !After(skb.End(), ofo[at].End()) {
          return Covered(at);
        }
        if SameSeq(skb.start, ofo[at].start) {
          at := at - 1;
        }
      }
      o := InsertAndClean(tp, skb, at + 1, lo);
    }

    /** Queues `skb` at position `at` and removes the following segments it reaches into. */
    method InsertAndClean(tp: nat, skb: Skb, at: nat, ghost lo: int) returns (ghost o: Outcome)
      requires QueueOk() && tp < |shortcuts| && AllWithin(lo, ofo) && Within(lo, skb)
      requires skb.id + 1 == nextId && forall i :: 0 <= i < |ofo| ==> ofo[i].id != skb.id
      requires at <= |ofo|
      requires at < |ofo| ==> skb.start < ofo[at].start || (skb.start == ofo[at].start && ofo[at].End() < skb.End())
      requires at > 0 ==> ofo[at - 1].start <= skb.start || (at < |ofo| && ofo[at].start == skb.start)
      modifies this`ofo, this`shortcuts
      ensures o.Spliced? && Inserted(old(ofo), old(shortcuts), tp, skb, o) && CleanedUp(old(ofo), skb, o)
    {
      hide Legal, AllWithin, ShortcutsOk, DistinctIds, HasId;
      ghost var q := ofo;
      Linked(q, at, skb, shortcuts, nextId);
      ofo := ofo[..at] + [skb] + ofo[at..];
      ghost var upto := CleanCovered(q, at, skb, lo);
      o := Spliced(at, upto);
      SplicedLegal(q, skb, at, upto);
      AssignFresh(ofo, shortcuts, tp, at);
      shortcuts := shortcuts[tp := Some(skb.id)];
    }

    static lemma SplicedLegal(q: seq<Skb>, skb: Skb, at: nat, upto: nat)
      requires at <= upto <= |q|
      requires at < |q| ==> skb.start < q[at].start || (skb.start == q[at].start && q[at].End() < skb.End())
      requires at > 0 ==> q[at - 1].start <= skb.start || (at < |q| && q[at].start == skb.start)
      requires forall i :: at <= i < upto ==> q[i].start < skb.End()
      requires upto < |q| ==> skb.End() <= q[upto].start
      requires |skb.cells| > 0
      ensures Legal(q, skb, Spliced(at, upto))
      ensures (q[..at] + [skb] + q[upto..])[at] == skb
    {
    }

    /** The clean-up loop: drops the segments after position `at` that start below the new one's end. */
    method CleanCovered(ghost q: seq<Skb>, at: nat, skb: Skb, ghost lo: int) returns (ghost upto: nat)
      requires at <= |q| && ofo == q[..at] + [skb] + q[at..] && AllWithin(lo, q) && Within(lo, skb)
      requires QueueOk() && forall t :: 0 <= t < |shortcuts| ==> shortcuts[t] != Some(skb.id)
      modifies this`ofo, this`shortcuts
      ensures at <= upto <= |q| && ofo == q[..at] + [skb] + q[upto..]
      ensures forall i :: at <= i < upto ==> q[i].start < skb.End()
      ensures upto < |q| ==> skb.End() <= q[upto].start
      ensures QueueOk() && |shortcuts| == |old(shortcuts)|
      ensures forall t :: 0 <= t < |shortcuts| ==> StaysOrCleared(ofo, old(shortcuts)[t], shortcuts[t])
    {
      upto := at;
      while at + 1 < |ofo| && After(skb.End(), ofo[at + 1].start)
        invariant at <= upto <= |q| && ofo == q[..at] + [skb] + q[upto..]
        invariant forall i :: at <= i < upto ==> q[i].start < skb.End()
        invariant QueueOk() && |shortcuts| == |old(shortcuts)|
        invariant forall t :: 0 <= t < |shortcuts| ==> StaysOrCleared(ofo, old(shortcuts)[t], shortcuts[t])
        decreases |ofo|
      {
        CutNext(q, at, upto, skb);
        var gone := UnlinkAt(at + 1);
        upto := upto + 1;
      }
      assert upto < |q| ==> ofo[at + 1] == q[upto];
    }

    static lemma AssignFresh(q: seq<Skb>, sc: seq<Option<nat>>, tp: nat, at: nat)
      requires ShortcutsOk(q, sc) && tp < |sc| && at < |q|
      requires forall t :: 0 <= t < |sc| ==> sc[t] != Some(q[at].id)
      ensures ShortcutsOk(q, sc[tp := Some(q[at].id)])
    {
    }

    /** Linking a new buffer keeps the queue's addresses distinct and the shortcuts valid. */
    static lemma Linked(q: seq<Skb>, at: nat, skb: Skb, sc: seq<Option<nat>>, nextId: nat)
      requires at <= |q| && DistinctIds(q) && ShortcutsOk(q, sc) && skb.id < nextId
      requires forall i :: 0 <= i < |q| ==> q[i].id != skb.id && q[i].id < nextId
      ensures forall i :: 0 <= i <= |q| ==> (q[..at] + [skb] + q[at..])[i].id < nextId
      ensures DistinctIds(q[..at] + [skb] + q[at..]) && ShortcutsOk(q[..at] + [skb] + q[at..], sc)
      ensures forall t :: 0 <= t < |sc| ==> sc[t] != Some(skb.id)
    {
      var r := q[..at] + [skb] + q[at..];
      forall i | 0 <= i < |q|
        ensures HasId(r, q[i].id)
      {
        assert r[if i < at then i else i + 1].id == q[i].id;
      }
    }

    static lemma CutNext(q: seq<Skb>, at: nat, upto: nat, skb: Skb)
      requires at <= upto < |q|
      ensures var r := q[..at] + [skb] + q[upto..];
              r[at + 1] == q[upto] && r[..at + 1] + r[at + 2..] == q[..at] + [skb] + q[upto + 1..]
    {
    }

    /** Unlinks one segment of the out-of-order queue and clears the shortcut to it. */
    method UnlinkAt(at: nat) returns (skb: Skb)
      requires QueueOk() && at < |ofo|
      modifies this`ofo, this`shortcuts
      ensures QueueOk() && skb == old(ofo)[at] && ofo == old(ofo)[..at] + old(ofo)[at + 1..]
      ensures |shortcuts| == |old(shortcuts)|
      ensures forall t :: 0 <= t < |shortcuts| ==>
                shortcuts[t] == if old(shortcuts)[t] == Some(skb.id) then None else old(shortcuts)[t]
      ensures !HasId(ofo, skb.id) && forall id :: HasId(ofo, id) ==> HasId(old(ofo), id)
    {
      skb := ofo[at];
      ofo := ofo[..at] + ofo[at + 1..];
      RemoveShortcuts(skb.id);
      Unlinked(old(ofo), at, old(shortcuts), shortcuts);
      assert forall i :: 0 <= i < |ofo| ==> ofo[i] == old(ofo)[if i < at then i else i + 1];
    }

    /** Unlinking `q[at]` and clearing the shortcut to it leaves the other shortcuts valid. */
    static lemma Unlinked(q: seq<Skb>, at: nat, sc: seq<Option<nat>>, sc': seq<Option<nat>>)
      requires at < |q| && DistinctIds(q) && ShortcutsOk(q, sc) && |sc'| == |sc|
      requires forall t :: 0 <= t < |sc| ==> sc'[t] == if sc[t] == Some(q[at].id) then None else sc[t]
      ensures DistinctIds(q[..at] + q[at + 1..]) && ShortcutsOk(q[..at] + q[at + 1..], sc')
      ensures !HasId(q[..at] + q[at + 1..], q[at].id)
      ensures forall id :: HasId(q[..at] + q[at + 1..], id) ==> HasId(q, id)
    {
      var r := q[..at] + q[at + 1..];
      forall i | 0 <= i < |r|
        ensures r[i] == q[if i < at then i else i + 1] && r[i].id != q[at].id
      {
      }
      forall t | 0 <= t < |sc'| && sc'[t].Some?
        ensures HasId(r, sc'[t].value)
      {
        var i :| 0 <= i < |q| && q[i].id == sc[t].value;
        assert i != at;
        assert r[if i < at then i else i - 1].id == sc'[t].value;
      }
    }

    /** Draining to `all` is draining `taken` first and then to `d`. */
    static ghost predicate Continues(all: Drained, taken: seq<Skb>, d: Drained) {
      all.taken == taken + d.taken && all.rest == d.rest && all.nxt == d.nxt
    }

    static lemma DrainJoin(all: Drained, taken: seq<Skb>, d: Drained, more: seq<Skb>, e: Drained)
      requires Continues(all, taken, d) && Continues(d, more, e)
      ensures Continues(all, taken + more, e)
    {
    }

    /** `mptcp_ofo_queue`: moves what has become in-order from the out-of-order queue to the receive queue. */
    method DrainOfo(ghost lo: int)
      requires InStep() && AllWithin(lo, ofo) && lo <= rcvNxt < lo + TWO_31
      modifies this`rcvNxt, this`ofo, this`rcvQueue, this`shortcuts, words
      ensures InStep() && (NoGap() <==> old(NoGap())) && |shortcuts| == |old(shortcuts)|
      ensures var d := Drain(old(ofo), old(rcvNxt));
              ofo == d.rest && rcvNxt == d.nxt && rcvQueue == old(rcvQueue) + d.taken
      ensures old(rcvNxt) <= rcvNxt < lo + TWO_31 && AllWithin(lo, ofo)
    {
      hide Drain, Chained, Reached, RcvTracks, AllWithin, DistinctIds, ShortcutsOk;
      ghost var goal := Drain(ofo, rcvNxt);
      ghost var taken: seq<Skb> := [];
      var stop := false;
      while !stop
        invariant InStep() && (NoGap() <==> old(NoGap())) && |shortcuts| == |old(shortcuts)|
        invariant old(rcvNxt) <= rcvNxt < lo + TWO_31 && AllWithin(lo, ofo)
        invariant rcvQueue == old(rcvQueue) + taken
        invariant Continues(goal, taken, Drain(ofo, rcvNxt))
        invariant stop ==> Drain(ofo, rcvNxt) == Drained([], ofo, rcvNxt)
        decreases !stop, |ofo|
      {
        ghost var before := Drain(ofo, rcvNxt);
        ghost var more;
        stop, more := DrainStep(lo);
        DrainJoin(goal, taken, before, more, Drain(ofo, rcvNxt));
        assert old(rcvQueue) + taken + more == old(rcvQueue) + (taken + more);
        taken := taken + more;
      }
      assert taken + [] == taken;
    }

    /** One turn of the drain loop: look at the head only. */
    method DrainStep(ghost lo: int) returns (stop: bool, ghost more: seq<Skb>)
      requires InStep() && AllWithin(lo, ofo) && lo <= rcvNxt < lo + TWO_31
      modifies this`rcvNxt, this`ofo, this`rcvQueue, this`shortcuts, words
      ensures InStep() && (NoGap() <==> old(NoGap())) && |shortcuts| == |old(shortcuts)|
      ensures old(rcvNxt) <= rcvNxt < lo + TWO_31 && AllWithin(lo, ofo)
      ensures rcvQueue == old(rcvQueue) + more
      ensures stop ==> Drain(ofo, rcvNxt) == Drained([], ofo, rcvNxt)
      ensures !stop ==> |ofo| < |old(ofo)|
      ensures Continues(Drain(old(ofo), old(rcvNxt)), more, Drain(ofo, rcvNxt))
    {
      more := [];
      if ofo == [] || After(ofo[0].start, rcvNxt) {
        return true, [];
      }
      stop := false;
      var skb := UnlinkAt(0);
      assert ofo == old(ofo)[1..];
      if After(skb.End(), rcvNxt) {
        more := [skb];
        QueueTail(skb);
      }
    }

    /** Appends to the receive queue and advances `rcvNxt`; a segment that starts beyond it leaves a gap. */
    method QueueTail(skb: Skb)
      requires InStep() && rcvNxt < skb.End() < rcvNxt + TWO_32
      modifies this`rcvNxt, this`rcvQueue, words
      ensures InStep() && rcvNxt == skb.End() && rcvQueue == old(rcvQueue) + [skb]
      ensures NoGap() <==> old(NoGap()) && skb.start <= old(rcvNxt)
    {
      var oldRcvNxt := rcvNxt;
      assert (rcvQueue + [skb])[..|rcvQueue|] == rcvQueue;
      rcvQueue := rcvQueue + [skb];
      rcvNxt := skb.End();
      words.CheckRcvseqWrap(oldRcvNxt, rcvNxt);
    }

    /** `tcp_queue_rcv`: appends to the receive queue, coalescing with the last buffer if it can. */
    method QueueRcv(skb: Skb, coalesce: bool, ghost lo: int)
      requires Valid() && lo <= rcvNxt < lo + TWO_31 && Within(lo, skb) && rcvNxt < skb.End()
      modifies this`rcvNxt, this`rcvQueue, words
      ensures InStep() && rcvNxt == skb.End()
      ensures NoGap() <==> skb.start <= old(rcvNxt)
      ensures rcvQueue == old(rcvQueue) + [skb] ||
              (old(rcvQueue) != [] && skb.start == old(rcvNxt) &&
               rcvQueue == old(rcvQueue)[|old(rcvQueue)| - 1 := Merge(old(rcvQueue)[|old(rcvQueue)| - 1], skb)])
    {
      var n := |rcvQueue|;
      if n > 0 && coalesce && SameSeq(skb.start, rcvQueue[n - 1].End()) {
        var oldRcvNxt := rcvNxt;
        ChainedMergeLast(base, rcvQueue, skb);
        rcvQueue := rcvQueue[n - 1 := Merge(rcvQueue[n - 1], skb)];
        rcvNxt := skb.End();
        words.CheckRcvseqWrap(oldRcvNxt, rcvNxt);
      } else {
        QueueTail(skb);
      }
    }

    /** `mptcp_purge_ofo_queue`, also what `mptcp_prune_ofo_queue` does under memory pressure. */
    method PurgeOfo()
      requires Valid()
      modifies this`ofo, this`shortcuts
      ensures Valid() && ofo == [] && |shortcuts| == |old(shortcuts)|
      ensures forall t :: 0 <= t < |shortcuts| ==> shortcuts[t].None?
    {
      while |ofo| > 0
        invariant Valid() && |shortcuts| == |old(shortcuts)|
        decreases |ofo|
      {
        var skb := UnlinkAt(0);
      }
      forall t | 0 <= t < |shortcuts|
        ensures shortcuts[t].None?
      {
        assert shortcuts[t].Some? ==> HasId(ofo, shortcuts[t].value);
      }
    }

    /** `mptcp_select_window` on an outgoing ACK: the advertised window is measured from here. */
    method SelectWindow(window: nat)
      requires Valid()
      modifies this`rcvWup, this`rcvWnd
      ensures Valid() && rcvWup == rcvNxt && rcvWnd == window
      ensures ReceiveWindow() == window
    {
      rcvWup, rcvWnd := rcvNxt, window;
    }

    /** `tcp_receive_window`: what is left of the window advertised last; its right edge never moves back. */
    function ReceiveWindow(): (w: nat)
      reads this`rcvNxt, this`rcvWup, this`rcvWnd
      ensures rcvWup + rcvWnd <= rcvNxt + w
      ensures w > 0 ==> rcvNxt + w == rcvWup + rcvWnd
    {
      var win := rcvWup + rcvWnd - rcvNxt;
      if win < 0 then 0 else win
    }

    /** While data inside the advertised window is received, the right edge stays where it was advertised. */
    twostate lemma EdgeStays()
      requires rcvWup == old(rcvWup) && rcvWnd == old(rcvWnd) && old(rcvNxt) <= rcvNxt
      ensures rcvNxt <= rcvWup + rcvWnd ==> rcvNxt + ReceiveWindow() == old(rcvNxt + ReceiveWindow()) == rcvWup + rcvWnd
      ensures old(rcvNxt + ReceiveWindow()) <= rcvNxt + ReceiveWindow()
    {
    }

    /** A number lies by the right edge if it has been reached or lies in the window advertised last. */
    lemma ByTheEdge(n: int)
      ensures n <= rcvNxt + ReceiveWindow() <==> n <= rcvNxt || n <= rcvWup + rcvWnd
    {
    }

    // ---------------------------------------------------------- delivery safety

    /** The lowest number that is less than 2^31 behind everything the sender has written. */
    static function Lowest(s: Stream): int {
      s.End() - TWO_31 + 1
    }

    /**
     Nothing but the sender's cells is queued, each at its own number, and nothing alive is 2^31 or more
     behind the end of the stream.
     */
    ghost predicate Safe(s: Stream)
      reads this, words
    {
      Sound(s) && NoGap()
    }

    /** The same, except that the receive queue may have a gap. */
    ghost predicate Sound(s: Stream)
      reads this, words
    {
      && InStep() && base == s.base
      && AllHonest(s, ofo) && AllHonest(s, rcvQueue)
      && AllWithin(Lowest(s), ofo)
      && Lowest(s) <= rcvWup <= rcvNxt <= s.End()
      && rcvWnd < TWO_31
    }

    /** A safe meta socket offers the application exactly the sender's stream up to `rcvNxt`. */
    lemma SafeMeansStream(s: Stream)
      requires Safe(s)
      ensures base == s.base <= rcvNxt <= s.End() && Chained(base, rcvQueue)
      ensures Delivered(base, rcvQueue) == s.cells[..rcvNxt - s.base]
    {
      DeliveredIsStream(s, rcvQueue);
    }

    /** More written by the sender leaves the socket safe, as long as nothing alive gets too far behind. */
    lemma SafeAfterWrite(s: Stream, more: seq<Cell>)
      requires Safe(s)
      requires var lo := Lowest(Stream(s.base, s.cells + more));
               lo <= rcvWup && forall i :: 0 <= i < |ofo| ==> lo <= ofo[i].start
      ensures Safe(Stream(s.base, s.cells + more))
    {
      forall i | 0 <= i < |ofo|
        ensures Honest(Stream(s.base, s.cells + more), ofo[i])
      {
        HonestAfterWrite(s, more, ofo[i]);
      }
      forall i | 0 <= i < |rcvQueue|
        ensures Honest(Stream(s.base, s.cells + more), rcvQueue[i])
      {
        HonestAfterWrite(s, more, rcvQueue[i]);
      }
    }

    static lemma InsertKeepsWithin(lo: int, q: seq<Skb>, skb: Skb, o: Outcome)
      requires Legal(q, skb, o) && AllWithin(lo, q) && Within(lo, skb)
      ensures AllWithin(lo, Apply(q, skb, o))
    {
    }

    /** `mptcp_add_meta_ofo_queue` */
    method AddMetaOfoQueue(tp: nat, skb: Skb, coalesce: bool, ghost s: Stream) returns (ghost o: Outcome)
      requires Safe(s) && tp < |shortcuts| && skb.id == nextId
      requires Honest(s, skb) && Lowest(s) <= skb.start
      modifies this`ofo, this`shortcuts, this`nextId
      ensures Safe(s) && |shortcuts| == |old(shortcuts)|
      ensures Queued(old(ofo), ofo, skb) && Inserted(old(ofo), old(shortcuts), tp, skb, o)
      ensures nextId == old(nextId) + 1
      ensures forall at :: OwnTouches(old(ofo), old(shortcuts), tp, skb, at) ==> o == Touching(at, coalesce)
    {
      ghost var q := ofo;
      o := TryShortcut(tp, skb, coalesce, Lowest(s));
      InsertKeepsHonest(s, q, skb, o);
      InsertKeepsWithin(Lowest(s), q, skb, o);
      InsertHoldsNewAndInventsNothing(q, skb, o);
    }

    /** All of `skb` is held by the queue afterwards, and nothing that neither the queue nor `skb` held before. */
    static ghost predicate Queued(before: seq<Skb>, after: seq<Skb>, skb: Skb) {
      && (forall n :: skb.start <= n < skb.End() ==> Holds(after, n))
      && (forall n :: Holds(after, n) ==> Holds(before, n) || skb.start <= n < skb.End())
    }

    /**
     The in-order branch of `mptcp_queue_skb` for one segment of a mapping that starts by `rcvNxt`: dropped if
     already received, else queued for the application; then the out-of-order queue is drained.  The segment
     itself is not compared with `rcvNxt` before it is queued: the receive queue stays without a gap exactly when
     the segment starts by then, too.
     */
    method PushInOrder(skb: Skb, coalesce: bool, ghost s: Stream) returns (queued: bool)
      requires Safe(s) && Honest(s, skb) && Lowest(s) <= skb.start && skb.id == nextId
      modifies this`rcvNxt, this`ofo, this`rcvQueue, this`shortcuts, this`nextId, words
      ensures Sound(s) && (NoGap() <==> skb.start <= old(rcvNxt)) && |shortcuts| == |old(shortcuts)|
      ensures old(rcvNxt) <= rcvNxt && skb.End() <= rcvNxt
      ensures queued <==> old(rcvNxt) < skb.End()
      ensures queued <==> old(rcvNxt) < rcvNxt
      ensures if queued then ofo == [] || rcvNxt < ofo[0].start else ofo == old(ofo) && rcvQueue == old(rcvQueue)
      ensures queued ==> var d := Drain(old(ofo), skb.End()); ofo == d.rest && rcvNxt == d.nxt
      ensures nextId == old(nextId) + 1
    {
      hide AllHonest, AllWithin, Chained, RcvTracks, Honest, Within, DistinctIds, ShortcutsOk;
      WithinStream(s, skb);
      nextId := nextId + 1;
      queued := After(skb.End(), rcvNxt);
      if queued {
        QueueRcv(skb, coalesce, Lowest(s));
        QueueRcvKeepsHonest(s, old(rcvQueue), rcvQueue, skb);
        if ofo != [] {
          DrainHonestly(s);
        }
      }
    }

    static lemma WithinStream(s: Stream, skb: Skb)
      requires Honest(s, skb) && Lowest(s) <= skb.start
      ensures Within(Lowest(s), skb) && skb.start < skb.End() <= s.End()
    {
    }

    static lemma QueueRcvKeepsHonest(s: Stream, q: seq<Skb>, r: seq<Skb>, skb: Skb)
      requires AllHonest(s, q) && Honest(s, skb)
      requires r == q + [skb] ||
               (q != [] && q[|q| - 1].End() == skb.start && r == q[|q| - 1 := Merge(q[|q| - 1], skb)])
      ensures AllHonest(s, r)
    {
      if r != q + [skb] {
        MergeHonest(s, q[|q| - 1], skb);
      }
    }

    static lemma {:induction false} DrainIsSafe(s: Stream, q: seq<Skb>, nxt: int, lo: int)
      requires AllHonest(s, q) && AllWithin(lo, q) && nxt <= s.End()
      ensures AllHonest(s, Drain(q, nxt).taken) && AllHonest(s, Drain(q, nxt).rest)
      ensures AllWithin(lo, Drain(q, nxt).rest)
      ensures nxt <= Drain(q, nxt).nxt <= s.End()
      decreases |q|
    {
      if q != [] && q[0].start <= nxt {
        DrainIsSafe(s, q[1..], if q[0].End() <= nxt then nxt else q[0].End(), lo);
      }
    }

    method DrainHonestly(ghost s: Stream)
      requires Sound(s)
      modifies this`rcvNxt, this`ofo, this`rcvQueue, this`shortcuts, words
      ensures Sound(s) && (NoGap() <==> old(NoGap())) && |shortcuts| == |old(shortcuts)| && old(rcvNxt) <= rcvNxt
      ensures ofo == [] || rcvNxt < ofo[0].start
      ensures var d := Drain(old(ofo), old(rcvNxt)); ofo == d.rest && rcvNxt == d.nxt
    {
      DrainStops(ofo, rcvNxt);
      hide Drain, Chained, RcvTracks, Honest, Within, DistinctIds, HasId, ShortcutsOk, Reached;
      DrainIsSafe(s, ofo, rcvNxt, Lowest(s));
      DrainOfo(Lowest(s));
    }
  }

  /** The segment [`from`, `to`) of a stream of one cell repeated. */
  function Piece(c: Cell, id: nat, from: nat, to: nat): (k: Skb)
    requires from <= to
    ensures k.start == from && k.End() == to && k.id == id
  {
    Skb(id, from, seq(to - from, _ => c))
  }

  lemma PieceHonest(c: Cell, id: nat, from: nat, to: nat)
    requires from < to <= 100
    ensures Honest(Stream(0, seq(100, _ => c)), Piece(c, id, from, to))
  {
    assert seq(100, _ => c)[from..to] == seq(to - from, _ => c);
  }

  lemma FirstInsertion(k: Skb, o: Outcome)
    requires Legal([], k, o)
    ensures Apply([], k, o) == [k]
  {
  }

  lemma InsertionBefore(a: Skb, k: Skb, o: Outcome)
    requires Legal([a], k, o) && k.start < k.End() < a.start < a.End()
    ensures o.Spliced? && Apply([a], k, o) == [k, a]
  {
  }

  lemma InsertionBeforeLast(a: Skb, b: Skb, c: Skb, k: Skb)
    ensures Apply([a, c], k, Spliced(1, 1)) == [a, k, c]
    ensures Apply([a, b, c], k, Spliced(2, 2)) == [a, b, k, c]
  {
    assert [a, b, c][..2] == [a, b];
  }

  lemma CleanUpOfRun(c: Cell, o: Outcome)
    requires Legal([Piece(c, 1, 10, 20), Piece(c, 2, 20, 50), Piece(c, 3, 50, 60), Piece(c, 0, 30, 100)],
                   Piece(c, 4, 5, 25), o)
    ensures Apply([Piece(c, 1, 10, 20), Piece(c, 2, 20, 50), Piece(c, 3, 50, 60), Piece(c, 0, 30, 100)],
                  Piece(c, 4, 5, 25), o)
         == [Piece(c, 4, 5, 25), Piece(c, 3, 50, 60), Piece(c, 0, 30, 100)]
  {
    var q := [Piece(c, 1, 10, 20), Piece(c, 2, 20, 50), Piece(c, 3, 50, 60), Piece(c, 0, 30, 100)];
    assert q[0].start == 10 && q[1].start == 20 && q[2].start == 50 && q[3].start == 30;
    if o.Spliced? {
      assert o.at == 0 && o.upto != 0 && o.upto != 1;
      assert o.upto <= 2;
    }
  }

  lemma DrainsOfRun(c: Cell)
    ensures var q := [Piece(c, 3, 50, 60), Piece(c, 0, 30, 100)];
            && Drain([Piece(c, 4, 5, 25)] + q, 5).rest == q && Drain([Piece(c, 4, 5, 25)] + q, 5).nxt == 25
            && Drain(q, 30).rest == q && Drain(q, 30).nxt == 30 && Holds(q, 30)
  {
    var q := [Piece(c, 3, 50, 60), Piece(c, 0, 30, 100)];
    assert ([Piece(c, 4, 5, 25)] + q)[1..] == q;
    assert q[1].start <= 30 < q[1].End();
  }

  /**
   A run in which a due segment is held back.  [30, 100) arrives on one subflow and [10, 20) on another, whose
   shortcut then links [20, 50) and [50, 60) without a look at the successor; [5, 25) makes the clean-up remove
   [10, 20) and [20, 50).  With [0, 5) and [25, 30) received in order, 30 is queued but stays there: the head
   starts at 50.
   */
  method HeldBackRun(c: Cell) returns (ofo: seq<Skb>, rcvNxt: int)
    ensures rcvNxt == 30 && Holds(ofo, 30) && ofo == [Piece(c, 3, 50, 60), Piece(c, 0, 30, 100)]
  {
    hide MetaReceive.Sound, MetaReceive.NoGap, MetaReceive.QueueOk, MetaReceive.Queued, MetaReceive.StaysOrCleared;
    hide Piece, Legal, Apply, Drain, Honest, Holds;
    var s := Stream(0, seq(100, _ => c));
    var m := new MetaReceive(0, 3);
    assert s == Stream(0, [] + s.cells);
    m.SafeAfterWrite(Stream(0, []), s.cells);
    PieceHonest(c, 0, 30, 100);
    ghost var o := m.AddMetaOfoQueue(1, Piece(c, 0, 30, 100), false, s);
    FirstInsertion(Piece(c, 0, 30, 100), o);
    PieceHonest(c, 1, 10, 20);
    o := m.AddMetaOfoQueue(0, Piece(c, 1, 10, 20), false, s);
    InsertionBefore(Piece(c, 0, 30, 100), Piece(c, 1, 10, 20), o);
    assert m.ofo == [Piece(c, 1, 10, 20), Piece(c, 0, 30, 100)];
    PieceHonest(c, 2, 20, 50);
    assert MetaReceive.OwnTouches(m.ofo, m.shortcuts, 0, Piece(c, 2, 20, 50), 0);
    o := m.AddMetaOfoQueue(0, Piece(c, 2, 20, 50), false, s);
    InsertionBeforeLast(Piece(c, 1, 10, 20), Piece(c, 2, 20, 50), Piece(c, 0, 30, 100), Piece(c, 2, 20, 50));
    PieceHonest(c, 3, 50, 60);
    assert MetaReceive.OwnTouches(m.ofo, m.shortcuts, 0, Piece(c, 3, 50, 60), 1);
    o := m.AddMetaOfoQueue(0, Piece(c, 3, 50, 60), false, s);
    InsertionBeforeLast(Piece(c, 1, 10, 20), Piece(c, 2, 20, 50), Piece(c, 0, 30, 100), Piece(c, 3, 50, 60));
    PieceHonest(c, 4, 5, 25);
    o := m.AddMetaOfoQueue(2, Piece(c, 4, 5, 25), false, s);
    CleanUpOfRun(c, o);
    DrainsOfRun(c);
    assert m.ofo == [Piece(c, 4, 5, 25)] + [Piece(c, 3, 50, 60), Piece(c, 0, 30, 100)];
    PieceHonest(c, 5, 0, 5);
    var queued := m.PushInOrder(Piece(c, 5, 0, 5), false, s);
    PieceHonest(c, 6, 25, 30);
    queued := m.PushInOrder(Piece(c, 6, 25, 30), false, s);
    return m.ofo, m.rcvNxt;
  }
}

/**
 The reinject queue of the meta socket: segments that have to be sent again on another subflow.
 */
module Reinject {
  import opened SeqArith

  /** A queued segment; `pcount` is its TSO packet count. */
  datatype Seg = Seg(start: int, end: int, pcount: nat)

  const MAX_SEG: int := 0x2_0000
  const REACH: int := 0x4000_0000

  /** End numbers strictly increase along the queue; starts need not. */
  ghost predicate EndsIncrease(q: seq<Seg>) {
    forall i, j :: 0 <= i < j < |q| ==> q[i].end < q[j].end
  }

  /** A segment of the send window around `una`. */
  predicate InWindow(k: Seg, una: int) {
    0 < k.end - k.start <= MAX_SEG && una - REACH < k.start && k.end <= una + REACH
  }

  ghost predicate Holds(q: seq<Seg>, n: int) {
    exists i :: 0 <= i < |q| && q[i].start <= n < q[i].end
  }

  // ------------------------------------------------------------ acknowledgement, as a function

  /** Only the front is looked at. */
  function DropAcked(q: seq<Seg>, una: int): seq<Seg> {
    if q != [] && q[0].end <= una then DropAcked(q[1..], una) else q
  }

  /** All segments that are not fully acknowledged, wherever they stand. */
  function Unacked(q: seq<Seg>, una: int): seq<Seg> {
    if q == [] then []
    else (if q[0].end > una then [q[0]] else []) + Unacked(q[1..], una)
  }

  /**
   Stopping at the first unacknowledged segment loses nothing: with increasing ends the front that is
   dropped is exactly the set of fully acknowledged segments.
   */
  lemma {:induction false} DropAckedIsExact(q: seq<Seg>, una: int)
    requires EndsIncrease(q)
    ensures DropAcked(q, una) == Unacked(q, una)
  {
    if q != [] {
      DropAckedIsExact(q[1..], una);
      if q[0].end > una {
        AllUnacked(q, una);
      }
    }
  }

  lemma {:induction false} AllUnacked(q: seq<Seg>, una: int)
    requires forall i :: 0 <= i < |q| ==> q[i].end > una
    ensures Unacked(q, una) == q
  {
    if q != [] {
      AllUnacked(q[1..], una);
    }
  }

  /** Without increasing ends an acknowledged segment can be left behind. */
  lemma DropAckedCanMiss()
    ensures var q := [Seg(0, 100, 1), Seg(10, 50, 1)];
            DropAcked(q, 60) == q && Unacked(q, 60) != q
  {
    var q := [Seg(0, 100, 1), Seg(10, 50, 1)];
    assert Unacked(q[1..], 60) == [];
  }

  /** The head, cut to its unacknowledged part when it consists of several packets. */
  function TrimFront(q: seq<Seg>, una: int): seq<Seg> {
    if q != [] && q[0].pcount != 1 && q[0].start < una < q[0].end then q[0 := q[0].(start := una)] else q
  }

  /** `mptcp_clean_rtx_queue`, the part on the reinject queue: no unacknowledged byte is lost or added. */
  lemma {:induction false} CleanKeepsUnacked(q: seq<Seg>, una: int, n: int)
    requires una <= n
    ensures Holds(TrimFront(DropAcked(q, una), una), n) <==> Holds(q, n)
  {
    if q != [] && q[0].end <= una {
      CleanKeepsUnacked(q[1..], una, n);
      HoldsTail(q, n);
    } else {
      TrimHolds(q, una, n);
    }
  }

  lemma HoldsTail(q: seq<Seg>, n: int)
    requires q != []
    ensures Holds(q, n) <==> q[0].start <= n < q[0].end || Holds(q[1..], n)
  {
    if Holds(q, n) {
      var i :| 0 <= i < |q| && q[i].start <= n < q[i].end;
      assert i > 0 ==> q[1..][i - 1] == q[i];
    }
    if Holds(q[1..], n) {
      var i :| 0 <= i < |q[1..]| && q[1..][i].start <= n < q[1..][i].end;
      assert q[i + 1] == q[1..][i];
    }
  }

  lemma TrimHolds(q: seq<Seg>, una: int, n: int)
    requires una <= n
    ensures Holds(TrimFront(q, una), n) <==> Holds(q, n)
  {
    var r := TrimFront(q, una);
    if Holds(q, n) {
      var i :| 0 <= i < |q| && q[i].start <= n < q[i].end;
      assert r[i].start <= n < r[i].end;
    }
    if Holds(r, n) {
      var i :| 0 <= i < |r| && r[i].start <= n < r[i].end;
      assert q[i].start <= n < q[i].end;
    }
  }

  // ------------------------------------------------------------ insertion, as an outcome

  /** Dropped because `at` has it all, or queued at `at` in place of at..upto. */
  datatype Outcome = Present(at: nat) | Queued(at: nat, upto: nat)

  function Apply(q: seq<Seg>, k: Seg, o: Outcome): seq<Seg>
    requires Fits(q, o)
  {
    match o
    case Present(_) => q
    case Queued(at, upto) => q[..at] + [k] + q[upto..]
  }

  predicate Fits(q: seq<Seg>, o: Outcome) {
    match o
    case Present(at) => at < |q|
    case Queued(at, upto) => at <= upto <= |q|
  }

  ghost predicate Legal(q: seq<Seg>, k: Seg, o: Outcome) {
    && Fits(q, o)
    && match o
       case Present(at) => q[at].start <= k.start && k.end <= q[at].end
       case Queued(at, upto) =>
         && (at > 0 ==> q[at - 1].end < k.end)
         && (forall i :: at <= i < upto ==> k.start <= q[i].start < k.end)
         && (upto < |q| ==> k.end <= q[upto].start)
  }

  /** Every legal insertion keeps the ends increasing. */
  lemma InsertKeepsEnds(q: seq<Seg>, k: Seg, o: Outcome)
    requires EndsIncrease(q) && Legal(q, k, o)
    requires forall i :: 0 <= i < |q| ==> q[i].start < q[i].end
    ensures EndsIncrease(Apply(q, k, o))
  {
    if o.Queued? {
      var r := Apply(q, k, o);
      forall i | 0 <= i < |r|
        ensures r[i] == if i < o.at then q[i] else if i == o.at then k else q[i - o.at - 1 + o.upto]
      {
      }
      forall i | 0 <= i < o.at
        ensures q[i].end < k.end
      {
        assert i < o.at - 1 ==> q[i].end < q[o.at - 1].end;
      }
      forall i | o.upto <= i < |q|
        ensures k.end < q[i].end
      {
        assert i > o.upto ==> q[o.upto].end < q[i].end;
      }
    }
  }

  /** The new segment is queued afterwards and nothing else is new. */
  lemma InsertHoldsNew(q: seq<Seg>, k: Seg, o: Outcome, n: int)
    requires Legal(q, k, o)
    ensures k.start <= n < k.end ==> Holds(Apply(q, k, o), n)
    ensures Holds(Apply(q, k, o), n) ==> Holds(q, n) || k.start <= n < k.end
  {
    var r := Apply(q, k, o);
    if k.start <= n < k.end {
      assert r[o.at].start <= n < r[o.at].end;
    }
    if Holds(r, n) {
      var i :| 0 <= i < |r| && r[i].start <= n < r[i].end;
      if o.Queued? && i > o.at {
        assert r[i] == q[i - o.at - 1 + o.upto];
      } else if !(k.start <= n < k.end) {
        assert q[i].start <= n < q[i].end;
      }
    }
  }

  /**
   What was queued stays queued unless the last removed segment reaches beyond the new one; of that one
   only bytes from the new segment's end on can be lost.
   */
  lemma InsertKeepsOld(q: seq<Seg>, k: Seg, o: Outcome, n: int)
    requires EndsIncrease(q) && Legal(q, k, o) && Holds(q, n)
    requires o.Queued? && o.at < o.upto && q[o.upto - 1].end > k.end ==> n < k.end
    ensures Holds(Apply(q, k, o), n)
  {
    var r := Apply(q, k, o);
    var i :| 0 <= i < |q| && q[i].start <= n < q[i].end;
    if o.Queued? {
      if i < o.at {
        assert r[i] == q[i];
      } else if i >= o.upto {
        assert r[i - o.upto + o.at + 1] == q[i];
      } else {
        assert i < o.upto - 1 ==> q[i].end < q[o.upto - 1].end;
        assert r[o.at] == k;
      }
    }
  }

  /** The last segment from position `n` back that does not start behind the new one; -1 if there is none. */
  function WalkBack(q: seq<Seg>, k: Seg, n: int): (at: int)
    requires n < |q|
    ensures at <= n && at < |q| && (n >= -1 ==> at >= -1)
    ensures forall i :: at < i <= n && 0 <= i ==> k.start < q[i].start
    ensures at >= 0 ==> q[at].start <= k.start
    decreases n + 1
  {
    if n < 0 || q[n].start <= k.start then n else WalkBack(q, k, n - 1)
  }

  /** The first segment from position `u` on that does not start in front of the new one's end. */
  function Behind(q: seq<Seg>, k: Seg, u: nat): (v: nat)
    requires u <= |q|
    ensures u <= v <= |q|
    ensures forall i :: u <= i < v ==> q[i].start < k.end
    ensures v < |q| ==> k.end <= q[v].start
    decreases |q| - u
  {
    if u == |q| || q[u].start >= k.end then u else Behind(q, k, u + 1)
  }

  /** What the insertion does is settled by the queue and the segment. */
  function OutcomeOf(q: seq<Seg>, k: Seg): (o: Outcome)
    ensures Fits(q, o)
  {
    var at := WalkBack(q, k, |q| - 1);
    if at >= 0 && k.end <= q[at].end && k.start < q[at].end then Present(at)
    else
      var p := if at >= 0 && k.start < q[at].end && k.start == q[at].start then at else at + 1;
      Queued(p, Behind(q, k, p))
  }

  lemma OutcomeIsLegal(q: seq<Seg>, k: Seg)
    requires EndsIncrease(q) && k.start < k.end
    ensures Legal(q, k, OutcomeOf(q, k))
  {
    var at := WalkBack(q, k, |q| - 1);
    assert at > 0 ==> q[at - 1].end < q[at].end;
  }

  /**
   A queued number is lost exactly when the new segment is not already there, the number lies behind its end, and
   every segment that has it starts within the new one, in the row that is removed.
   */
  lemma InsertLosesIff(q: seq<Seg>, k: Seg, n: int)
    requires EndsIncrease(q) && k.start < k.end && Holds(q, n)
    ensures var o := OutcomeOf(q, k);
            !Holds(Apply(q, k, o), n) <==>
            o.Queued? && o.at < o.upto && k.end <= n < q[o.upto - 1].end && !Holds(q[o.upto..], n)
  {
    var o := OutcomeOf(q, k);
    OutcomeIsLegal(q, k);
    hide OutcomeOf;
    var r := Apply(q, k, o);
    if o.Queued? {
      if Holds(q[o.upto..], n) {
        var j :| 0 <= j < |q| - o.upto && q[o.upto..][j].start <= n < q[o.upto..][j].end;
        assert r[j + o.at + 1] == q[o.upto..][j];
      } else if o.at < o.upto && k.end <= n < q[o.upto - 1].end {
        forall i | 0 <= i < |r|
          ensures !(r[i].start <= n < r[i].end)
        {
          assert i < o.at ==> r[i] == q[i] && (i == o.at - 1 || q[i].end < q[o.at - 1].end);
          assert i > o.at ==> r[i] == q[o.upto..][i - o.at - 1];
        }
      } else {
        LaterEnds(q, o.upto, n);
        InsertKeepsOld(q, k, o, n);
      }
    }
  }

  /** The same for the queue afterwards: what it holds is the new segment and what was queued and is not lost. */
  lemma InsertHoldsIff(q: seq<Seg>, k: Seg, n: int)
    requires EndsIncrease(q) && k.start < k.end
    ensures var o := OutcomeOf(q, k);
            Holds(Apply(q, k, o), n) <==>
            || k.start <= n < k.end
            || (Holds(q, n)
                && !(o.Queued? && o.at < o.upto && k.end <= n < q[o.upto - 1].end && !Holds(q[o.upto..], n)))
  {
    OutcomeIsLegal(q, k);
    hide Apply, OutcomeOf, EndsIncrease, Legal, Holds;
    InsertHoldsNew(q, k, OutcomeOf(q, k), n);
    if Holds(q, n) {
      InsertLosesIff(q, k, n);
    }
  }

  /** A number held, but not from position `m` on, lies below the end of the segment in front of that. */
  lemma LaterEnds(q: seq<Seg>, m: nat, n: int)
    requires EndsIncrease(q) && Holds(q, n) && m <= |q|
    ensures Holds(q[m..], n) || (m > 0 && n < q[m - 1].end)
  {
    var i :| 0 <= i < |q| && q[i].start <= n < q[i].end;
    assert i >= m ==> q[m..][i - m] == q[i];
    assert i < m - 1 ==> q[i].end < q[m - 1].end;
  }

  /** The loss happens: [30, 90) is removed for [20, 50), and 60 is queued no more. */
  lemma InsertCanLose()
    ensures var q := [Seg(30, 90, 1)];
            var k := Seg(20, 50, 1);
            Legal(q, k, Queued(0, 1)) && Holds(q, 60) && !Holds(Apply(q, k, Queued(0, 1)), 60)
  {
    var q := [Seg(30, 90, 1)];
    assert q[0].start <= 60 < q[0].end;
  }

  // ------------------------------------------------------------ the queue

  /** The meta write queue: each segment starts where the one before it ended, or later. */
  ghost predicate Ordered(q: seq<Seg>) {
    forall i, j :: 0 <= i < j < |q| ==> q[i].end <= q[j].start
  }

  predicate InsideUnacked(w: Seg, k: Seg, una: int) {
    k.start <= w.start && w.end <= k.end && una < w.end
  }

  ghost predicate AllHeld(q: seq<Seg>, w: Seg) {
    forall n :: w.start <= n < w.end ==> Holds(q, n)
  }

  lemma HeldNew(q: seq<Seg>, w: Seg, o: Outcome)
    requires Legal(q, w, o)
    ensures AllHeld(Apply(q, w, o), w)
  {
    forall n | w.start <= n < w.end
      ensures Holds(Apply(q, w, o), n)
    {
      InsertHoldsNew(q, w, o, n);
    }
  }

  /** What lies before the new segment's end is never lost. */
  lemma HeldOld(q: seq<Seg>, w: Seg, o: Outcome, v: Seg)
    requires EndsIncrease(q) && Legal(q, w, o) && AllHeld(q, v) && v.end <= w.end
    ensures AllHeld(Apply(q, w, o), v)
  {
    forall n | v.start <= n < v.end
      ensures Holds(Apply(q, w, o), n)
    {
      InsertKeepsOld(q, w, o, n);
    }
  }

  /** The segment at `place` starts where the new one does. */
  predicate StartsAt(q: seq<Seg>, place: int, k: Seg) {
    0 <= place < |q| && q[place].start == k.start
  }

  /**
   `r` is `q` with `k` behind `place`, the last segment that does not start behind `k`: unchanged if that one has it
   all, else `k` stands for it, if they start together, and for those up to `upto` that start in front of its end.
   */
  ghost predicate Placed(q: seq<Seg>, k: Seg, r: seq<Seg>, place: int, upto: int) {
    && -1 <= place <= upto <= |q| && place < |q|
    && (place >= 0 ==> q[place].start <= k.start)
    && (forall i :: place < i < |q| ==> k.start < q[i].start)
    && if place >= 0 && k.end <= q[place].end then r == q && upto == place
       else
         && place < upto && r == q[..if StartsAt(q, place, k) then place else place + 1] + [k] + q[upto..]
         && (forall i :: place < i < upto ==> q[i].start < k.end)
         && (upto < |q| ==> k.end <= q[upto].start)
  }

  /** Place and end of the row, and the row that the outcome names. */
  lemma WhereIs(q: seq<Seg>, k: Seg) returns (place: int, upto: int)
    requires k.start < k.end && forall i :: 0 <= i < |q| ==> q[i].start < q[i].end
    ensures Placed(q, k, Apply(q, k, OutcomeOf(q, k)), place, upto)
    ensures var o := OutcomeOf(q, k);
            && (place < upto - (if StartsAt(q, place, k) then 0 else 1) <==> o.Queued? && o.at < o.upto)
            && (o.Queued? ==> upto == o.upto)
  {
    place := WalkBack(q, k, |q| - 1);
    upto := if OutcomeOf(q, k).Queued? then OutcomeOf(q, k).upto else place;
  }

  /** The number lies in front of the end of every segment that the search queues. */
  ghost predicate InFront(n: int, writeQueue: seq<Seg>, k: Seg, una: int) {
    forall i :: 0 <= i < |writeQueue| && InsideUnacked(writeQueue[i], k, una) ==> n < writeQueue[i].end
  }

  ghost predicate FromWriteQueue(n: int, writeQueue: seq<Seg>, k: Seg, una: int) {
    exists i :: 0 <= i < |writeQueue| && InsideUnacked(writeQueue[i], k, una)
                && writeQueue[i].start <= n < writeQueue[i].end
  }

  class ReinjectQueue {
    var queue: seq<Seg>
    var sndUna: int

    ghost predicate Valid()
      reads this
    {
      && EndsIncrease(queue)
      && forall i :: 0 <= i < |queue| ==> InWindow(queue[i], sndUna)
    }

    /** No segment that was fully acknowledged is still queued. */
    ghost predicate NoneAcked()
      reads this
    {
      forall i :: 0 <= i < |queue| ==> sndUna < queue[i].end
    }

    constructor (una: int)
      ensures Valid() && NoneAcked() && queue == [] && sndUna == una
    {
      queue, sndUna := [], una;
    }

    /**
     The insertion part of `__mptcp_reinject_data`: walk back from the tail, drop or link the segment, then
     unlink the successors it reaches into.
     */
    method Insert(k: Seg) returns (ghost o: Outcome)
      requires Valid() && InWindow(k, sndUna)
      modifies this`queue
      ensures Legal(old(queue), k, o) && queue == Apply(old(queue), k, o) && o == OutcomeOf(old(queue), k)
      ensures Valid() && (old(NoneAcked()) && sndUna < k.end ==> NoneAcked())
    {
      hide *;
      OutcomeIs(queue, k);
      SegmentLength(k, sndUna);
      if queue == [] {
        IntoEmpty(k);
        queue := [k];
        WindowOfOne(k);
        return Queued(0, 0);
      }
      var at := FindPlace(k);
      PlaceFacts(queue, k, at);
      if at >= 0 {
        WindowAt(at);
        InWindowNear(queue[at], k, sndUna);
        if Before(k.start, queue[at].end) {
          if !After(k.end, queue[at].end) {
            PresentIsLegal(queue, k, at);
            return Present(at);
          }
          if SameSeq(k.start, queue[at].start) {
            o := LinkAndClean(k, at);
            return;
          }
        }
      }
      o := LinkAndClean(k, at + 1);
    }

    lemma WindowAt(at: nat)
      requires Valid() && at < |queue|
      ensures EndsIncrease(queue) && InWindow(queue[at], sndUna)
    {
    }

    lemma WindowOfOne(k: Seg)
      requires queue == [k] && InWindow(k, sndUna)
      ensures Valid() && (sndUna < k.end ==> NoneAcked())
    {
    }

    /** Where the new segment goes, by what the place found tells. */
    lemma PlaceFacts(q: seq<Seg>, k: Seg, at: int)
      requires Valid() && q == queue != [] && k.start < k.end && at == WalkBack(q, k, |q| - 1)
      ensures -1 <= at < |q|
      ensures forall i :: at < i < |q| ==> k.start <= q[i].start
      ensures at >= 0 && (q[at].end <= k.start || q[at].end < k.end) ==> q[at].end < k.end
      ensures at > 0 ==> q[at - 1].end < q[at].end
      ensures at >= 0 ==> q[at].start <= k.start
    {
    }

    /** Walks back from the tail to the last segment that does not start behind the new one. */
    method FindPlace(k: Seg) returns (at: int)
      requires Valid() && InWindow(k, sndUna) && queue != []
      ensures -1 <= at < |queue| && at == WalkBack(queue, k, |queue| - 1)
      ensures forall i :: at < i < |queue| ==> k.start < queue[i].start
      ensures at >= 0 ==> queue[at].start <= k.start
    {
      hide EndsIncrease, WalkBack, Before, InWindow;
      at := |queue| - 1;
      while at >= 0 && After(queue[at].start, k.start)
        invariant -1 <= at < |queue|
        invariant forall i :: at < i < |queue| ==> k.start < queue[i].start
        invariant WalkBack(queue, k, |queue| - 1) == WalkBack(queue, k, at)
      {
        WalkStep(queue, k, at);
        InWindowNear(queue[at], k, sndUna);
        at := at - 1;
      }
      WalkStep(queue, k, at);
      if at >= 0 {
        InWindowNear(queue[at], k, sndUna);
      }
    }

    twostate lemma Positive(q: seq<Seg>)
      requires q == old(queue) && old(Valid())
      ensures EndsIncrease(q) && forall i :: 0 <= i < |q| ==> q[i].start < q[i].end
    {
    }

    static lemma SegmentLength(k: Seg, una: int)
      requires InWindow(k, una)
      ensures k.start < k.end
    {
    }

    static lemma IntoEmpty(k: Seg)
      requires k.start < k.end
      ensures Legal([], k, Queued(0, 0)) && Apply([], k, Queued(0, 0)) == [k] && EndsIncrease([k])
    {
    }

    static lemma PresentIsLegal(q: seq<Seg>, k: Seg, at: nat)
      requires at < |q| && q[at].start <= k.start && k.end <= q[at].end
      ensures Legal(q, k, Present(at)) && Apply(q, k, Present(at)) == q
    {
    }

    static lemma InWindowNear(a: Seg, b: Seg, una: int)
      requires InWindow(a, una) && InWindow(b, una)
      ensures Near(a.start, b.start) && Near(a.end, b.start) && Near(a.end, b.end)
      ensures Near(b.start, a.start) && Near(b.start, a.end) && Near(b.end, a.end)
    {
    }

    static lemma WalkStep(q: seq<Seg>, k: Seg, n: int)
      requires -1 <= n < |q|
      ensures WalkBack(q, k, n) == if n < 0 || q[n].start <= k.start then n else WalkBack(q, k, n - 1)
    {
    }

    static lemma OutcomeIs(q: seq<Seg>, k: Seg)
      ensures var at := WalkBack(q, k, |q| - 1);
              OutcomeOf(q, k)
              == if at >= 0 && k.end <= q[at].end && k.start < q[at].end then Present(at)
                 else if at >= 0 && k.start < q[at].end && k.start == q[at].start then Queued(at, Behind(q, k, at))
                 else Queued(at + 1, Behind(q, k, at + 1))
      ensures q == [] ==> OutcomeOf(q, k) == Queued(0, 0)
    {
    }

    static lemma EndsGrow(q: seq<Seg>, i: nat)
      requires EndsIncrease(q) && 0 < i < |q|
      ensures q[i - 1].end < q[i].end
    {
    }

    method LinkAndClean(k: Seg, at: nat) returns (ghost o: Outcome)
      requires Valid() && InWindow(k, sndUna) && at <= |queue|
      requires at > 0 ==> queue[at - 1].end < k.end
      requires forall i :: at <= i < |queue| ==> k.start <= queue[i].start
      modifies this`queue
      ensures o == Queued(at, Behind(old(queue), k, at))
      ensures Legal(old(queue), k, o) && queue == Apply(old(queue), k, o)
      ensures Valid() && (old(NoneAcked()) && sndUna < k.end ==> NoneAcked())
    {
      hide EndsIncrease;
      ghost var q := queue;
      queue := queue[..at] + [k] + queue[at..];
      ghost var upto := CleanCovered(q, at, k);
      o := Queued(at, upto);
      InsertKeepsEnds(q, k, o);
      InsertedElements(q, k, o);
    }

    /** Unlinks the segments after position `at` that start below the new one's end. */
    method CleanCovered(ghost q: seq<Seg>, at: nat, k: Seg) returns (ghost upto: nat)
      requires at <= |q| && queue == q[..at] + [k] + q[at..] && InWindow(k, sndUna)
      requires forall i :: 0 <= i < |q| ==> InWindow(q[i], sndUna)
      modifies this`queue
      ensures at <= upto <= |q| && queue == q[..at] + [k] + q[upto..]
      ensures forall i :: at <= i < upto ==> q[i].start < k.end
      ensures upto < |q| ==> k.end <= q[upto].start
      ensures upto == Behind(q, k, at)
    {
      upto := at;
      while at + 1 < |queue| && After(k.end, queue[at + 1].start)
        invariant at <= upto <= |q| && queue == q[..at] + [k] + q[upto..]
        invariant forall i :: at <= i < upto ==> q[i].start < k.end
        invariant Behind(q, k, at) == Behind(q, k, upto)
        decreases |queue|
      {
        CutNext(q, at, upto, k);
        queue := queue[..at + 1] + queue[at + 2..];
        upto := upto + 1;
      }
      assert upto < |q| ==> queue[at + 1] == q[upto];
    }

    static lemma CutNext(q: seq<Seg>, at: nat, upto: nat, k: Seg)
      requires at <= upto < |q|
      ensures var r := q[..at] + [k] + q[upto..];
              r[at + 1] == q[upto] && r[..at + 1] + r[at + 2..] == q[..at] + [k] + q[upto + 1..]
    {
    }

    static lemma InsertedElements(q: seq<Seg>, k: Seg, o: Outcome)
      requires Fits(q, o)
      ensures var r := Apply(q, k, o);
              forall i :: 0 <= i < |r| ==> r[i] == k || exists j :: 0 <= j < |q| && r[i] == q[j]
    {
      var r := Apply(q, k, o);
      forall i | 0 <= i < |r|
        ensures r[i] == k || exists j :: 0 <= j < |q| && r[i] == q[j]
      {
        var j := if o.Present? || i < o.at then i else i - o.at - 1 + o.upto;
        assert r[i] == k || r[i] == q[j];
      }
    }

    /**
     `__mptcp_reinject_data` for a segment taken back from a subflow.  `len` is its payload with the DATA_FIN.  A
     segment that covers its mapping goes behind `place`, the last one that does not start behind it: it is dropped if
     that one has it all, else it replaces that one if they start together, and all that follow and start in front of
     its end.  Numbers are lost exactly behind its end, in the last one replaced, if none further on has them.  For
     any other segment the meta write queue is searched for those inside the mapping: on an ordered write queue all of
     them are queued afterwards, to the last byte, and nothing in front of them is lost or comes from nowhere.
     */
    method ReinjectData(k: Seg, len: nat, writeQueue: seq<Seg>) returns (ghost place: int, ghost upto: int)
      requires Valid() && InWindow(k, sndUna)
      requires forall i :: 0 <= i < |writeQueue| ==> InWindow(writeQueue[i], sndUna)
      modifies this`queue
      ensures Valid() && (old(NoneAcked()) ==> NoneAcked())
      ensures k.end <= sndUna ==> queue == old(queue)
      ensures k.end > sndUna && len == k.end - k.start ==>
                && -1 <= place <= upto <= |old(queue)| && place < |old(queue)|
                && (place >= 0 ==> old(queue)[place].start <= k.start)
                && (forall i :: place < i < |old(queue)| ==> k.start < old(queue)[i].start)
                && (if place >= 0 && k.end <= old(queue)[place].end then queue == old(queue) && upto == place
                    else
                      && place < upto
                      && (forall i :: place < i < upto ==> old(queue)[i].start < k.end)
                      && (upto < |old(queue)| ==> k.end <= old(queue)[upto].start)
                      && queue == old(queue)[..if StartsAt(old(queue), place, k) then place else place + 1] + [k]
                                  + old(queue)[upto..])
      ensures k.end > sndUna && len == k.end - k.start ==>
                forall n :: Holds(queue, n) <==>
                  || k.start <= n < k.end
                  || (old(Holds(queue, n))
                      && !(k.end <= n && place < upto - (if StartsAt(old(queue), place, k) then 0 else 1)
                           && n < old(queue)[upto - 1].end && !Holds(old(queue)[upto..], n)))
      ensures k.end > sndUna && len != k.end - k.start && Ordered(writeQueue) ==>
                forall i :: 0 <= i < |writeQueue| && InsideUnacked(writeQueue[i], k, sndUna) ==>
                  AllHeld(queue, writeQueue[i])
      ensures k.end > sndUna && len != k.end - k.start ==>
                && (forall n :: old(Holds(queue, n)) && InFront(n, writeQueue, k, sndUna) ==> Holds(queue, n))
                && (forall n :: Holds(queue, n) ==> old(Holds(queue, n)) || FromWriteQueue(n, writeQueue, k, sndUna))
    {
      place, upto := -1, 0;
      if !After(k.end, sndUna) {
        return;
      }
      if len != k.end - k.start {
        SearchWriteQueue(k, writeQueue);
      } else {
        place, upto := InsertWhole(k, []);
      }
    }

    /** The search of the meta write queue for the segments inside the mapping of `k`. */
    method SearchWriteQueue(k: Seg, writeQueue: seq<Seg>)
      requires Valid() && InWindow(k, sndUna)
      requires forall i :: 0 <= i < |writeQueue| ==> InWindow(writeQueue[i], sndUna)
      modifies this`queue
      ensures Valid() && (old(NoneAcked()) ==> NoneAcked())
      ensures Ordered(writeQueue) ==>
                forall i :: 0 <= i < |writeQueue| && InsideUnacked(writeQueue[i], k, sndUna) ==>
                  AllHeld(queue, writeQueue[i])
      ensures forall n :: old(Holds(queue, n)) && InFront(n, writeQueue, k, sndUna) ==> Holds(queue, n)
      ensures forall n :: Holds(queue, n) ==> old(Holds(queue, n)) || FromWriteQueue(n, writeQueue, k, sndUna)
    {
      hide EndsIncrease, Legal, Holds, AllHeld, OutcomeOf, Apply, Placed;
      var i := 0;
      while i < |writeQueue|
        invariant i <= |writeQueue| && Valid() && (old(NoneAcked()) ==> NoneAcked())
        invariant Ordered(writeQueue) ==>
                    forall j :: 0 <= j < i && InsideUnacked(writeQueue[j], k, sndUna) ==>
                      AllHeld(queue, writeQueue[j])
        invariant forall n :: old(Holds(queue, n)) && InFront(n, writeQueue, k, sndUna) ==> Holds(queue, n)
        invariant forall n :: Holds(queue, n) ==> old(Holds(queue, n)) || FromWriteQueue(n, writeQueue, k, sndUna)
      {
        var w := writeQueue[i];
        InWindowNear(w, k, sndUna);
        if !Before(w.start, k.start) {
          if After(w.end, k.end) {
            return;
          }
          if After(w.end, sndUna) {
            ghost var _, _ := InsertWhole(w, writeQueue[..i]);
            assert forall j :: 0 <= j < i ==> writeQueue[..i][j] == writeQueue[j];
          }
        }
        i := i + 1;
      }
    }

    /** An insertion after which the segment is held, and so are those in front of it that were. */
    method InsertWhole(w: Seg, ghost front: seq<Seg>) returns (ghost place: int, ghost upto: int)
      requires Valid() && InWindow(w, sndUna)
      modifies this`queue
      ensures Valid() && (old(NoneAcked()) && sndUna < w.end ==> NoneAcked())
      ensures AllHeld(queue, w)
      ensures forall j :: 0 <= j < |front| && front[j].end <= w.end && old(AllHeld(queue, front[j])) ==>
                AllHeld(queue, front[j])
      ensures Placed(old(queue), w, queue, place, upto)
      ensures forall n :: Holds(queue, n) <==>
                || w.start <= n < w.end
                || (old(Holds(queue, n))
                    && !(w.end <= n && place < upto - (if StartsAt(old(queue), place, w) then 0 else 1)
                         && n < old(queue)[upto - 1].end && !Holds(old(queue)[upto..], n)))
    {
      hide EndsIncrease, Legal, Holds, AllHeld, OutcomeOf, Apply;
      ghost var q := queue;
      ghost var o := Insert(w);
      HeldNew(q, w, o);
      forall j | 0 <= j < |front| && front[j].end <= w.end && AllHeld(q, front[j])
        ensures AllHeld(queue, front[j])
      {
        HeldOld(q, w, o, front[j]);
      }
      SegmentLength(w, sndUna);
      Positive(q);
      place, upto := WhereIs(q, w);
      forall n {
        InsertHoldsIff(q, w, n);
      }
    }

    /** `mptcp_clean_rtx_queue` after a DATA_ACK moved `snd_una` to `una`, whatever was acknowledged before. */
    method CleanRtxQueue(una: int)
      requires Valid() && sndUna <= una <= sndUna + REACH
      modifies this
      ensures Valid() && NoneAcked() && sndUna == una
      ensures queue == TrimFront(DropAcked(old(queue), una), una)
      ensures forall n :: una <= n ==> (Holds(queue, n) <==> Holds(old(queue), n))
    {
      ghost var q, before := queue, sndUna;
      sndUna := una;
      DropFront(before);
      if queue != [] && queue[0].pcount != 1 && After(sndUna, queue[0].start) {
        queue := queue[0 := queue[0].(start := sndUna)];
      }
      forall n | una <= n
        ensures Holds(queue, n) <==> Holds(q, n)
      {
        CleanKeepsUnacked(q, una, n);
      }
    }

    /** The loop over the front: unlinks while fully acknowledged. */
    method DropFront(ghost before: int)
      requires EndsIncrease(queue) && before <= sndUna <= before + REACH
      requires forall i :: 0 <= i < |queue| ==> InWindow(queue[i], before)
      modifies this`queue
      ensures queue == DropAcked(old(queue), sndUna) && Valid() && NoneAcked()
    {
      ghost var q := queue;
      while queue != [] && !Before(sndUna, queue[0].end)
        invariant EndsIncrease(queue) && DropAcked(queue, sndUna) == DropAcked(q, sndUna)
        invariant forall i :: 0 <= i < |queue| ==> InWindow(queue[i], before)
        decreases |queue|
      {
        queue := queue[1..];
      }
      forall i | 0 <= i < |queue|
        ensures sndUna < queue[i].end
      {
        assert i > 0 ==> queue[0].end < queue[i].end;
      }
    }

    /**
     `mptcp_fragment` on the segment about to be sent, which is the head.  A head of one packet may be partly
     acknowledged; cut at or below `sndUna`, its first half is fully acknowledged and stays queued until the next
     DATA_ACK or until it is taken.
     */
    method FragmentHead(at: nat)
      requires Valid() && queue != [] && 0 < at < queue[0].end - queue[0].start
      modifies this`queue
      ensures Valid() && (NoneAcked() <==> old(NoneAcked()) && sndUna < old(queue)[0].start + at)
      ensures queue == [Seg(old(queue)[0].start, old(queue)[0].start + at, 1),
                        Seg(old(queue)[0].start + at, old(queue)[0].end, 1)] + old(queue)[1..]
    {
      var k := queue[0];
      var a, b := Seg(k.start, k.start + at, 1), Seg(k.start + at, k.end, 1);
      FrontReplaced(queue, a, b, sndUna);
      hide EndsIncrease;
      assert forall i :: 0 <= i < |queue| - 1 ==> queue[1..][i] == queue[i + 1];
      queue := [a, b] + queue[1..];
    }

    static lemma FrontReplaced(q: seq<Seg>, a: Seg, b: Seg, una: int)
      requires q != [] && a.end < b.end == q[0].end
      ensures EndsIncrease(q) ==> EndsIncrease([a, b] + q[1..])
      ensures (forall i :: 0 <= i < |q| + 1 ==> una < ([a, b] + q[1..])[i].end)
              <==> una < a.end && forall i :: 0 <= i < |q| ==> una < q[i].end
    {
      var r := [a, b] + q[1..];
      assert r[0] == a && r[1] == b;
      forall i | 0 < i < |q|
        ensures q[i] == r[i + 1]
      {
      }
      forall i | 1 < i < |r|
        ensures r[i] == q[i - 1]
      {
      }
    }

    /** The reinject step of `mptcp_write_xmit`: takes the head; false if it had already been acknowledged. */
    method TakeHead() returns (send: bool)
      requires Valid() && queue != []
      modifies this`queue
      ensures Valid() && queue == old(queue)[1..] && (old(NoneAcked()) ==> NoneAcked() && send)
      ensures send <==> sndUna < old(queue)[0].end
    {
      send := After(queue[0].end, sndUna);
      queue := queue[1..];
    }

    /** One step of a run, and what it makes of the queue; one that cannot be taken leaves everything as it is. */
    method Step(e: Event)
      requires Valid()
      modifies this
      ensures Valid()
      ensures var acked := e.DataAck? && old(sndUna) <= e.una <= old(sndUna) + REACH;
              && sndUna == (if acked then e.una else old(sndUna))
              && (acked ==>
                    && NoneAcked() && queue == TrimFront(DropAcked(old(queue), e.una), e.una)
                    && forall n :: e.una <= n ==> (Holds(queue, n) <==> old(Holds(queue, n))))
              && (e.DataAck? && !acked ==> queue == old(queue))
      ensures e.TakeBack? && Takeable(e, old(sndUna)) && e.len == e.k.end - e.k.start && sndUna < e.k.end ==>
                AllHeld(queue, e.k) && forall n :: n < e.k.end && old(Holds(queue, n)) ==> Holds(queue, n)
      ensures e.TakeBack? && Takeable(e, old(sndUna)) && e.len != e.k.end - e.k.start && sndUna < e.k.end
              && Ordered(e.writeQueue) ==>
                forall i :: 0 <= i < |e.writeQueue| && InsideUnacked(e.writeQueue[i], e.k, sndUna) ==>
                  AllHeld(queue, e.writeQueue[i])
      ensures e.TakeBack? && (!Takeable(e, old(sndUna)) || e.k.end <= sndUna) ==> queue == old(queue)
      ensures e.Split? ==>
                queue == if old(queue) != [] && 0 < e.at < old(queue)[0].end - old(queue)[0].start then
                           [Seg(old(queue)[0].start, old(queue)[0].start + e.at, 1),
                            Seg(old(queue)[0].start + e.at, old(queue)[0].end, 1)] + old(queue)[1..]
                         else old(queue)
      ensures e.Take? ==> queue == if old(queue) != [] then old(queue)[1..] else []
    {
      hide EndsIncrease, Placed, TrimFront, DropAcked;
      match e
      case TakeBack(k, len, writeQueue) =>
        if InWindow(k, sndUna) && forall i :: 0 <= i < |writeQueue| ==> InWindow(writeQueue[i], sndUna) {
          ghost var _, _ := ReinjectData(k, len, writeQueue);
        }
      case DataAck(una) =>
        if sndUna <= una <= sndUna + REACH {
          CleanRtxQueue(una);
        }
      case Split(at) =>
        if queue != [] && 0 < at < queue[0].end - queue[0].start {
          FragmentHead(at);
        }
      case Take =>
        if queue != [] {
          var send := TakeHead();
        }
    }
  }

  /** What happens to the reinject queue. */
  datatype Event =
    | TakeBack(k: Seg, len: nat, writeQueue: seq<Seg>)   // a segment comes back from a subflow
    | DataAck(una: int)
    | Split(at: nat)                                     // the head is cut to what fits
    | Take                                               // the head is sent, or found acknowledged

  /** The segments named are segments of the send window. */
  predicate Takeable(e: Event, una: int)
    requires e.TakeBack?
  {
    InWindow(e.k, una) && forall i :: 0 <= i < |e.writeQueue| ==> InWindow(e.writeQueue[i], una)
  }

  /**
   In every reachable state the end numbers increase strictly along the queue, and right after a DATA_ACK no
   fully acknowledged segment is left in it.
   */
  method Run(una: int, events: seq<Event>) returns (r: ReinjectQueue)
    ensures EndsIncrease(r.queue)
    ensures events != [] && events[|events| - 1].DataAck? && r.sndUna == events[|events| - 1].una ==>
              forall i :: 0 <= i < |r.queue| ==> r.sndUna < r.queue[i].end
  {
    r := new ReinjectQueue(una);
    for n := 0 to |events|
      invariant fresh(r) && r.Valid()
      invariant n > 0 && events[n - 1].DataAck? && r.sndUna == events[n - 1].una ==> r.NoneAcked()
    {
      r.Step(events[n]);
    }
  }
}

/**
 The data-level out-of-order queue: what one insertion can do to it (`Outcome`), and what that means for
 the bytes the queue holds.
 */
module OfoQueue {
  import opened SeqArith
  import opened DataStream

  /** All numbers of a segment lie in the half-space of 2^31 numbers that starts at `lo`. */
  ghost predicate Within(lo: int, k: Skb) {
    lo <= k.start < k.End() < lo + TWO_31
  }

  ghost predicate AllWithin(lo: int, q: seq<Skb>) {
    forall i :: 0 <= i < |q| ==> Within(lo, q[i])
  }

  /** How an arriving segment ended up in the queue. */
  datatype Outcome =
    | Covered(at: nat)              // dropped, segment `at` has all of it
    | Merged(at: nat)               // coalesced onto the end of segment `at`
    | Spliced(at: nat, upto: nat)   // queued at position `at`, replacing the segments at..upto

  function Apply(q: seq<Skb>, skb: Skb, o: Outcome): (r: seq<Skb>)
    requires Fits(q, o)
  {
    match o
    case Covered(_) => q
    case Merged(at) => q[at := Merge(q[at], skb)]
    case Spliced(at, upto) => q[..at] + [skb] + q[upto..]
  }

  predicate Fits(q: seq<Skb>, o: Outcome) {
    match o
    case Covered(at) => at < |q|
    case Merged(at) => at < |q|
    case Spliced(at, upto) => at <= upto <= |q|
  }

  /** The outcomes an insertion may have. */
  ghost predicate Legal(q: seq<Skb>, skb: Skb, o: Outcome) {
    && Fits(q, o)
    && match o
       case Covered(at) => q[at].start <= skb.start && skb.End() <= q[at].End()
       case Merged(at) => q[at].End() == skb.start
       case Spliced(at, upto) =>
         && (forall i :: at <= i < upto ==> q[i].start < skb.End())
         && (at < upto ==> skb.start < q[at].start || (skb.start == q[at].start && q[at].End() < skb.End()))
         && (at > 0 ==> q[at - 1].start <= skb.start || (at < upto && q[at].start == skb.start))
         && (upto < |q| ==> skb.End() <= q[upto].start || (at == upto && at > 0 && q[at - 1].End() == skb.start))
  }

  // ------------------------------------------------------------ bytes held

  /** Some queued segment holds number `n`. */
  ghost predicate Holds(q: seq<Skb>, n: int) {
    exists i :: 0 <= i < |q| && q[i].start <= n < q[i].End()
  }

  /** Queued segments stay honest, on any queue whatever. */
  lemma InsertKeepsHonest(s: Stream, q: seq<Skb>, skb: Skb, o: Outcome)
    requires Legal(q, skb, o) && AllHonest(s, q) && Honest(s, skb)
    ensures AllHonest(s, Apply(q, skb, o))
  {
    if o.Merged? {
      MergeHonest(s, q[o.at], skb);
    }
  }

  /** The new segment is held afterwards by one queued segment, and no number appears from nowhere. */
  lemma InsertHoldsNewAndInventsNothing(q: seq<Skb>, skb: Skb, o: Outcome)
    requires Legal(q, skb, o)
    ensures var r := Apply(q, skb, o);
            && r[o.at].start <= skb.start && skb.End() <= r[o.at].End()
            && (forall n :: Holds(r, n) ==> Holds(q, n) || skb.start <= n < skb.End())
  {
    var r := Apply(q, skb, o);
    forall n | Holds(r, n)
      ensures Holds(q, n) || skb.start <= n < skb.End()
    {
      var i :| 0 <= i < |r| && r[i].start <= n < r[i].End();
      if o.Spliced? && i > o.at {
        assert r[i] == q[i - o.at - 1 + o.upto];
      } else if !(skb.start <= n < skb.End()) {
        assert q[i].start <= n < q[i].End();
      }
    }
  }

  ghost predicate SortedDisjoint(q: seq<Skb>) {
    && (forall i :: 0 <= i < |q| ==> q[i].cells != [])
    && (forall i, j :: 0 <= i < j < |q| ==> q[i].End() <= q[j].start)
  }

  ghost predicate DisjointFrom(q: seq<Skb>, skb: Skb) {
    forall i :: 0 <= i < |q| ==> q[i].End() <= skb.start || skb.End() <= q[i].start
  }

  /**
   On a sorted, disjoint queue the clean-up step loses bytes exactly when the last segment it removes
   reaches beyond the new one: then the rest of that segment is gone.
   */
  lemma InsertKeepsBytesIff(q: seq<Skb>, skb: Skb, o: Outcome)
    requires Legal(q, skb, o) && SortedDisjoint(q)
    ensures (forall n :: Holds(q, n) ==> Holds(Apply(q, skb, o), n))
            <==> (o.Spliced? && o.at < o.upto ==> q[o.upto - 1].End() <= skb.End())
  {
    var r := Apply(q, skb, o);
    if o.Spliced? && o.at < o.upto && q[o.upto - 1].End() > skb.End() {
      var n := q[o.upto - 1].End() - 1;
      assert Holds(q, n);
      forall i | 0 <= i < |r|
        ensures !(r[i].start <= n < r[i].End())
      {
        if i > o.at {
          assert r[i] == q[i - o.at - 1 + o.upto];
        } else if i < o.at {
          assert r[i] == q[i];
        }
      }
    } else {
      forall n | Holds(q, n)
        ensures Holds(r, n)
      {
        var i :| 0 <= i < |q| && q[i].start <= n < q[i].End();
        HolderAfter(q, skb, o, i, n);
      }
    }
  }

  /** Where a number held by `q[i]` is held after the insertion. */
  lemma HolderAfter(q: seq<Skb>, skb: Skb, o: Outcome, i: nat, n: int)
    requires Legal(q, skb, o) && SortedDisjoint(q)
    requires o.Spliced? && o.at < o.upto ==> q[o.upto - 1].End() <= skb.End()
    requires i < |q| && q[i].start <= n < q[i].End()
    ensures Holds(Apply(q, skb, o), n)
  {
    var r := Apply(q, skb, o);
    if o.Spliced? {
      if i < o.at {
        assert r[i] == q[i];
      } else if i >= o.upto {
        assert r[i - o.upto + o.at + 1] == q[i];
      } else {
        RemovedStartsAfter(q, skb, o, i);
        assert r[o.at] == skb;
        assert i == o.upto - 1 || q[i].End() <= q[o.upto - 1].start;
      }
    } else {
      assert r[i].start <= n < r[i].End();
    }
  }

  /** On a sorted, disjoint queue every removed segment starts at or after the new one. */
  lemma RemovedStartsAfter(q: seq<Skb>, skb: Skb, o: Outcome, i: nat)
    requires Legal(q, skb, o) && SortedDisjoint(q) && o.Spliced? && o.at <= i < o.upto
    requires q[o.upto - 1].End() <= skb.End()
    ensures skb.start <= q[i].start
  {
  }

  ghost predicate KeepsBytes(q: seq<Skb>, r: seq<Skb>) {
    forall n :: Holds(q, n) ==> Holds(r, n)
  }

  /** The segment reaches into the front of `q[j]`, and no further. */
  predicate ReachesInto(q: seq<Skb>, skb: Skb, j: nat) {
    j < |q| && skb.start < q[j].start < skb.End() < q[j].End()
  }

  predicate RemovesNothing(o: Outcome) {
    !o.Covered? && (o.Spliced? ==> o.at == o.upto)
  }

  /** Dropped, or queued with everything removed that it reaches into. */
  predicate CleanedUp(q: seq<Skb>, skb: Skb, o: Outcome) {
    o.Covered? || (o.Spliced? && (o.upto < |q| ==> skb.End() <= q[o.upto].start))
  }

  /** The segment has room right behind the one at `here`, or touches the tail. */
  predicate RoomAfter(q: seq<Skb>, skb: Skb, here: nat) {
    && here < |q|
    && ((q[here].End() < skb.start && (here + 1 < |q| ==> skb.End() <= q[here + 1].start))
        || (q[here].End() == skb.start && here + 1 == |q|))
  }

  lemma RoomReachesIntoNone(q: seq<Skb>, skb: Skb, here: nat)
    requires SortedDisjoint(q) && RoomAfter(q, skb, here)
    ensures forall j :: !ReachesInto(q, skb, j)
  {
    forall j | 0 <= j < |q|
      ensures !ReachesInto(q, skb, j)
    {
      NonEmpty(q, j);
      assert j < here ==> q[j].End() <= q[here].start;
      assert j > here + 1 ==> q[here + 1].End() <= q[j].start;
      if here + 1 < |q| {
        NonEmpty(q, here + 1);
      }
    }
  }

  /**
   On a sorted, disjoint queue bytes are lost exactly when the segment reaches into the front of a queued one and no
   shortcut leads to a segment that it touches (`touches`).
   */
  lemma LossIff(q: seq<Skb>, skb: Skb, o: Outcome, touches: bool)
    requires SortedDisjoint(q) && Legal(q, skb, o) && skb.cells != []
    requires touches ==> RemovesNothing(o)
    requires !touches ==> CleanedUp(q, skb, o) || (RemovesNothing(o) && exists here :: RoomAfter(q, skb, here))
    ensures KeepsBytes(q, Apply(q, skb, o)) <==> touches || forall j :: !ReachesInto(q, skb, j)
  {
    InsertKeepsBytesIff(q, skb, o);
    if touches || RemovesNothing(o) {
      if !touches && !CleanedUp(q, skb, o) {
        var here :| RoomAfter(q, skb, here);
        RoomReachesIntoNone(q, skb, here);
      } else if !touches {
        NothingToReach(q, skb, o);
      }
    } else {
      CleanedReaches(q, skb, o);
    }
  }

  /** Queued in between without removing anything: nothing was reached into. */
  lemma NothingToReach(q: seq<Skb>, skb: Skb, o: Outcome)
    requires SortedDisjoint(q) && Legal(q, skb, o) && RemovesNothing(o) && CleanedUp(q, skb, o)
    ensures forall j :: !ReachesInto(q, skb, j)
  {
    forall j | 0 <= j < |q|
      ensures !ReachesInto(q, skb, j)
    {
      NonEmpty(q, j);
      assert j < o.at - 1 ==> q[j].End() <= q[o.at - 1].start;
      assert j > o.upto ==> q[o.upto].End() <= q[j].start;
      if o.upto < |q| {
        NonEmpty(q, o.upto);
      }
    }
  }

  lemma CleanedReaches(q: seq<Skb>, skb: Skb, o: Outcome)
    requires SortedDisjoint(q) && Legal(q, skb, o) && CleanedUp(q, skb, o) && !RemovesNothing(o)
    ensures o.Covered? ==> forall j :: !ReachesInto(q, skb, j)
    ensures o.Spliced? ==> o.at < o.upto
    ensures o.Spliced? ==> (q[o.upto - 1].End() > skb.End() <==> exists j :: ReachesInto(q, skb, j))
  {
    if o.Covered? {
      forall j | 0 <= j < |q|
        ensures !ReachesInto(q, skb, j)
      {
        assert j < o.at ==> q[j].End() <= q[o.at].start;
        assert j > o.at ==> q[o.at].End() <= q[j].start;
      }
    } else {
      var last := o.upto - 1;
      NonEmpty(q, last);
      NonEmpty(q, o.at);
      assert o.at < last ==> q[o.at].End() <= q[last].start;
      if q[last].End() > skb.End() {
        assert ReachesInto(q, skb, last);
      }
      if j: nat :| ReachesInto(q, skb, j) {
        assert j == last;
      }
    }
  }

  /** Bytes are lost: [30, 50) is removed because [20, 40) covers its front. */
  lemma InsertCanLoseBytes(c: Cell)
    ensures var q := [Skb(0, 30, seq(20, _ => c))];
            var skb := Skb(1, 20, seq(20, _ => c));
            && SortedDisjoint(q) && Legal(q, skb, Spliced(0, 1))
            && Holds(q, 45) && !Holds(Apply(q, skb, Spliced(0, 1)), 45)
  {
    var q := [Skb(0, 30, seq(20, _ => c))];
    assert q[0].start <= 45 < q[0].End();
  }

  // ------------------------------------------------------------ sorted insertion

  /** Plain insertion into a sorted queue. */
  function SortedInsert(q: seq<Skb>, skb: Skb): seq<Skb> {
    if q == [] || skb.End() <= q[0].start then [skb] + q
    else [q[0]] + SortedInsert(q[1..], skb)
  }

  /** The queue with touching neighbours merged. */
  function Normal(q: seq<Skb>): seq<Skb>
    decreases |q|
  {
    if |q| < 2 then q
    else if q[0].End() == q[1].start then Normal([Merge(q[0], q[1])] + q[2..])
    else [q[0]] + Normal(q[1..])
  }

  lemma NormalTouch(x: Skb, y: Skb, r: seq<Skb>)
    requires x.End() == y.start
    ensures Normal([x, y] + r) == Normal([Merge(x, y)] + r)
  {
    assert ([x, y] + r)[2..] == r;
  }

  lemma NormalGap(x: Skb, y: Skb, r: seq<Skb>)
    requires x.End() != y.start
    ensures Normal([x, y] + r) == [x] + Normal([y] + r)
  {
    assert ([x, y] + r)[1..] == [y] + r;
  }

  /** A touching pair right after the head may be merged in advance. */
  lemma NormalAbsorbsSecond(x: Skb, a: Skb, b: Skb, r: seq<Skb>)
    requires a.End() == b.start
    ensures Normal([x, a, b] + r) == Normal([x, Merge(a, b)] + r)
  {
    var ab := Merge(a, b);
    assert [x, a, b] + r == [x, a] + ([b] + r);
    if x.End() == a.start {
      var xa := Merge(x, a);
      NormalTouch(x, a, [b] + r);
      assert [xa] + ([b] + r) == [xa, b] + r;
      NormalTouch(xa, b, r);
      NormalTouch(x, ab, r);
      assert xa.cells + b.cells == x.cells + ab.cells;
    } else {
      NormalGap(x, a, [b] + r);
      assert [a] + ([b] + r) == [a, b] + r;
      NormalTouch(a, b, r);
      NormalGap(x, ab, r);
    }
  }

  /** Merging one touching pair in advance, anywhere behind the head, does not change the normal form. */
  lemma {:induction false} NormalAbsorbsBehind(x: Skb, p: seq<Skb>, a: Skb, b: Skb, r: seq<Skb>)
    requires a.End() == b.start
    ensures Normal([x] + (p + ([a, b] + r))) == Normal([x] + (p + ([Merge(a, b)] + r)))
    decreases |p|
  {
    hide Normal, Merge;
    if p == [] {
      NormalAbsorbsSecond(x, a, b, r);
      assert [x] + ([] + ([a, b] + r)) == [x, a, b] + r;
      assert [x] + ([] + ([Merge(a, b)] + r)) == [x, Merge(a, b)] + r;
    } else {
      var y, t := p[0], p[1..];
      var u, v := t + ([a, b] + r), t + ([Merge(a, b)] + r);
      assert [x] + (p + ([a, b] + r)) == [x, y] + u;
      assert [x] + (p + ([Merge(a, b)] + r)) == [x, y] + v;
      if x.End() == y.start {
        NormalTouch(x, y, u);
        NormalTouch(x, y, v);
        NormalAbsorbsBehind(Merge(x, y), t, a, b, r);
      } else {
        NormalGap(x, y, u);
        NormalGap(x, y, v);
        NormalAbsorbsBehind(y, t, a, b, r);
      }
    }
  }

  lemma Regroup(a: seq<Skb>, b: seq<Skb>, c: seq<Skb>, d: seq<Skb>)
    ensures a + (b + c + d) == (a + b) + c + d
  {
  }

  lemma {:induction false} SortedInsertAt(q: seq<Skb>, skb: Skb, at: nat)
    requires at <= |q|
    requires forall i :: 0 <= i < at ==> q[i].start < skb.End()
    requires at < |q| ==> skb.End() <= q[at].start
    ensures SortedInsert(q, skb) == q[..at] + [skb] + q[at..]
  {
    if at > 0 {
      var t := q[1..];
      SortedInsertAt(t, skb, at - 1);
      assert SortedInsert(q, skb) == [q[0]] + SortedInsert(t, skb);
      hide SortedInsert;
      assert t[at - 1..] == q[at..];
      assert [q[0]] + t[..at - 1] == q[..at];
      Regroup([q[0]], t[..at - 1], [skb], q[at..]);
    } else {
      assert q[..0] == [] && q[0..] == q;
    }
  }

  lemma NonEmpty(q: seq<Skb>, i: nat)
    requires SortedDisjoint(q) && i < |q|
    ensures q[i].start < q[i].End()
  {
  }

  /** A segment disjoint from a sorted, disjoint queue removes nothing and lands between its neighbours. */
  lemma DisjointOutcome(q: seq<Skb>, skb: Skb, o: Outcome)
    requires SortedDisjoint(q) && DisjointFrom(q, skb) && skb.cells != [] && Legal(q, skb, o)
    ensures !o.Covered?
    ensures o.Spliced? ==> o.at == o.upto && (o.at > 0 ==> q[o.at - 1].End() <= skb.start)
    ensures var at := if o.Merged? then o.at + 1 else o.at;
            && (forall i :: 0 <= i < at ==> q[i].End() <= skb.start)
            && (at < |q| ==> skb.End() <= q[at].start)
  {
    if o.Spliced? && o.at < o.upto {
      NonEmpty(q, o.at);
      assert false;
    }
  }

  lemma SplicedSorted(q: seq<Skb>, skb: Skb, at: nat)
    requires SortedDisjoint(q) && skb.cells != [] && at <= |q|
    requires forall i :: 0 <= i < at ==> q[i].End() <= skb.start
    requires at < |q| ==> skb.End() <= q[at].start
    ensures SortedDisjoint(q[..at] + [skb] + q[at..])
  {
    var r := q[..at] + [skb] + q[at..];
    forall i | at <= i < |q|
      ensures skb.End() <= q[i].start
    {
      NonEmpty(q, at);
    }
    forall i | 0 <= i < |r|
      ensures r[i] == if i < at then q[i] else if i == at then skb else q[i - 1]
    {
    }
  }

  lemma MergedSorted(q: seq<Skb>, skb: Skb, at: nat)
    requires SortedDisjoint(q) && at < |q| && q[at].End() == skb.start
    requires at + 1 < |q| ==> skb.End() <= q[at + 1].start
    ensures SortedDisjoint(q[at := Merge(q[at], skb)])
  {
    forall i | at < i < |q|
      ensures skb.End() <= q[i].start
    {
      NonEmpty(q, at + 1);
    }
  }

  /**
   Whatever route found the place - own shortcut, another subflow's, the nearest shortcut or the tail -
   inserting a segment that is disjoint from a sorted, disjoint queue is plain sorted insertion, up to the
   merging of touching neighbours; and the queue stays sorted and disjoint.
   */
  lemma InsertRefinesSorted(q: seq<Skb>, skb: Skb, o: Outcome)
    requires SortedDisjoint(q) && DisjointFrom(q, skb) && skb.cells != [] && Legal(q, skb, o)
    ensures SortedDisjoint(Apply(q, skb, o))
    ensures Normal(Apply(q, skb, o)) == Normal(SortedInsert(q, skb))
  {
    DisjointOutcome(q, skb, o);
    var at := if o.Merged? then o.at + 1 else o.at;
    forall i | 0 <= i < at
      ensures q[i].start < skb.End()
    {
      assert q[i].End() <= skb.start;
    }
    SortedInsertAt(q, skb, at);
    if o.Spliced? {
      SplicedSorted(q, skb, at);
    } else {
      MergedSorted(q, skb, o.at);
      MergedIsAbsorbed(q, skb, o.at);
    }
  }

  lemma SplitAround(q: seq<Skb>, at: nat, mid: seq<Skb>, r: seq<Skb>)
    requires 0 < at <= |q|
    ensures q[..at] + mid + r == [q[0]] + (q[1..at] + (mid + r))
  {
    assert q[..at] == [q[0]] + q[1..at];
  }

  lemma ReplacedAt(q: seq<Skb>, at: nat, m: Skb)
    requires at < |q|
    ensures q[at := m] == q[..at] + [m] + q[at + 1..]
    ensures q[..at + 1] == q[..at] + [q[at]]
  {
  }

  lemma MergedIsAbsorbed(q: seq<Skb>, skb: Skb, at: nat)
    requires at < |q| && q[at].End() == skb.start
    ensures Normal(q[at := Merge(q[at], skb)]) == Normal(q[..at + 1] + [skb] + q[at + 1..])
  {
    var r, m := q[at + 1..], Merge(q[at], skb);
    if at == 0 {
      NormalTouch(q[0], skb, r);
      hide Normal, Merge;
      ReplacedAt(q, 0, m);
      assert q[..0] == [];
      assert q[..1] + [skb] + r == [q[0], skb] + r;
      assert [] + [m] + r == [m] + r;
    } else {
      NormalAbsorbsBehind(q[0], q[1..at], q[at], skb, r);
      hide Normal, Merge;
      SplitAround(q, at, [q[at], skb], r);
      SplitAround(q, at, [m], r);
      ReplacedAt(q, at, m);
      assert q[..at] + [q[at]] + [skb] == q[..at] + [q[at], skb];
    }
  }

  /** The touching route does not look ahead: a legal insertion into a sorted queue can leave an overlap. */
  lemma TouchingInsertCanOverlap(c: Cell)
    ensures var q := [Skb(0, 10, seq(10, _ => c)), Skb(1, 30, seq(10, _ => c))];
            var skb := Skb(2, 20, seq(30, _ => c));
            SortedDisjoint(q) && Legal(q, skb, Spliced(1, 1)) && !SortedDisjoint(Apply(q, skb, Spliced(1, 1)))
  {
    var q := [Skb(0, 10, seq(10, _ => c)), Skb(1, 30, seq(10, _ => c))];
    var skb := Skb(2, 20, seq(30, _ => c));
    var r := Apply(q, skb, Spliced(1, 1));
    assert r[1] == skb && r[2] == q[1];
  }
}

/**
 Packets that reach over the border of their mapping.  A receiver sees them when the peer, or something on the way,
 cuts the subflow's bytes anew.  They are translated with one mapping's offset all the way.
 */
module Straddling {
  import opened Common
  import opened SeqArith
  import opened HighOrder
  import opened DataStream
  import opened Mappings
  import opened MetaSock
  import opened SubflowRx

  // ------------------------------------------------------------ when the translation is true

  /** A subflow carries bytes; the DATA_FIN is only in its mappings. */
  ghost predicate Octets(tx: SubTx) {
    forall i :: 0 <= i < |tx.cells| ==> tx.cells[i].Octet?
  }

  /** Another payload under the same numbers. */
  ghost predicate SameNumbers(s: Stream, tx: SubTx, s': Stream, tx': SubTx) {
    && s'.base == s.base && |s'.cells| == |s.cells|
    && tx'.isn == tx.isn && |tx'.cells| == |tx.cells| && tx'.maps == tx.maps
  }

  ghost predicate Holds(m: Mapping, p: int) {
    m.subSeq <= p < m.SubEnd()
  }

  /** The packet with the subflow bytes `from`, ..., `to - 1`. */
  function CutOut(tx: SubTx, from: int, to: int): SubSkb
    requires tx.isn <= from <= to <= tx.WriteSeq()
  {
    SubSkb(from, tx.Slice(from, to), None)
  }

  predicate Meets(m: Mapping, from: int, to: int) {
    m.len > 0 && m.subSeq < to && from < m.SubEnd()
  }

  /** Every mapping that has a byte of the packet puts its data as far from its bytes as `m` does. */
  ghost predicate SameOffset(tx: SubTx, m: Mapping, from: int, to: int) {
    forall j :: 0 <= j < |tx.maps| && Meets(tx.maps[j], from, to) ==>
      tx.maps[j].dataSeq - tx.maps[j].subSeq == m.dataSeq - m.subSeq
  }

  /** The packet becomes a truthful segment, whatever the payload. */
  ghost predicate AlwaysHonest(s: Stream, tx: SubTx, m: Mapping, from: int, to: int, id: nat)
    requires tx.isn <= from <= to <= tx.WriteSeq()
  {
    forall s', tx' :: SameNumbers(s, tx, s', tx') && TxHonest(s', tx') && Octets(tx') ==>
      Honest(s', SegmentOf(m, CutOut(tx', from, to), id))
  }

  /** Byte by byte: the data number that a mapping gives to a subflow byte carries that byte. */
  lemma CellHonest(s: Stream, tx: SubTx, i: nat, p: int)
    requires TxHonest(s, tx) && i < |tx.maps| && Holds(tx.maps[i], p)
    ensures tx.isn <= p < tx.WriteSeq() && s.base <= DataOf(tx.maps[i], p) < s.End()
    ensures tx.cells[p - tx.isn] == s.cells[DataOf(tx.maps[i], p) - s.base]
  {
    var m := tx.maps[i];
    assert MapHonest(s, tx, m);
    var data, bytes := s.Slice(m.dataSeq, m.DataEnd()), tx.Slice(m.subSeq, m.SubEnd());
    assert bytes[p - m.subSeq] == tx.cells[p - tx.isn];
    assert data[p - m.subSeq] == (bytes + FinCells(m.fin))[p - m.subSeq];
  }

  /** The last cell of a mapping with DATA_FIN closes the stream. */
  lemma FinHonest(s: Stream, tx: SubTx, i: nat)
    requires TxHonest(s, tx) && i < |tx.maps| && tx.maps[i].fin
    ensures s.base <= tx.maps[i].DataEnd() - 1 < s.End() && s.cells[tx.maps[i].DataEnd() - 1 - s.base] == DataFin
  {
    var m := tx.maps[i];
    assert MapHonest(s, tx, m);
    assert s.Slice(m.dataSeq, m.DataEnd())[m.len] == DataFin;
  }

  lemma SameOffsetHonest(s: Stream, tx: SubTx, m: Mapping, from: int, to: int, id: nat)
    requires TxHonest(s, tx) && tx.isn <= from < to <= tx.WriteSeq() && !(m.fin && to == m.SubEnd())
    requires SameOffset(tx, m, from, to)
    ensures Honest(s, SegmentOf(m, CutOut(tx, from, to), id))
  {
    var seg := SegmentOf(m, CutOut(tx, from, to), id);
    forall p | from <= p < to
      ensures s.base <= DataOf(m, p) < s.End() && tx.cells[p - tx.isn] == s.cells[DataOf(m, p) - s.base]
    {
      OffsetAt(s, tx, m, from, to, p);
    }
    assert DataOf(m, from) == seg.start && DataOf(m, to - 1) == seg.End() - 1;
    forall k | 0 <= k < |seg.cells|
      ensures seg.cells[k] == s.Slice(seg.start, seg.End())[k]
    {
      var p := from + k;
      assert DataOf(m, p) == seg.start + k && seg.cells[k] == tx.cells[p - tx.isn];
    }
  }

  lemma OffsetAt(s: Stream, tx: SubTx, m: Mapping, from: int, to: int, p: int)
    requires TxHonest(s, tx) && SameOffset(tx, m, from, to)
    requires from <= p < to && tx.isn <= p < tx.WriteSeq()
    ensures s.base <= DataOf(m, p) < s.End() && tx.cells[p - tx.isn] == s.cells[DataOf(m, p) - s.base]
  {
    var j := MapOf(tx, p);
    hide Tiles;
    CellHonest(s, tx, j, p);
    assert Meets(tx.maps[j], from, to);
  }

  lemma MapOf(tx: SubTx, p: int) returns (j: nat)
    requires Tiles(tx) && tx.isn <= p < tx.WriteSeq()
    ensures j < |tx.maps| && Holds(tx.maps[j], p)
  {
    assert Mapped(tx, p);
    j :| 0 <= j < |tx.maps| && tx.maps[j].subSeq <= p < tx.maps[j].SubEnd();
  }

  /** The data number of a subflow byte. */
  ghost function NumberOf(tx: SubTx, p: int): int
    requires Tiles(tx) && tx.isn <= p < tx.WriteSeq()
  {
    assert Mapped(tx, p);
    var i :| 0 <= i < |tx.maps| && Holds(tx.maps[i], p);
    DataOf(tx.maps[i], p)
  }

  lemma NumberIs(tx: SubTx, i: nat, p: int)
    requires Tiles(tx) && i < |tx.maps| && Holds(tx.maps[i], p) && tx.isn <= p < tx.WriteSeq()
    ensures NumberOf(tx, p) == DataOf(tx.maps[i], p)
  {
  }

  /** The subflow with `v` in all places that carry the data number `n`. */
  ghost function Repainted(tx: SubTx, n: int, v: Cell): (r: SubTx)
    requires Tiles(tx)
    ensures r.isn == tx.isn && r.maps == tx.maps && |r.cells| == |tx.cells|
    ensures forall i :: 0 <= i < |tx.cells| ==>
              r.cells[i] == if NumberOf(tx, tx.isn + i) == n then v else tx.cells[i]
  {
    tx.(cells := seq(|tx.cells|, i requires 0 <= i < |tx.cells| =>
                       if NumberOf(tx, tx.isn + i) == n then v else tx.cells[i]))
  }

  /** Another byte at `n`, in the stream and wherever it is mapped, tells the truth as well. */
  lemma RepaintHonest(s: Stream, tx: SubTx, n: int, v: Cell)
    requires TxHonest(s, tx) && Octets(tx) && v.Octet?
    requires s.base <= n < s.End() && s.cells[n - s.base].Octet?
    ensures var s', tx' := s.(cells := s.cells[n - s.base := v]), Repainted(tx, n, v);
            SameNumbers(s, tx, s', tx') && TxHonest(s', tx') && Octets(tx')
  {
    var s', tx' := s.(cells := s.cells[n - s.base := v]), Repainted(tx, n, v);
    forall p | tx.isn <= p < tx.WriteSeq()
      ensures Mapped(tx', p)
    {
      assert Mapped(tx, p);
    }
    forall i | 0 <= i < |tx.maps|
      ensures MapHonest(s', tx', tx.maps[i])
    {
      RepaintMap(s, tx, n, v, i);
    }
  }

  lemma RepaintMap(s: Stream, tx: SubTx, n: int, v: Cell, i: nat)
    requires TxHonest(s, tx) && i < |tx.maps|
    requires s.base <= n < s.End() && s.cells[n - s.base].Octet?
    ensures MapHonest(s.(cells := s.cells[n - s.base := v]), Repainted(tx, n, v), tx.maps[i])
  {
    var s', tx' := s.(cells := s.cells[n - s.base := v]), Repainted(tx, n, v);
    var m := tx.maps[i];
    Ranges(s, tx, i);
    if m.fin {
      FinHonest(s, tx, i);
    }
    forall k | 0 <= k < m.len
      ensures CellTrue(s', tx', m, k)
    {
      RepaintCell(s, tx, n, v, i, k);
    }
    hide Repainted, TxHonest, MapHonest, NumberOf, CellTrue;
    MapHonestByCells(s', tx', m);
  }

  lemma Ranges(s: Stream, tx: SubTx, i: nat)
    requires TxHonest(s, tx) && i < |tx.maps|
    ensures InRange(s, tx, tx.maps[i])
  {
    assert MapHonest(s, tx, tx.maps[i]);
  }

  lemma RepaintCell(s: Stream, tx: SubTx, n: int, v: Cell, i: nat, k: nat)
    requires TxHonest(s, tx) && i < |tx.maps| && InRange(s, tx, tx.maps[i]) && k < tx.maps[i].len
    requires s.base <= n < s.End()
    ensures CellTrue(s.(cells := s.cells[n - s.base := v]), Repainted(tx, n, v), tx.maps[i], k)
  {
    hide Tiles, NumberOf, MapHonest;
    CellHonest(s, tx, i, tx.maps[i].subSeq + k);
    NumberIs(tx, i, tx.maps[i].subSeq + k);
  }

  ghost predicate InRange(s: Stream, tx: SubTx, m: Mapping) {
    && tx.isn <= m.subSeq && m.SubEnd() <= tx.WriteSeq() && 0 < m.DataLen() <= MAX_MAPPING
    && s.base <= m.dataSeq && m.DataEnd() <= s.End()
  }

  ghost predicate CellTrue(s: Stream, tx: SubTx, m: Mapping, k: nat)
    requires InRange(s, tx, m) && k < m.len
  {
    s.cells[m.dataSeq + k - s.base] == tx.cells[m.subSeq + k - tx.isn]
  }

  /** A mapping is truthful if all of its cells are. */
  lemma MapHonestByCells(s: Stream, tx: SubTx, m: Mapping)
    requires InRange(s, tx, m) && forall k :: 0 <= k < m.len ==> CellTrue(s, tx, m, k)
    requires m.fin ==> s.cells[m.DataEnd() - 1 - s.base] == DataFin
    ensures MapHonest(s, tx, m)
  {
    var data, bytes := s.Slice(m.dataSeq, m.DataEnd()), tx.Slice(m.subSeq, m.SubEnd());
    forall k | 0 <= k < |data|
      ensures data[k] == (bytes + FinCells(m.fin))[k]
    {
      assert data[k] == s.cells[m.dataSeq + k - s.base];
      assert k < m.len ==> CellTrue(s, tx, m, k) && bytes[k] == tx.cells[m.subSeq + k - tx.isn];
    }
  }

  /** A mapping with another offset: some payload, under the same numbers, makes the segment untrue. */
  lemma OtherOffsetForeign(s: Stream, tx: SubTx, m: Mapping, from: int, to: int, id: nat, j: nat)
    returns (s': Stream, tx': SubTx)
    requires TxHonest(s, tx) && Octets(tx) && tx.isn <= from < to <= tx.WriteSeq()
    requires j < |tx.maps| && Meets(tx.maps[j], from, to)
    requires tx.maps[j].dataSeq - tx.maps[j].subSeq != m.dataSeq - m.subSeq
    ensures SameNumbers(s, tx, s', tx') && TxHonest(s', tx') && Octets(tx')
    ensures !Honest(s', SegmentOf(m, CutOut(tx', from, to), id))
  {
    s', tx' := OtherOffsetAt(s, tx, m, from, to, id, j, if from < tx.maps[j].subSeq then tx.maps[j].subSeq else from);
  }

  lemma OtherOffsetAt(s: Stream, tx: SubTx, m: Mapping, from: int, to: int, id: nat, j: nat, p: int)
    returns (s': Stream, tx': SubTx)
    requires TxHonest(s, tx) && Octets(tx) && tx.isn <= from <= p < to <= tx.WriteSeq()
    requires j < |tx.maps| && Holds(tx.maps[j], p) && DataOf(tx.maps[j], p) != DataOf(m, p)
    ensures SameNumbers(s, tx, s', tx') && TxHonest(s', tx') && Octets(tx')
    ensures !Honest(s', SegmentOf(m, CutOut(tx', from, to), id))
  {
    hide Tiles, NumberOf, MapHonest, Honest, SegmentOf, CutOut, Octets;
    CellHonest(s, tx, j, p);
    NumberIs(tx, j, p);
    s', tx' := OtherByteAt(s, tx, NumberOf(tx, p), DataOf(m, p), p);
    NotHonestByCell(s', tx', m, from, to, id, p);
  }

  /** A payload in which the byte at `p`, numbered `n`, is not the one at another number `at`. */
  lemma OtherByteAt(s: Stream, tx: SubTx, n: int, at: int, p: int) returns (s': Stream, tx': SubTx)
    requires TxHonest(s, tx) && Octets(tx) && tx.isn <= p < tx.WriteSeq()
    requires n == NumberOf(tx, p) && s.base <= n < s.End() && tx.cells[p - tx.isn] == s.cells[n - s.base] && at != n
    ensures SameNumbers(s, tx, s', tx') && TxHonest(s', tx') && Octets(tx')
    ensures s'.base <= at < s'.End() ==> tx'.cells[p - tx'.isn] != s'.cells[at - s'.base]
  {
    hide Tiles, NumberOf, MapHonest;
    s', tx' := s, tx;
    if s.base <= at < s.End() {
      var v := if s.cells[at - s.base] == Octet(0) then Octet(1) else Octet(0);
      RepaintHonest(s, tx, n, v);
      s', tx' := s.(cells := s.cells[n - s.base := v]), Repainted(tx, n, v);
    }
  }

  lemma NotHonestByCell(s: Stream, tx: SubTx, m: Mapping, from: int, to: int, id: nat, p: int)
    requires tx.isn <= from <= p < to <= tx.WriteSeq()
    requires s.base <= DataOf(m, p) < s.End() ==> tx.cells[p - tx.isn] != s.cells[DataOf(m, p) - s.base]
    ensures !Honest(s, SegmentOf(m, CutOut(tx, from, to), id))
  {
    CutOutAt(m, tx, from, to, id, p);
    if Honest(s, SegmentOf(m, CutOut(tx, from, to), id)) {
      HonestAt(s, SegmentOf(m, CutOut(tx, from, to), id), DataOf(m, p));
    }
  }

  lemma CutOutAt(m: Mapping, tx: SubTx, from: int, to: int, id: nat, p: int)
    requires tx.isn <= from <= p < to <= tx.WriteSeq()
    ensures var seg := SegmentOf(m, CutOut(tx, from, to), id);
            seg.start <= DataOf(m, p) < seg.End() && seg.cells[DataOf(m, p) - seg.start] == tx.cells[p - tx.isn]
  {
  }

  lemma HonestAt(s: Stream, seg: Skb, n: int)
    requires Honest(s, seg) && seg.start <= n < seg.End()
    ensures s.base <= n < s.End() && seg.cells[n - seg.start] == s.cells[n - s.base]
  {
    assert s.Slice(seg.start, seg.End())[n - seg.start] == s.cells[n - s.base];
  }

  /**
   A packet translated under mapping `m` is truthful for every payload exactly when every mapping it has bytes of
   puts its data as far from its bytes as `m` does.
   */
  lemma StraddlingHonestIff(s: Stream, tx: SubTx, m: Mapping, from: int, to: int, id: nat)
    requires TxHonest(s, tx) && Octets(tx) && tx.isn <= from < to <= tx.WriteSeq() && !(m.fin && to == m.SubEnd())
    ensures AlwaysHonest(s, tx, m, from, to, id) <==> SameOffset(tx, m, from, to)
  {
    if SameOffset(tx, m, from, to) {
      forall s', tx' | SameNumbers(s, tx, s', tx') && TxHonest(s', tx') && Octets(tx')
        ensures Honest(s', SegmentOf(m, CutOut(tx', from, to), id))
      {
        SameOffsetHonest(s', tx', m, from, to, id);
      }
    } else {
      var j :| 0 <= j < |tx.maps| && Meets(tx.maps[j], from, to)
               && tx.maps[j].dataSeq - tx.maps[j].subSeq != m.dataSeq - m.subSeq;
      var s', tx' := OtherOffsetForeign(s, tx, m, from, to, id, j);
    }
  }

  /** Reaching over into the next mapping is harmless exactly when that one goes on where the first ends. */
  lemma IntoNextHonestIff(s: Stream, tx: SubTx, i: nat, j: nat, from: int, to: int, id: nat)
    requires TxHonest(s, tx) && Octets(tx) && i < |tx.maps| && j < |tx.maps|
    requires tx.maps[i].subSeq <= from < tx.maps[i].SubEnd() == tx.maps[j].subSeq < to <= tx.maps[j].SubEnd()
    ensures tx.isn <= from && to <= tx.WriteSeq()
    ensures AlwaysHonest(s, tx, tx.maps[i], from, to, id)
            <==> !tx.maps[i].fin && tx.maps[j].dataSeq == tx.maps[i].DataEnd()
  {
    var m, next := tx.maps[i], tx.maps[j];
    assert MapHonest(s, tx, m) && MapHonest(s, tx, next);
    hide Tiles, MapHonest, AlwaysHonest;
    StraddlingHonestIff(s, tx, m, from, to, id);
    forall k | 0 <= k < |tx.maps| && Meets(tx.maps[k], from, to)
      ensures k == i || k == j
    {
      var p := if from < tx.maps[k].subSeq then tx.maps[k].subSeq else from;
      OnlyOne(tx, k, if p < m.SubEnd() then i else j, p);
    }
    assert Meets(next, from, to);
    if m.fin {
      FinHonest(s, tx, i);
      CellHonest(s, tx, j, next.subSeq);
    }
  }

  lemma OnlyOne(tx: SubTx, i: nat, j: nat, p: int)
    requires Tiles(tx) && i < |tx.maps| && j < |tx.maps| && Holds(tx.maps[i], p) && Holds(tx.maps[j], p)
    ensures i == j
  {
  }

  function Larger(a: int, b: int): int {
    if a < b then b else a
  }

  /** A packet inside a mapping has bytes of no other, so it is translated truly. */
  lemma InsideSameOffset(tx: SubTx, i: nat, from: int, to: int)
    requires Tiles(tx) && i < |tx.maps| && tx.maps[i].subSeq <= from < to <= tx.maps[i].SubEnd()
    ensures SameOffset(tx, tx.maps[i], from, to)
  {
    forall j | 0 <= j < |tx.maps| && Meets(tx.maps[j], from, to)
      ensures j == i
    {
      OnlyOne(tx, j, i, Larger(from, tx.maps[j].subSeq));
    }
  }

  // ------------------------------------------------------------ which packets are translated whole

  /** The first packet from position `k` on that starts at `from` or later. */
  function KeptFrom(q: seq<SubSkb>, from: int, k: nat): (f: nat)
    requires k <= |q|
    ensures k <= f <= |q|
    ensures forall t :: k <= t < f ==> q[t].seqNo < from
    ensures f < |q| ==> q[f].seqNo >= from
    decreases |q| - k
  {
    if k == |q| || q[k].seqNo >= from then k else KeptFrom(q, from, k + 1)
  }

  predicate HeadTrimmed(q: seq<SubSkb>, from: int) {
    q != [] && q[0].seqNo < from < q[0].End()
  }

  /** The first packet that validation keeps. */
  function FirstKept(q: seq<SubSkb>, from: int): (f: nat)
    ensures f <= |q|
  {
    if HeadTrimmed(q, from) then 0 else KeptFrom(q, from, 0)
  }

  /** How many packets a push takes off the queue: the first, and all up to one that starts at `to` or later. */
  function Taken(v: seq<SubSkb>, to: int, k: nat): (n: nat)
    requires k <= |v|
    ensures k <= n <= |v|
    ensures forall t :: k <= t < n ==> v[t].seqNo < to
    ensures n < |v| ==> v[n].seqNo >= to
    decreases |v| - k
  {
    if k == |v| || v[k].seqNo >= to then k else Taken(v, to, k + 1)
  }

  /** All packets that the push takes lie inside the mapping. */
  ghost predicate PushedInside(v: seq<SubSkb>, from: int, to: int) {
    v != [] ==> forall k :: 0 <= k < Taken(v, to, 1) ==> from <= v[k].seqNo && v[k].End() <= to
  }

  /**
   The push will come to packet `t` of the queue, when packet `i` is being examined and `f` is the first one kept:
   none on the way starts behind the mapping, and packet `i`, if it is cut, is not passed.
   */
  ghost predicate ComesTo(q: seq<SubSkb>, i: nat, f: nat, t: nat, to: int)
    requires i < |q| && t < |q|
  {
    && f <= t && (forall u :: f < u <= t ==> q[u].seqNo < to)
    && (f <= i < t ==> q[i].End() <= to)
  }

  /**
   Of the packets that the push will come to only the one examined may end beyond the mapping, and none behind the
   first may start in front of it; and the one examined, if it is dropped, does not leave a tail behind.
   */
  ghost predicate Clean(q: seq<SubSkb>, i: nat, from: int, to: int)
    requires i < |q|
  {
    var f := FirstKept(q, from);
    && (i < f ==> q[i].End() <= to)
    && forall t :: 0 <= t < |q| && ComesTo(q, i, f, t, to) ==> CleanAt(q, i, f, t, from, to)
  }

  ghost predicate CleanAt(q: seq<SubSkb>, i: nat, f: nat, t: nat, from: int, to: int)
    requires t < |q|
  {
    (t == f || from <= q[t].seqNo) && (t == i || q[t].End() <= to)
  }

  lemma SkipOldIs(q: seq<SubSkb>, from: int)
    ensures SkipOld(q, from) == q[KeptFrom(q, from, 0)..]
  {
    SkipOldFrom(q, from, 0);
    assert q[0..] == q;
  }

  lemma {:induction false} SkipOldFrom(q: seq<SubSkb>, from: int, k: nat)
    requires k <= |q|
    ensures SkipOld(q[k..], from) == q[KeptFrom(q, from, k)..]
    decreases |q| - k
  {
    if k < |q| && q[k].seqNo < from {
      assert q[k..][1..] == q[k + 1..];
      SkipOldFrom(q, from, k + 1);
    }
  }

  /** The queue after trim and split, packet by packet. */
  lemma CutPackets(q: seq<SubSkb>, i: nat, from: int, to: int)
    requires i < |q| && q[i].seqNo <= to && from <= to
    ensures var r, cut := SplitTailOf(TrimHeadOf(q, from), i, to), q[i].End() > to;
            && |r| == |q| + (if cut then 1 else 0)
            && SameUpTo(q, r, i, from, to)
            && (cut ==> r[i + 1].seqNo == to && r[i + 1].End() == q[i].End())
            && (cut ==> forall t :: i < t < |q| ==> r[t + 1] == q[t])
  {
  }

  /** Where the kept part of the queue starts after trim and split. */
  lemma KeptAfterCut(q: seq<SubSkb>, i: nat, from: int, to: int)
    requires i < |q| && q[i].seqNo <= to && from <= to
    ensures var r, f := SplitTailOf(TrimHeadOf(q, from), i, to), FirstKept(q, from);
            KeptFrom(r, from, 0) == if i < f && q[i].End() > to then i + 1 else f
  {
    CutPackets(q, i, from, to);
    hide SplitTailOf, TrimHeadOf;
    var r, f := SplitTailOf(TrimHeadOf(q, from), i, to), FirstKept(q, from);
    var g := if i < f && q[i].End() > to then i + 1 else f;
    assert forall t :: 0 <= t < g ==> r[t].seqNo < from;
    assert g < |r| ==> r[g].seqNo >= from;
  }

  /**
   After validation of packet `i` every packet that a push takes lies inside the mapping exactly on the clean queues -
   whatever their order and overlap, and whether the others stand in front of packet `i` or behind it.
   */
  lemma PushedInsideIff(q: seq<SubSkb>, i: nat, from: int, to: int)
    requires i < |q| && q[i].seqNo <= to && from < to
    ensures PushedInside(Validated(q, i, from, to), from, to) <==> Clean(q, i, from, to)
  {
    var r, f := SplitTailOf(TrimHeadOf(q, from), i, to), FirstKept(q, from);
    var cut := q[i].End() > to;
    CutPackets(q, i, from, to);
    KeptAfterCut(q, i, from, to);
    SkipOldIs(r, from);
    hide SplitTailOf, TrimHeadOf, SkipOld;
    var v := Validated(q, i, from, to);
    if i < f && cut {
      assert v[0] == r[i + 1];
    } else if f < |q| {
      assert v == r[f..] && v != [];
      assert r[f].seqNo >= from;
      TakenReaches(q, r, i, f, from, to);
      TakenClean(q, r, i, f, from, to);
    }
  }

  /** What the push takes is what the queue says it comes to. */
  lemma TakenReaches(q: seq<SubSkb>, r: seq<SubSkb>, i: nat, f: nat, from: int, to: int)
    requires i < |q| && f < |q| && f < |r|
    requires var cut := q[i].End() > to;
             && |r| == |q| + (if cut then 1 else 0) && (cut ==> f <= i && r[i + 1].seqNo == to)
             && (forall t :: f < t < |q| && (t <= i || !cut) ==> r[t].seqNo == q[t].seqNo)
    ensures var n := Taken(r[f..], to, 1);
            && (q[i].End() > to ==> f + n <= i + 1)
            && (forall t :: 0 <= t < |q| ==> (ComesTo(q, i, f, t, to) <==> f <= t < f + n))
  {
    var v, n := r[f..], Taken(r[f..], to, 1);
    assert forall t :: f <= t < |r| ==> v[t - f] == r[t];
    if q[i].End() > to {
      assert v[i + 1 - f].seqNo == to;
    }
    forall t | 0 <= t < |q|
      ensures ComesTo(q, i, f, t, to) <==> f <= t < f + n
    {
      if f <= t < f + n {
        forall u | f < u <= t
          ensures q[u].seqNo < to
        {
          assert v[u - f].seqNo < to;
        }
      } else if f + n <= t && n < |v| {
        assert v[n].seqNo >= to && v[n] == r[f + n];
      }
    }
  }

  lemma TakenClean(q: seq<SubSkb>, r: seq<SubSkb>, i: nat, f: nat, from: int, to: int)
    requires i < |q| && q[i].seqNo <= to && from < to && f == FirstKept(q, from) && f < |q| && f < |r|
    requires q[i].End() > to ==> f <= i
    requires SameUpTo(q, r, i, from, to) && from <= r[f].seqNo
    requires var n := Taken(r[f..], to, 1);
             && f + n <= |r| && (q[i].End() > to ==> f + n <= i + 1)
             && (forall t :: 0 <= t < |q| ==> (ComesTo(q, i, f, t, to) <==> f <= t < f + n))
    ensures PushedInside(r[f..], from, to) <==> Clean(q, i, from, to)
  {
    hide ComesTo, Taken, FirstKept, SameUpTo, CleanAt;
    var v, n := r[f..], Taken(r[f..], to, 1);
    forall t | f <= t < f + n
      ensures t < |q| && v[t - f] == r[t]
      ensures CleanAt(q, i, f, t, from, to) <==> from <= r[t].seqNo && r[t].End() <= to
    {
      CleanSame(q, r, i, f, t, from, to);
    }
    forall k | 0 <= k < n
      ensures v[k] == r[f + k] && f + k < |q|
      ensures CleanAt(q, i, f, f + k, from, to) <==> from <= v[k].seqNo && v[k].End() <= to
    {
    }
    if PushedInside(v, from, to) {
      forall t | 0 <= t < |q| && ComesTo(q, i, f, t, to)
        ensures CleanAt(q, i, f, t, from, to)
      {
        assert v[t - f] == r[t];
      }
    }
  }

  /** Trim and split change of each packet only what they are there to change. */
  ghost predicate SameUpTo(q: seq<SubSkb>, r: seq<SubSkb>, i: nat, from: int, to: int)
    requires i < |q|
  {
    var cut := q[i].End() > to;
    && |r| == |q| + (if cut then 1 else 0)
    && (forall t :: 0 <= t < |q| && (t <= i || !cut) ==>
          && r[t].seqNo == (if t == 0 && HeadTrimmed(q, from) then from else q[t].seqNo)
          && r[t].End() == (if t == i && cut then to else q[t].End()))
  }

  lemma CleanSame(q: seq<SubSkb>, r: seq<SubSkb>, i: nat, f: nat, t: nat, from: int, to: int)
    requires i < |q| && SameUpTo(q, r, i, from, to) && f < |r| && from <= r[f].seqNo
    requires f <= t < |r| && (q[i].End() > to ==> t <= i)
    ensures t < |q|
    ensures CleanAt(q, i, f, t, from, to) <==> from <= r[t].seqNo && r[t].End() <= to
  {
  }

  /** Packet `t` is the first not to start in front of the mapping, starts exactly there, and no tail is in between. */
  ghost predicate StartsAt(q: seq<SubSkb>, i: nat, t: nat, from: int, to: int)
    requires i < |q|
  {
    && t < |q| && q[t].seqNo == from && (i < t ==> q[i].End() <= to)
    && forall u :: 0 <= u < t ==> q[u].seqNo < from
  }

  /**
   The first packet kept starts exactly at the mapping's start - nothing is missing in front - if and only if the head
   of the queue straddles that start or some packet starts there.
   */
  lemma StartKeptIff(q: seq<SubSkb>, i: nat, from: int, to: int)
    requires i < |q| && q[i].seqNo <= to && from < to
    ensures var v := Validated(q, i, from, to);
            (v != [] && v[0].seqNo == from) <==> HeadTrimmed(q, from) || exists t :: StartsAt(q, i, t, from, to)
  {
    var r, f := SplitTailOf(TrimHeadOf(q, from), i, to), FirstKept(q, from);
    CutPackets(q, i, from, to);
    KeptAfterCut(q, i, from, to);
    SkipOldIs(r, from);
    hide SplitTailOf, TrimHeadOf, SkipOld, StartsAt, FirstKept;
    var g := KeptFrom(r, from, 0);
    assert Validated(q, i, from, to) == r[g..];
    if HeadTrimmed(q, from) {
      TrimmedIsKept(q, from);
    } else if t :| StartsAt(q, i, t, from, to) {
      StartIsKept(q, i, t, from, to);
    } else if g < |r| && r[g].seqNo == from {
      KeptIsStart(q, i, from, to);
    }
  }

  lemma TrimmedIsKept(q: seq<SubSkb>, from: int)
    requires HeadTrimmed(q, from)
    ensures FirstKept(q, from) == 0
  {
  }

  lemma StartIsKept(q: seq<SubSkb>, i: nat, t: nat, from: int, to: int)
    requires i < |q| && StartsAt(q, i, t, from, to) && !HeadTrimmed(q, from)
    ensures FirstKept(q, from) == t < |q| && q[t].seqNo == from && (i < t ==> q[i].End() <= to)
  {
  }

  lemma KeptIsStart(q: seq<SubSkb>, i: nat, from: int, to: int)
    requires i < |q| && !HeadTrimmed(q, from)
    ensures var f := FirstKept(q, from);
            f < |q| && q[f].seqNo == from && (i < f ==> q[i].End() <= to) ==> StartsAt(q, i, f, from, to)
  {
  }

  /** A packet with bytes of the subflow, cut anywhere. */
  ghost predicate PieceOf(tx: SubTx, k: SubSkb) {
    && tx.isn <= k.seqNo < k.End() <= tx.WriteSeq()
    && k.cells == tx.Slice(k.seqNo, k.End())
  }

  ghost predicate AllPieces(tx: SubTx, q: seq<SubSkb>) {
    forall t :: 0 <= t < |q| ==> PieceOf(tx, q[t])
  }

  lemma PieceCut(tx: SubTx, k: SubSkb, p: int, dss: Option<Dss>)
    requires PieceOf(tx, k) && k.seqNo < p < k.End()
    ensures PieceOf(tx, SubSkb(p, k.cells[p - k.seqNo..], dss))
    ensures PieceOf(tx, SubSkb(k.seqNo, k.cells[..p - k.seqNo], dss))
  {
    hide SubTx.Slice;
    var at := p - k.seqNo;
    assert k.cells[at..] == k.cells[at..|k.cells|] && k.cells[..at] == k.cells[0..at];
    TxSliceOfSlice(tx, k.seqNo, k.End(), p, k.End());
    TxSliceOfSlice(tx, k.seqNo, k.End(), k.seqNo, p);
  }

  lemma TrimPieces(tx: SubTx, q: seq<SubSkb>, from: int)
    requires AllPieces(tx, q)
    ensures AllPieces(tx, TrimHeadOf(q, from))
  {
    if HeadTrimmed(q, from) {
      PieceCut(tx, q[0], from, q[0].dss);
    }
    hide PieceOf;
  }

  lemma SplitPieces(tx: SubTx, q: seq<SubSkb>, i: nat, to: int)
    requires AllPieces(tx, q) && i < |q| && q[i].seqNo < to
    ensures AllPieces(tx, SplitTailOf(q, i, to))
  {
    if q[i].End() > to {
      PieceCut(tx, q[i], to, q[i].dss);
      PieceCut(tx, q[i], to, None);
    }
    hide PieceOf;
  }

  lemma ValidatedPieces(tx: SubTx, q: seq<SubSkb>, i: nat, from: int, to: int)
    requires i < |q| && q[i].seqNo < to && from < to && AllPieces(tx, q)
    ensures AllPieces(tx, Validated(q, i, from, to))
  {
    TrimPieces(tx, q, from);
    SplitPieces(tx, TrimHeadOf(q, from), i, to);
    SkipOldIs(SplitTailOf(TrimHeadOf(q, from), i, to), from);
    hide PieceOf, SplitTailOf, TrimHeadOf, SkipOld;
  }

  /** On a clean queue of a truthful subflow's bytes, cut anywhere, everything pushed is true. */
  lemma CleanPushesTrue(s: Stream, tx: SubTx, c: nat, q: seq<SubSkb>, i: nat, k: nat, id: nat)
    requires TxHonest(s, tx) && c < |tx.maps| && AllPieces(tx, q)
    requires var m := tx.maps[c];
             i < |q| && q[i].seqNo < m.SubEnd() && m.len > 0 && Clean(q, i, m.subSeq, m.SubEnd())
    requires var m, v := tx.maps[c], Validated(q, i, tx.maps[c].subSeq, tx.maps[c].SubEnd());
             k < |v| && k < Taken(v, m.SubEnd(), 1)
    ensures Honest(s, SegmentOf(tx.maps[c], Validated(q, i, tx.maps[c].subSeq, tx.maps[c].SubEnd())[k], id))
  {
    var m := tx.maps[c];
    assert MapHonest(s, tx, m);
    ValidatedPieces(tx, q, i, m.subSeq, m.SubEnd());
    PushedInsideIff(q, i, m.subSeq, m.SubEnd());
    hide Validated, Clean, TxHonest, MapHonest;
    var v := Validated(q, i, m.subSeq, m.SubEnd());
    assert PieceOf(tx, v[k]);
    TranslatedHonest(s, tx, m, v[k], id);
  }

  /** A packet in front that overlaps the one examined is not cut: the mapping [0, 1), the packets [0, 2) and [0, 3). */
  lemma FrontStaysUncut(a: SubSkb, b: SubSkb)
    requires a.seqNo == 0 == b.seqNo && a.End() == 2 && b.End() == 3
    ensures Validated([a, b], 1, 0, 1)
         == [a, SubSkb(0, b.cells[..1], b.dss), SubSkb(1, b.cells[1..], None)]
    ensures !Clean([a, b], 1, 0, 1)
  {
    var q := [a, b];
    assert TrimHeadOf(q, 0) == q && ComesTo(q, 1, 0, 0, 1) && !CleanAt(q, 1, 0, 0, 0, 1);
  }

  ghost predicate Adjoin(q: seq<SubSkb>, t: nat)
    requires t + 1 < |q|
  {
    q[t].End() == q[t + 1].seqNo
  }

  /** Packets with bytes, each starting where the one before it ends. */
  ghost predicate Consecutive(q: seq<SubSkb>) {
    && (forall t :: 0 <= t < |q| ==> q[t].cells != [])
    && (forall t :: 0 <= t < |q| - 1 ==> Adjoin(q, t))
  }

  lemma ConsecutiveOrder(q: seq<SubSkb>, t: nat, u: nat)
    requires Consecutive(q) && t < u < |q|
    ensures q[t].End() <= q[u].seqNo
    decreases u - t
  {
    assert Adjoin(q, u - 1);
    if t < u - 1 {
      ConsecutiveOrder(q, t, u - 1);
    }
  }

  lemma AllInOrder(q: seq<SubSkb>)
    requires Consecutive(q)
    ensures forall t :: 0 <= t < |q| ==> q[t].seqNo < q[t].End()
    ensures forall t, u :: 0 <= t < u < |q| ==> q[t].End() <= q[u].seqNo
  {
    forall t, u | 0 <= t < u < |q|
      ensures q[t].End() <= q[u].seqNo
    {
      ConsecutiveOrder(q, t, u);
    }
  }

  /** Packet `t` has bytes on both sides of `p`. */
  predicate Across(k: SubSkb, p: int) {
    k.seqNo < p < k.End()
  }

  /** Without overlap the queue is clean exactly when no packet but the one examined crosses the mapping's end. */
  lemma ConsecutiveCleanIff(q: seq<SubSkb>, i: nat, from: int, to: int)
    requires Consecutive(q) && i < |q| && from < to && q[i].seqNo < to
    requires from <= q[i].seqNo || (i == 0 && HeadTrimmed(q, from))
    ensures Clean(q, i, from, to) <==> forall t :: 0 <= t < |q| && t != i ==> !Across(q[t], to)
  {
    AllInOrder(q);
    hide Consecutive;
    var f := FirstKept(q, from);
    assert f <= i;
    forall t | 0 <= t < |q| && t != i && Across(q[t], to)
      ensures ComesTo(q, i, f, t, to) && !CleanAt(q, i, f, t, from, to)
    {
    }
    forall t | 0 <= t < |q| && ComesTo(q, i, f, t, to) && !CleanAt(q, i, f, t, from, to)
      ensures t != i && Across(q[t], to)
    {
      assert t == f || f < t;
    }
  }

  /** Without overlap the mapping's start is missing exactly when a packet behind the head crosses it. */
  lemma ConsecutiveStartIff(q: seq<SubSkb>, i: nat, from: int, to: int)
    requires Consecutive(q) && i < |q| && q[i].seqNo <= to && from < to
    requires q[0].seqNo <= from < q[|q| - 1].End()
    ensures var v := Validated(q, i, from, to);
            (v != [] && v[0].seqNo == from) <==> forall t :: 0 < t < |q| ==> !Across(q[t], from)
  {
    StartKeptIff(q, i, from, to);
    AllInOrder(q);
    var h := HolderOf(q, from);
    hide Consecutive, Validated;
    if h == 0 || q[h].seqNo == from {
      StartIsThere(q, i, h, from, to);
    } else {
      assert Across(q[h], from);
      NoStartThere(q, i, h, from, to);
    }
  }

  lemma StartIsThere(q: seq<SubSkb>, i: nat, h: nat, from: int, to: int)
    requires i < |q| && h < |q| && from < to && q[h].seqNo <= from < q[h].End() && (h == 0 || q[h].seqNo == from)
    requires forall t, u :: 0 <= t < u < |q| ==> q[t].End() <= q[u].seqNo
    requires forall t :: 0 <= t < |q| ==> q[t].seqNo < q[t].End()
    ensures HeadTrimmed(q, from) || StartsAt(q, i, h, from, to)
    ensures forall t :: 0 < t < |q| ==> !Across(q[t], from)
  {
  }

  lemma NoStartThere(q: seq<SubSkb>, i: nat, h: nat, from: int, to: int)
    requires i < |q| && 0 < h < |q| && q[h].seqNo < from < q[h].End()
    requires forall t, u :: 0 <= t < u < |q| ==> q[t].End() <= q[u].seqNo
    requires forall t :: 0 <= t < |q| ==> q[t].seqNo < q[t].End()
    ensures !HeadTrimmed(q, from) && forall t :: !StartsAt(q, i, t, from, to)
  {
    assert q[0].End() <= q[h].seqNo;
  }

  lemma HolderOf(q: seq<SubSkb>, p: int) returns (h: nat)
    requires Consecutive(q) && q != [] && q[0].seqNo <= p < q[|q| - 1].End()
    ensures h < |q| && q[h].seqNo <= p < q[h].End()
  {
    h := |q| - 1;
    while p < q[h].seqNo
      invariant h < |q| && p < q[h].End()
    {
      assert Adjoin(q, h - 1);
      h := h - 1;
    }
  }

  /**
   A run that hands on a foreign byte.  The subflow bytes 0 and 1 are mapped to the data 0 and 1, the bytes 2 and 3
   to 4 and 5.  Two packets are queued at once, [0, 1) with the option of the first mapping and [1, 3) without one.
   Detection and validation of the first packet leave the second as it is, the mapping is complete, and the push takes
   both: byte 2 goes on as number 2.
   */
  method ForeignRun(data: seq<Cell>, high: seq<int>, index: nat) returns (second: Skb)
    requires RcvTracks(high, index, 0) && |data| == 6 && data[2] != data[4]
    ensures var s, tx := Stream(0, data), TwoMappings(data);
            TxHonest(s, tx) && second == SegmentOf(tx.maps[0], CutOut(tx, 1, 3), 1) && !Honest(s, second)
  {
    hide Validated, Decode32, SegmentOf, CutOut, TxHonest, Honest, Subflow.Dropped, Prepare;
    var tx := TwoMappings(data);
    TwoMappingsHonest(data);
    FirstNumberDecoded(high, index);
    var sub := new Subflow(0);
    sub.queue := [SubSkb(0, data[..1], Some(Dss(0, false, 0, 2, false))), SubSkb(1, [data[1], data[4]], None)];
    sub.owner, sub.rcvNxt := [0, 0], 3;
    var v := sub.DetectMapping(0, high, index, 0);
    NothingCut(sub.queue);
    var at := sub.ValidateMapping(0, 0);
    assert !Before(sub.rcvNxt, sub.mapSubseq + sub.mapDataLen);
    assert Before(sub.queue[1].seqNo, sub.mapSubseq + sub.mapDataLen);
    PrepareExact(0, sub.mapDataSeq, tx.maps[0], sub.queue[1], 1);
    second := Prepare(0, sub.mapDataSeq, sub.mapSubseq, sub.mapDataLen, sub.mapDataFin, sub.queue[1], 1);
    SecondIsCutOut(data, sub.queue[1]);
    NotHonestByCell(Stream(0, data), tx, tx.maps[0], 1, 3, 1, 2);
  }

  function TwoMappings(data: seq<Cell>): SubTx
    requires |data| == 6
  {
    SubTx(0, [data[0], data[1], data[4], data[5]], [Mapping(0, 0, 2, false), Mapping(4, 2, 2, false)])
  }

  lemma TwoMappingsHonest(data: seq<Cell>)
    requires |data| == 6
    ensures TxHonest(Stream(0, data), TwoMappings(data))
  {
    var s, tx := Stream(0, data), TwoMappings(data);
    hide MapHonest, Tiles;
    TwoByteMapping(s, tx, tx.maps[0]);
    TwoByteMapping(s, tx, tx.maps[1]);
    TwoTile(tx);
  }

  lemma TwoByteMapping(s: Stream, tx: SubTx, m: Mapping)
    requires m.len == 2 && !m.fin && InRange(s, tx, m) && CellTrue(s, tx, m, 0) && CellTrue(s, tx, m, 1)
    ensures MapHonest(s, tx, m)
  {
    MapHonestByCells(s, tx, m);
  }

  lemma TwoTile(tx: SubTx)
    requires |tx.maps| == 2 && tx.maps[0].subSeq == tx.isn && tx.maps[0].SubEnd() == tx.maps[1].subSeq
    requires tx.maps[1].SubEnd() == tx.WriteSeq()
    ensures Tiles(tx)
  {
    forall p | tx.isn <= p < tx.WriteSeq()
      ensures Mapped(tx, p)
    {
      var j := if p < tx.maps[0].SubEnd() then 0 else 1;
      assert tx.maps[j].subSeq <= p < tx.maps[j].SubEnd();
    }
  }

  /** Right at the start of the stream the first number is decoded truly. */
  lemma FirstNumberDecoded(high: seq<int>, index: nat)
    requires RcvTracks(high, index, 0)
    ensures Decode32(high, index, 0, 0) == 0
  {
    Decode32Exact(high, index, 0, 0);
  }

  lemma NothingCut(q: seq<SubSkb>)
    requires |q| == 2 && q[0].seqNo == 0 && q[0].End() == 1
    ensures Validated(q, 0, 0, 2) == q
  {
  }

  lemma SecondIsCutOut(data: seq<Cell>, k: SubSkb)
    requires |data| == 6 && k == SubSkb(1, [data[1], data[4]], None)
    ensures k == CutOut(TwoMappings(data), 1, 3)
    ensures var m := TwoMappings(data).maps[0];
            SegmentOf(m, k, 1) == Skb(1, DataOf(m, 1), k.cells + FinCells(false))
  {
  }

  // ------------------------------------------------------------ when the receive queue gets a gap

  /**
   The loop of the in-order branch over the packets of mapping `m`, with nothing out of order and nothing
   coalesced: the receive queue afterwards.
   */
  function PushedUp(r: seq<Skb>, nxt: int, m: Mapping, q: seq<SubSkb>): seq<Skb>
    decreases |q|
  {
    if q == [] then r
    else
      var seg := SegmentOf(m, q[0], 0);
      if seg.End() <= nxt then PushedUp(r, nxt, m, q[1..]) else PushedUp(r + [seg], seg.End(), m, q[1..])
  }

  lemma {:induction false} GapStays(base: int, r: seq<Skb>, nxt: int, m: Mapping, q: seq<SubSkb>)
    requires !Chained(base, r)
    ensures !Chained(base, PushedUp(r, nxt, m, q))
    decreases |q|
  {
    if q != [] {
      var seg := SegmentOf(m, q[0], 0);
      assert (r + [seg])[..|r|] == r;
      if seg.End() <= nxt {
        GapStays(base, r, nxt, m, q[1..]);
      } else {
        GapStays(base, r + [seg], seg.End(), m, q[1..]);
      }
    }
  }

  lemma {:induction false} NoGapFrom(base: int, r: seq<Skb>, nxt: int, m: Mapping, q: seq<SubSkb>, copied: int)
    requires Chained(base, r) && Reached(base, r) == nxt && InOrder(q, copied) && DataOf(m, copied) <= nxt
    ensures Chained(base, PushedUp(r, nxt, m, q))
    decreases |q|
  {
    if q != [] {
      var seg := SegmentOf(m, q[0], 0);
      assert Front(q, copied, 0) == copied;
      InOrderSuffix(q, copied, 1);
      if seg.End() <= nxt {
        NoGapFrom(base, r, nxt, m, q[1..], q[0].End());
      } else {
        ChainedSnoc(base, r, seg);
        NoGapFrom(base, r + [seg], seg.End(), m, q[1..], q[0].End());
      }
    }
  }

  /**
   Packets in subflow order are pushed up without a gap exactly when the first of them starts by `nxt`: with a
   mapping that starts by `nxt` that is so unless the packet with the mapping's first bytes was lost.
   */
  lemma PushedUpNoGapIff(base: int, r: seq<Skb>, nxt: int, m: Mapping, q: seq<SubSkb>)
    requires Chained(base, r) && Reached(base, r) == nxt
    requires q != [] && q[0].cells != [] && InOrder(q, q[0].seqNo)
    ensures Chained(base, PushedUp(r, nxt, m, q)) <==> DataOf(m, q[0].seqNo) <= nxt
  {
    var seg := SegmentOf(m, q[0], 0);
    if DataOf(m, q[0].seqNo) <= nxt {
      NoGapFrom(base, r, nxt, m, q, q[0].seqNo);
    } else {
      assert (r + [seg])[..|r|] == r;
      GapStays(base, r + [seg], seg.End(), m, q[1..]);
    }
  }

  /** What detection finds in the run below. */
  lemma FirstBytesDecoded(high: seq<int>, index: nat)
    requires RcvTracks(high, index, 0)
    ensures Decode32(high, index, 0, 0) == 0 && DataSeq64(high, index, 0) == 0
    ensures InSequence(high, index, 0, 0, 0, 0, 10)
  {
    Decode32Exact(high, index, 0, 0);
    CurrentIsCounter(high, index, 0);
    AcceptedExactly(high, index, 0, 0, 0, 0, 10);
  }

  /** Validation throws away the packet that holds the end of one mapping and the start of the next. */
  lemma StraddlingPurged(a: SubSkb, b: SubSkb, c: SubSkb)
    requires a.seqNo == 0 && a.End() == 5 == b.seqNo && b.End() == 15 == c.seqNo && c.End() == 20
    ensures Validated([a, b, c], 2, 10, 20) == [c]
  {
    var q := [a, b, c];
    assert TrimHeadOf(q, 10) == q && SplitTailOf(q, 2, 20) == q;
    assert q[1..] == [b, c] && [b, c][1..] == [c];
    assert SkipOld(q, 10) == SkipOld([b, c], 10) == SkipOld([c], 10);
  }

  /**
   A run that leaves a gap.  Subflow bytes 0 to 9 were mapped to some later data and the option lost; bytes 10 to
   19 carry the data 0 to 9.  The packets are [0, 5), [5, 15) and [15, 20), the last one with the option of its
   mapping.  Validation drops the first two, and with the second the first half of the mapping; the test for
   completeness and both window tests pass; the second half is queued for the application, and `rcv_nxt` moves to
   10 although 0 to 4 were never received.
   */
  method GapRun(c: Cell) returns (rcvQueue: seq<Skb>, rcvNxt: int)
    ensures !Chained(0, rcvQueue) && Reached(0, rcvQueue) == rcvNxt == 10
  {
    hide Prepare, Validated, DataSeq64, InSequence;
    var s := Stream(0, seq(100, _ => c));
    var meta := NewMeta(s);
    FirstBytesDecoded(meta.words.high, meta.words.index);
    var sub := DetectedAndValidated(c, meta.words.high, meta.words.index);
    assert !Before(sub.rcvNxt, sub.mapSubseq + sub.mapDataLen);
    var now := DataSeq64(meta.words.high, meta.words.index, meta.rcvNxt);
    assert Before64(now, sub.mapDataSeq + sub.mapDataLen) && !Before64(now, sub.mapDataSeq);
    assert InSequence(meta.words.high, meta.words.index, meta.rcvNxt, meta.rcvWup, meta.ReceiveWindow(),
                      sub.mapDataSeq, sub.mapDataSeq + sub.mapDataLen);
    var k := sub.queue[0];
    PrepareExact(meta.rcvNxt, sub.mapDataSeq, Mapping(0, 10, 10, false), k, 0);
    var skb := Prepare(meta.rcvNxt, sub.mapDataSeq, sub.mapSubseq, sub.mapDataLen, sub.mapDataFin, k, 0);
    PieceHonest(c, 0, 5, 10);
    assert skb == Piece(c, 0, 5, 10);
    var queued := meta.PushInOrder(skb, false, s);
    return meta.rcvQueue, meta.rcvNxt;
  }

  /** The subflow's part of the run: detection and validation of the third packet. */
  method DetectedAndValidated(c: Cell, high: seq<int>, index: nat) returns (sub: Subflow)
    requires RcvTracks(high, index, 0)
    ensures fresh(sub) && sub.rcvNxt == 20 && sub.mapPresent
    ensures sub.mapDataSeq == 0 && sub.mapSubseq == 10 && sub.mapDataLen == 10 && !sub.mapDataFin
    ensures |sub.queue| == 1 && sub.queue[0].seqNo == 15 && sub.queue[0].cells == seq(5, _ => c)
  {
    hide Validated, Decode32, Subflow.Dropped;
    FirstBytesDecoded(high, index);
    var d := Dss(0, false, 10, 10, false);
    sub := new Subflow(0);
    sub.queue := [SubSkb(0, seq(5, _ => c), None), SubSkb(5, seq(10, _ => c), None),
                  SubSkb(15, seq(5, _ => c), Some(d))];
    sub.owner, sub.rcvNxt := [0, 0, 1], 20;
    var v := sub.DetectMapping(2, high, index, 0);
    StraddlingPurged(sub.queue[0], sub.queue[1], sub.queue[2]);
    var at := sub.ValidateMapping(2, 0);
  }

  method NewMeta(s: Stream) returns (meta: MetaReceive)
    requires s.base == 0 && |s.cells| == 100
    ensures fresh(meta) && fresh(meta.words) && meta.Safe(s) && meta.ofo == [] && meta.nextId == 0
    ensures meta.base == meta.rcvNxt == 0 && meta.rcvWup == 0 && meta.rcvWnd == 0
    ensures RcvTracks(meta.words.high, meta.words.index, 0)
  {
    meta := new MetaReceive(0, 1);
    assert s == Stream(0, [] + s.cells);
    meta.SafeAfterWrite(Stream(0, []), s.cells);
  }
}

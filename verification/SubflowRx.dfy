/**
 From a subflow's receive queue to the meta socket: detecting the mapping, validating the queue against it
 and pushing a complete mapping one level up (`mptcp_data_ready` and what it calls).
 */
module SubflowRx {
  import opened Common
  import opened SeqArith
  import opened DataStream
  import opened HighOrder
  import opened Mappings
  import opened MetaSock
  import OfoQueue

  /** `mptcp_prepare_skb`: the packet with data-level numbers, closed by the DATA_FIN if the mapping ends here. */
  function Prepare(near: int, mapDataSeq: int, mapSubseq: int, mapDataLen: nat, mapDataFin: bool,
                   k: SubSkb, id: nat): Skb {
    var inc := mapDataFin && SameSeq(k.End(), mapSubseq + mapDataLen);
    Skb(id, Unwrap(near, mapDataSeq + k.seqNo - mapSubseq), k.cells + FinCells(inc))
  }

  /** Data number of subflow number `p` under mapping `m`. */
  function DataOf(m: Mapping, p: int): int {
    m.dataSeq + p - m.subSeq
  }

  lemma LowOfLow64(a: int, b: int, d: int)
    requires Low64(a) == Low64(b)
    ensures Low32(a + d) == Low32(b + d)
  {
    assert TWO_64 == TWO_32 * TWO_32;
    assert (a + d) - (b + d) == ((a / TWO_64 - b / TWO_64) * TWO_32) * TWO_32;
    LowEqual(a + d, b + d, (a / TWO_64 - b / TWO_64) * TWO_32);
  }

  lemma PrepareExact(near: int, mapDataSeq: int, m: Mapping, k: SubSkb, id: nat)
    requires Low64(mapDataSeq) == Low64(m.dataSeq)
    requires Near(k.End(), m.SubEnd()) && Near(near, DataOf(m, k.seqNo))
    ensures Prepare(near, mapDataSeq, m.subSeq, m.len, m.fin, k, id)
            == Skb(id, DataOf(m, k.seqNo), k.cells + FinCells(m.fin && k.End() == m.SubEnd()))
  {
    LowOfLow64(mapDataSeq, m.dataSeq, k.seqNo - m.subSeq);
    UnwrapUnique(near, DataOf(m, k.seqNo), mapDataSeq + k.seqNo - m.subSeq);
  }

  /** A packet inside an honest mapping becomes an honest segment. */
  lemma TranslatedHonest(s: Stream, tx: SubTx, m: Mapping, k: SubSkb, id: nat)
    requires MapHonest(s, tx, m) && InMap(k, m) && tx.isn <= k.seqNo && k.End() <= tx.WriteSeq()
    requires k.cells == tx.Slice(k.seqNo, k.End())
    requires k.cells == [] ==> m.len == 0
    ensures Honest(s, Skb(id, DataOf(m, k.seqNo), k.cells + FinCells(m.fin && k.End() == m.SubEnd())))
  {
    hide FinCells, SubTx.Slice, SubTx.WriteSeq, Stream.Slice, Stream.End, Honest;
    var bytes, fin := tx.Slice(m.subSeq, m.SubEnd()), FinCells(m.fin);
    var from, to := k.seqNo - m.subSeq, k.End() - m.subSeq;
    SliceLength(tx, m.subSeq, m.SubEnd());
    FinLength(m.fin);
    TxSliceOfSlice(tx, m.subSeq, m.SubEnd(), k.seqNo, k.End());
    assert |bytes + fin| == m.DataLen();
    CutHonest(s, m.dataSeq, bytes, m.fin, from, to, id);
  }

  lemma SliceLength(tx: SubTx, a: int, b: int)
    requires tx.isn <= a <= b <= tx.WriteSeq()
    ensures |tx.Slice(a, b)| == b - a
  {
  }

  /** A cut of honest cells is an honest segment at its place. */
  lemma CutHonest(s: Stream, a: int, bytes: seq<Cell>, fin: bool, from: nat, to: nat, id: nat)
    requires from <= to <= |bytes| && (from < to || (bytes == [] && fin))
    requires s.base <= a && a + |bytes + FinCells(fin)| <= s.End()
    requires s.Slice(a, a + |bytes + FinCells(fin)|) == bytes + FinCells(fin)
    ensures Honest(s, Skb(id, a + from, bytes[from..to] + FinCells(fin && to == |bytes|)))
  {
    FinLength(fin);
    FinLength(fin && to == |bytes|);
    hide FinCells, Stream.Slice;
    var seg := Skb(id, a + from, bytes[from..to] + FinCells(fin && to == |bytes|));
    CutWithFin(bytes, fin, from, to);
    SliceOfSlice(s, a, a + |bytes + FinCells(fin)|, seg.start, seg.End());
  }

  lemma FinLength(fin: bool)
    ensures |FinCells(fin)| == if fin then 1 else 0
  {
  }

  /** Cutting a mapping's cells from `from` to `to`, with the DATA_FIN when the cut reaches its end. */
  lemma CutWithFin(bytes: seq<Cell>, fin: bool, from: nat, to: nat)
    requires from <= to <= |bytes|
    ensures var cut := bytes[from..to] + FinCells(fin && to == |bytes|);
            (bytes + FinCells(fin))[from..from + |cut|] == cut
  {
    var cut := bytes[from..to] + FinCells(fin && to == |bytes|);
    assert to < |bytes| ==> cut == bytes[from..to];
  }

  lemma SubSlice<T>(c: seq<T>, a: nat, b: nat, i: nat, j: nat)
    requires a <= b <= |c| && i <= j <= b - a
    ensures c[a..b][i..j] == c[a + i..a + j]
  {
    var x, y := c[a..b][i..j], c[a + i..a + j];
    forall k | 0 <= k < j - i
      ensures x[k] == y[k]
    {
      assert c[a..b][i + k] == c[a + i + k];
    }
  }

  lemma TxSliceOfSlice(tx: SubTx, a: int, b: int, from: int, to: int)
    requires tx.isn <= a <= from <= to <= b <= tx.WriteSeq()
    ensures tx.Slice(a, b)[from - a..to - a] == tx.Slice(from, to)
  {
    SubSlice(tx.cells, a - tx.isn, b - tx.isn, from - a, to - a);
  }

  lemma SliceOfSlice(s: Stream, a: int, b: int, from: int, to: int)
    requires s.base <= a <= from <= to <= b <= s.End()
    ensures s.Slice(a, b)[from - a..to - a] == s.Slice(from, to)
  {
    SubSlice(s.cells, a - s.base, b - s.base, from - a, to - a);
  }

  /**
   A 64-bit data number whose high word was not in the array: it is stored almost three or four blocks too high, and
   its low word is no longer that of the option.
   */
  ghost predicate Flagged(mapDataSeq: int, dataSeq: int) {
    || Low64(mapDataSeq) == Low64(dataSeq + 3 * TWO_32 - 2)
    || Low64(mapDataSeq) == Low64(dataSeq + 4 * TWO_32 - 2)
  }

  /** The 64-bit number of a mapping after detection: right, exactly 2^32 too high, or flagged. */
  ghost predicate Decoded(mapDataSeq: int, dataSeq: int) {
    || Low64(mapDataSeq) == Low64(dataSeq)
    || Low64(mapDataSeq) == Low64(dataSeq + TWO_32)
    || Flagged(mapDataSeq, dataSeq)
  }

  /** Numbers with one 64-bit form have one low word. */
  lemma SameLow32(a: int, b: int)
    requires Low64(a) == Low64(b)
    ensures Low32(a) == Low32(b)
  {
    LowOfLow64(a, b, 0);
  }

  /** Only a flagged number has another low word than the option it came from. */
  lemma FlaggedLowWord(mapDataSeq: int, dataSeq: int)
    requires Decoded(mapDataSeq, dataSeq)
    ensures Flagged(mapDataSeq, dataSeq) <==> Low32(mapDataSeq) != Low32(dataSeq)
  {
    var n :| n in {dataSeq, dataSeq + TWO_32, dataSeq + 3 * TWO_32 - 2, dataSeq + 4 * TWO_32 - 2}
             && Low64(mapDataSeq) == Low64(n);
    hide Low64;
    SameLow32(mapDataSeq, n);
    LowEqual(dataSeq + TWO_32, dataSeq, 1);
    LowEqual(dataSeq + 3 * TWO_32 - 2, dataSeq - 2, 3);
    LowEqual(dataSeq + 4 * TWO_32 - 2, dataSeq - 2, 4);
    TwoLower(dataSeq);
    if Flagged(mapDataSeq, dataSeq) {
      var f := if Low64(mapDataSeq) == Low64(dataSeq + 3 * TWO_32 - 2) then dataSeq + 3 * TWO_32 - 2
               else dataSeq + 4 * TWO_32 - 2;
      SameLow32(mapDataSeq, f);
    }
  }

  lemma TwoLower(n: int)
    ensures Low32(n - 2) != Low32(n)
  {
  }

  /** The checks before a push let only correctly decoded mappings through. */
  lemma AcceptedIsTrue(high: seq<int>, index: nat, rcvNxt: int, rcvWup: int, window: nat,
                       mapDataSeq: int, dataSeq: int, len: nat)
    requires RcvTracks(high, index, rcvNxt) && rcvWup <= rcvNxt < rcvWup + TWO_32
    requires Near(dataSeq, rcvNxt) && window < TWO_31 && len < TWO_31
    requires 0 <= mapDataSeq < TWO_64 && Decoded(mapDataSeq, dataSeq)
    requires InSequence(high, index, rcvNxt, rcvWup, window, mapDataSeq, mapDataSeq + len)
    ensures Low64(mapDataSeq) == Low64(dataSeq)
  {
    hide RcvTracks, InSequence;
    if Low64(mapDataSeq) != Low64(dataSeq) {
      var n :| n in {dataSeq + TWO_32, dataSeq + 3 * TWO_32 - 2, dataSeq + 4 * TWO_32 - 2}
               && mapDataSeq == Low64(n);
      hide Low64;
      InSequenceOnForms(high, index, rcvNxt, rcvWup, window, n, len);
    }
  }

  /** The segment that packet `k` is turned into under mapping `m`, on true numbers. */
  function SegmentOf(m: Mapping, k: SubSkb, id: nat): Skb {
    Skb(id, DataOf(m, k.seqNo), k.cells + FinCells(m.fin && k.End() == m.SubEnd()))
  }

  predicate IsSegment(m: Mapping, k: SubSkb, seg: Skb) {
    seg == SegmentOf(m, k, seg.id)
  }

  // ------------------------------------------------------------ validation, as functions

  /** `mptcp_skb_trim_head`, applied when a mapping from `from` on starts inside the first packet. */
  function TrimHeadOf(q: seq<SubSkb>, from: int): seq<SubSkb> {
    if q != [] && q[0].seqNo < from < q[0].End()
    then q[0 := SubSkb(from, q[0].cells[from - q[0].seqNo..], q[0].dss)]
    else q
  }

  /** `mptcp_skb_split_tail`, applied when a mapping up to `to` ends inside packet `i`; the tail has no option. */
  function SplitTailOf(q: seq<SubSkb>, i: nat, to: int): seq<SubSkb>
    requires i < |q| && q[i].seqNo <= to
  {
    if q[i].End() > to
    then q[..i] + [SubSkb(q[i].seqNo, q[i].cells[..to - q[i].seqNo], q[i].dss),
                   SubSkb(to, q[i].cells[to - q[i].seqNo..], None)] + q[i + 1..]
    else q
  }

  /** The queue without the packets in front that start before `from`. */
  function SkipOld(q: seq<SubSkb>, from: int): seq<SubSkb> {
    if q != [] && q[0].seqNo < from then SkipOld(q[1..], from) else q
  }

  /** `mptcp_validate_mapping` for packet `i`, on a mapping of the subflow numbers `from`, ..., `to - 1`. */
  function Validated(q: seq<SubSkb>, i: nat, from: int, to: int): seq<SubSkb>
    requires i < |q| && q[i].seqNo <= to && from <= to
  {
    SkipOld(SplitTailOf(TrimHeadOf(q, from), i, to), from)
  }

  /** `after` is what queueing the packets out of order, one after the other, may make of `before`. */
  ghost predicate AllQueued(m: Mapping, pkts: seq<SubSkb>, before: seq<Skb>, after: seq<Skb>) {
    if pkts == [] then after == before
    else
      exists mid, seg ::
        && AllQueued(m, pkts[..|pkts| - 1], before, mid) && MetaReceive.Queued(mid, after, seg)
        && IsSegment(m, pkts[|pkts| - 1], seg)
  }

  /** All of the packet queued last is held afterwards, with the DATA_FIN if it ends the mapping. */
  lemma LastIsQueued(m: Mapping, pkts: seq<SubSkb>, before: seq<Skb>, after: seq<Skb>, n: int)
    requires AllQueued(m, pkts, before, after) && pkts != []
    requires var k := pkts[|pkts| - 1];
             DataOf(m, k.seqNo) <= n < DataOf(m, k.End()) + if m.fin && k.End() == m.SubEnd() then 1 else 0
    ensures OfoQueue.Holds(after, n)
  {
  }

  /** What is held afterwards was held before or comes with one of the packets. */
  lemma {:induction false} QueuedFromSomewhere(m: Mapping, pkts: seq<SubSkb>, before: seq<Skb>, after: seq<Skb>, n: int)
    requires AllQueued(m, pkts, before, after) && OfoQueue.Holds(after, n) && !OfoQueue.Holds(before, n)
    ensures exists t :: 0 <= t < |pkts| && DataOf(m, pkts[t].seqNo) <= n <= DataOf(m, pkts[t].End())
  {
    if pkts != [] {
      var last := |pkts| - 1;
      var mid, seg :| AllQueued(m, pkts[..last], before, mid) && MetaReceive.Queued(mid, after, seg)
                      && IsSegment(m, pkts[last], seg);
      if OfoQueue.Holds(mid, n) {
        QueuedFromSomewhere(m, pkts[..last], before, mid, n);
        var t :| 0 <= t < last && DataOf(m, pkts[..last][t].seqNo) <= n <= DataOf(m, pkts[..last][t].End());
        assert pkts[..last][t] == pkts[t];
      } else {
        assert DataOf(m, pkts[last].seqNo) <= n <= DataOf(m, pkts[last].End());
      }
    }
  }

  lemma NoneQueued(m: Mapping, q: seq<Skb>)
    ensures AllQueued(m, [], q, q)
  {
  }

  lemma QueuedOneMore(m: Mapping, q: seq<SubSkb>, n: nat, before: seq<Skb>, mid: seq<Skb>, seg: Skb, after: seq<Skb>)
    requires n < |q| && AllQueued(m, q[..n], before, mid) && MetaReceive.Queued(mid, after, seg)
    requires IsSegment(m, q[n], seg)
    ensures AllQueued(m, q[..n + 1], before, after)
  {
    hide MetaReceive.Queued, IsSegment;
    assert q[..n + 1][..n] == q[..n] && q[..n + 1][n] == q[n];
  }

  /** What the walk over a subflow's queue changes of it; `number` is the data number stored. */
  datatype Standing = Standing(q: seq<SubSkb>, own: seq<nat>, present: bool, cur: nat, number: int)

  /** The present mapping's number is true, or the mapping starts before the last wrap of the counter `nxt`. */
  ghost predicate TrueNumber(tx: SubTx, a: Standing, nxt: int) {
    a.present ==>
      && a.cur < |tx.maps|
      && (Low64(a.number) == Low64(tx.maps[a.cur].dataSeq) || Epoch(tx.maps[a.cur].dataSeq) < Epoch(nxt))
  }

  lemma TrueNumberLater(tx: SubTx, a: Standing, nxt: int, later: int)
    requires TrueNumber(tx, a, nxt) && nxt <= later
    ensures TrueNumber(tx, a, later)
  {
    EpochGrows(nxt, later);
  }

  lemma EpochGrows(a: int, b: int)
    requires a <= b
    ensures Epoch(a) <= Epoch(b)
  {
  }

  /** Packet `t` of the queue is of the mapping that is present, or, without one, of the first one with an option. */
  ghost predicate First(z: Standing, t: nat)
    requires t < |z.own|
  {
    if z.present then z.own[t] == z.cur
    else forall u :: 0 <= u < t && u < |z.q| && z.q[u].dss.Some? ==> z.own[u] == z.own[t]
  }

  /** Mapping `c` was received to its end if it was due, or its number was read after the counter had wrapped. */
  ghost predicate Through(tx: SubTx, c: nat, due: int, nxt: int, at: int) {
    && c < |tx.maps|
    && (tx.maps[c].dataSeq <= due ==> tx.maps[c].DataEnd() <= nxt || Epoch(tx.maps[c].dataSeq) < Epoch(at))
  }

  /** A due mapping, pushed with nothing queued out of order, leaves that so and takes `nxt` to its end at most. */
  ghost predicate KeptShort(m: Mapping, ofo0: seq<Skb>, nxt0: int, ofo: seq<Skb>, nxt: int) {
    ofo0 == [] && m.dataSeq <= nxt0 ==> ofo == [] && (nxt <= nxt0 || nxt <= m.DataEnd())
  }

  ghost predicate OnlyMap(own: seq<nat>, c: nat) {
    forall t :: 0 <= t < |own| ==> own[t] == c
  }

  ghost predicate AllShort(tx: SubTx, own: seq<nat>, ofo0: seq<Skb>, nxt0: int, ofo: seq<Skb>, nxt: int) {
    forall c :: 0 <= c < |tx.maps| && OnlyMap(own, c) ==> KeptShort(tx.maps[c], ofo0, nxt0, ofo, nxt)
  }

  lemma ShortMeans(tx: SubTx, own: seq<nat>, ofo0: seq<Skb>, nxt0: int, ofo: seq<Skb>, nxt: int)
    requires AllShort(tx, own, ofo0, nxt0, ofo, nxt)
    ensures forall c :: 0 <= c < |tx.maps| && OnlyMap(own, c) ==>
              (ofo0 == [] && tx.maps[c].dataSeq <= nxt0 ==> ofo == [] && (nxt <= nxt0 || nxt <= tx.maps[c].DataEnd()))
  {
    forall c | 0 <= c < |tx.maps| && OnlyMap(own, c)
      ensures KeptShort(tx.maps[c], ofo0, nxt0, ofo, nxt)
    {
    }
  }

  lemma NothingPushed(tx: SubTx, own: seq<nat>, ofo: seq<Skb>, nxt: int)
    ensures AllShort(tx, own, ofo, nxt, ofo, nxt)
  {
  }

  lemma PushShort(tx: SubTx, due: int, nxt: int, z: Standing, fc: Option<nat>, a: Standing, b: Standing, later: int,
                  ofo0: seq<Skb>, ofo: seq<Skb>, ofo': seq<Skb>)
    requires Progress(tx, due, nxt, z, fc, a) && Pushed(tx, a, b, nxt, later) && a.cur < |tx.maps|
    requires AllShort(tx, z.own, ofo0, due, ofo, nxt) && KeptShort(tx.maps[a.cur], ofo, nxt, ofo', later)
    ensures AllShort(tx, z.own, ofo0, due, ofo', later)
  {
    hide TrueNumber, Through, FirstIs, Epoch;
    assert z.own[|z.q| - |a.q|] == a.own[0] == a.cur;
  }

  ghost predicate FirstIs(z: Standing, c: nat) {
    |z.q| == |z.own| && forall t :: 0 <= t < |z.q| && z.q[t].dss.Some? && First(z, t) ==> z.own[t] == c
  }

  /** Detection and validation of packet `i`, which is packet `i'` then. */
  ghost predicate Advanced(a: Standing, b: Standing, i: nat, i': nat) {
    && i' <= i < |a.q| == |a.own| && b.q == a.q[i - i'..] && b.own == a.own[i - i'..]
    && (a.present ==> b.present && b.cur == a.cur && b.number == a.number && i' == i)
    && (!a.present && b.present ==> b.q[i'].dss.Some? && b.own[i'] == b.cur)
  }

  /** The present mapping was pushed, when the counter was at `nxt`; it is at `later` now. */
  ghost predicate Pushed(tx: SubTx, a: Standing, b: Standing, nxt: int, later: int) {
    && a.present && !b.present && |b.q| < |a.q| == |a.own|
    && b.q == a.q[|a.q| - |b.q|..] && b.own == a.own[|a.q| - |b.q|..]
    && (forall t :: 0 <= t < |a.q| - |b.q| ==> a.own[t] == a.cur)
    && nxt <= later && Through(tx, a.cur, nxt, later, nxt)
  }

  /**
   How far a walk has come that began in the state `z` with the counter at `due`: what was taken off the queue, with
   an option, is through; `fc` is the mapping pushed first.
   */
  ghost predicate Progress(tx: SubTx, due: int, nxt: int, z: Standing, fc: Option<nat>, a: Standing) {
    && |a.q| <= |z.q| == |z.own| && due <= nxt && TrueNumber(tx, a, nxt)
    && a.q == z.q[|z.q| - |a.q|..] && a.own == z.own[|z.q| - |a.q|..]
    && (fc.None? ==>
          && nxt == due && (z.present ==> a.present && a.cur == z.cur) && (a.present ==> FirstIs(z, a.cur))
          && forall t :: 0 <= t < |z.q| - |a.q| ==> z.q[t].dss.None?)
    && (fc.Some? ==> |a.q| < |z.q| && FirstIs(z, fc.value) && Through(tx, fc.value, due, nxt, due))
    && (forall t :: 0 <= t < |z.q| - |a.q| && z.q[t].dss.Some? ==> Through(tx, z.own[t], due, nxt, nxt))
  }

  lemma SameNumber(tx: SubTx, a: Standing, b: Standing, nxt: int)
    requires TrueNumber(tx, a, nxt) && b.present == a.present && b.cur == a.cur && b.number == a.number
    ensures TrueNumber(tx, b, nxt)
  {
  }

  /** The present mapping's number, read when the counter was at `nxt`: true unless it starts before the last wrap. */
  ghost predicate ReadNow(tx: SubTx, a: Standing, nxt: int) {
    && a.cur < |tx.maps|
    && (Low64(a.number) == Low64(tx.maps[a.cur].dataSeq) <==> Epoch(nxt) <= Epoch(tx.maps[a.cur].dataSeq))
  }

  lemma SameReading(tx: SubTx, a: Standing, b: Standing, nxt: int)
    requires b.cur == a.cur && b.number == a.number
    ensures ReadNow(tx, a, nxt) ==> ReadNow(tx, b, nxt)
  {
  }

  /** A single mapping from before the last wrap: its number is misread and it does not move the counter. */
  ghost predicate Misread(tx: SubTx, due: int, nxt: int, z: Standing, a: Standing) {
    forall c :: 0 <= c < |tx.maps| && OnlyMap(z.own, c) && !z.present && Epoch(tx.maps[c].dataSeq) < Epoch(due) ==>
      nxt == due && (a.present ==> a.cur == c && Low64(a.number) != Low64(tx.maps[c].dataSeq))
  }

  lemma NothingRead(tx: SubTx, nxt: int, z: Standing)
    ensures Misread(tx, nxt, nxt, z, z)
  {
  }

  lemma DetectMisreads(tx: SubTx, due: int, nxt: int, z: Standing, fc: Option<nat>, a: Standing, b: Standing, i: nat,
                       i': nat)
    requires Misread(tx, due, nxt, z, a) && Progress(tx, due, nxt, z, fc, a) && Advanced(a, b, i, i')
    requires !a.present && b.present ==> ReadNow(tx, b, nxt)
    ensures Misread(tx, due, nxt, z, b)
  {
    hide Epoch, TrueNumber, Through, FirstIs;
    if !a.present && b.present {
      assert b.own[i'] == z.own[|z.q| - |a.q| + i] == b.cur;
    }
  }

  lemma PushMisread(tx: SubTx, due: int, nxt: int, later: int, z: Standing, a: Standing, b: Standing)
    requires Misread(tx, due, nxt, z, a) && a.cur < |tx.maps| && Pushed(tx, a, b, nxt, later)
    requires Low64(a.number) != Low64(tx.maps[a.cur].dataSeq) ==> later == nxt
    ensures Misread(tx, due, later, z, b)
  {
  }

  lemma MisreadMeans(tx: SubTx, due: int, nxt: int, z: Standing, a: Standing)
    requires Misread(tx, due, nxt, z, a) && !z.present
    ensures forall c :: 0 <= c < |tx.maps| && OnlyMap(z.own, c) && Epoch(tx.maps[c].dataSeq) < Epoch(due) ==> nxt == due
  {
  }

  lemma MakeAdvanced(a: Standing, b: Standing, i: nat, i': nat)
    requires i' <= i < |a.q| == |a.own| && b.q == a.q[i - i'..] && b.own == a.own[i - i'..]
    requires a.present ==> b.present && b.cur == a.cur && b.number == a.number && i' == i
    requires !a.present && b.present ==> a.q[i].dss.Some? && b.own[i'] == b.cur
    ensures Advanced(a, b, i, i')
  {
  }

  /** An acceptable mapping that was due is through; another one that was due had been received, or was misread. */
  lemma MakePushed(tx: SubTx, a: Standing, b: Standing, nxt: int, later: int, edge: int, acceptable: bool)
    requires TrueNumber(tx, a, nxt) && a.present && !b.present && nxt <= later && a.cur < |tx.maps|
    requires |b.q| < |a.q| == |a.own| && b.q == a.q[|a.q| - |b.q|..] && b.own == a.own[|a.q| - |b.q|..]
    requires forall t :: 0 <= t < |a.q| - |b.q| ==> a.own[t] == a.cur
    requires acceptable <==>
               && Low64(a.number) == Low64(tx.maps[a.cur].dataSeq) && nxt < tx.maps[a.cur].DataEnd()
               && (tx.maps[a.cur].dataSeq <= nxt || tx.maps[a.cur].dataSeq <= edge)
    requires acceptable && tx.maps[a.cur].dataSeq <= nxt ==> tx.maps[a.cur].DataEnd() <= later
    ensures Pushed(tx, a, b, nxt, later)
  {
    hide Epoch, Low64;
  }

  lemma ProgressStarts(tx: SubTx, nxt: int, z: Standing)
    requires |z.own| == |z.q| && TrueNumber(tx, z, nxt)
    ensures Progress(tx, nxt, nxt, z, None, z)
  {
  }

  lemma ProgressTrue(tx: SubTx, due: int, nxt: int, z: Standing, fc: Option<nat>, a: Standing)
    requires Progress(tx, due, nxt, z, fc, a)
    ensures TrueNumber(tx, a, nxt) && |a.own| == |a.q|
  {
  }

  lemma DetectKeeps(tx: SubTx, due: int, nxt: int, z: Standing, fc: Option<nat>, a: Standing, b: Standing, i: nat,
                    i': nat)
    requires Progress(tx, due, nxt, z, fc, a) && Advanced(a, b, i, i') && TrueNumber(tx, b, nxt)
    requires !a.present ==> forall t :: 0 <= t < i ==> a.q[t].dss.None?
    ensures Progress(tx, due, nxt, z, fc, b)
  {
    hide TrueNumber, Through;
    var d := |z.q| - |a.q|;
    if !a.present {
      forall t | 0 <= t < d + i && (fc.None? || d <= t)
        ensures z.q[t].dss.None?
      {
        assert d <= t ==> z.q[t] == a.q[t - d];
      }
      if b.present && fc.None? {
        assert b.q[i'] == z.q[d + i] && b.own[i'] == z.own[d + i];
      }
    }
  }

  lemma PushKeeps(tx: SubTx, due: int, nxt: int, later: int, z: Standing, fc: Option<nat>, a: Standing, b: Standing)
    requires Progress(tx, due, nxt, z, fc, a) && Pushed(tx, a, b, nxt, later)
    ensures Progress(tx, due, later, z, if fc.None? then Some(a.cur) else fc, b)
  {
    EpochGrows(nxt, later);
    hide Epoch;
    var d := |z.q| - |a.q|;
    forall t | 0 <= t < |z.q| - |b.q| && z.q[t].dss.Some?
      ensures Through(tx, z.own[t], due, later, later)
    {
      if t < d {
        assert Through(tx, z.own[t], due, nxt, nxt);
      } else {
        assert z.own[t] == a.own[t - d] == a.cur;
      }
    }
  }

  lemma ProgressEnds(tx: SubTx, due: int, nxt: int, z: Standing, fc: Option<nat>, a: Standing)
    requires Progress(tx, due, nxt, z, fc, a)
    ensures |a.q| <= |z.q| == |z.own| && a.q == z.q[|z.q| - |a.q|..] && a.own == z.own[|z.q| - |a.q|..]
    ensures TrueNumber(tx, a, nxt)
    ensures |a.q| == |z.q| ==> nxt == due
  {
  }

  lemma AllHandedOn(tx: SubTx, due: int, nxt: int, z: Standing, fc: Option<nat>, a: Standing, subNxt: int)
    requires Progress(tx, due, nxt, z, fc, a) && |a.own| == |a.q|
    requires forall t :: 0 <= t < |a.q| && a.q[t].dss.Some? ==>
               a.own[t] < |tx.maps| && subNxt < tx.maps[a.own[t]].SubEnd()
    ensures |z.own| == |z.q|
    ensures forall t :: 0 <= t < |z.q| && z.q[t].dss.Some? ==>
              && z.own[t] < |tx.maps|
              && (tx.maps[z.own[t]].SubEnd() <= subNxt && tx.maps[z.own[t]].dataSeq <= due ==>
                    || tx.maps[z.own[t]].DataEnd() <= nxt
                    || Epoch(tx.maps[z.own[t]].dataSeq) < Epoch(if First(z, t) then due else nxt))
  {
    hide Epoch, TrueNumber;
    var d := |z.q| - |a.q|;
    forall t | 0 <= t < |z.q| && z.q[t].dss.Some?
      ensures z.own[t] < |tx.maps|
      ensures tx.maps[z.own[t]].SubEnd() <= subNxt ==>
                Through(tx, z.own[t], due, nxt, if First(z, t) then due else nxt)
    {
      if t < d {
        assert Through(tx, z.own[t], due, nxt, nxt);
        if First(z, t) {
          assert z.own[t] == fc.value;
        }
      } else {
        assert z.q[t] == a.q[t - d] && z.own[t] == a.own[t - d];
      }
    }
  }

  datatype Verdict = Go | NoDssInWindow | Mismatch | OutsideMapping

  class Subflow {
    var queue: seq<SubSkb>     // sk_receive_queue
    var copiedSeq: int
    var rcvNxt: int
    var mapPresent: bool
    var mapDataSeq: int        // a 64-bit word
    var mapSubseq: int
    var mapDataLen: nat
    var mapDataFin: bool
    var broken: bool           // reset and closed
    ghost var owner: seq<nat>  // which mapping of the peer each packet belongs to
    ghost var cur: nat

    constructor (isn: int)
      ensures forall s: Stream :: Ok(s, SubTx(isn, [], []))
      ensures queue == [] && owner == [] && !mapPresent && !broken && rcvNxt == copiedSeq == isn
    {
      queue, copiedSeq, rcvNxt, mapPresent, mapDataSeq, mapSubseq := [], isn, isn, false, 0, 0;
      mapDataLen, mapDataFin, broken, owner, cur := 0, false, false, [], 0;
    }

    /** The fields hold mapping `m`. */
    ghost predicate Holds(m: Mapping)
      reads this
    {
      && mapSubseq == m.subSeq && mapDataLen == m.len && mapDataFin == m.fin
      && 0 <= mapDataSeq < TWO_64 && Decoded(mapDataSeq, m.dataSeq)
    }

    /** The current mapping is the one of the packet at the head of the queue. */
    ghost predicate MapOk(tx: SubTx)
      reads this
    {
      && queue != [] && |owner| == |queue| && owner[0] == cur && cur < |tx.maps|
      && Holds(tx.maps[cur])
    }

    ghost predicate Ok(s: Stream, tx: SubTx)
      reads this
    {
      && TxHonest(s, tx)
      && RxOk(tx, queue, owner, copiedSeq, rcvNxt)
      && PendingFrom(tx, copiedSeq, MetaReceive.Lowest(s))
      && (mapPresent ==> MapOk(tx))
    }

    /** The network hands over the next packet in subflow order. */
    method Arrive(k: SubSkb, j: nat, ghost s: Stream, ghost tx: SubTx)
      requires Ok(s, tx) && PktHonest(tx, k, j)
      requires k.seqNo <= rcvNxt <= k.End() && (k.cells != [] ==> rcvNxt < k.End())
      requires forall i :: 0 <= i < |owner| ==> owner[i] <= j
      requires k.End() < copiedSeq + TWO_31 / 2
      modifies this`queue, this`owner, this`rcvNxt
      ensures Ok(s, tx)
      ensures queue == old(queue) + [k] && owner == old(owner) + [j] && rcvNxt == k.End()
    {
      hide PktHonest, MapHonest, InOrder, Tiles, Boundary, Front, Pending, TxHonest, Decoded;
      ArriveKeeps(tx, queue, owner, copiedSeq, rcvNxt, k, j);
      assert queue != [] ==> (queue + [k])[0] == queue[0] && (owner + [j])[0] == owner[0];
      queue := queue + [k];
      owner := owner + [j];
      rcvNxt := k.End();
    }

    static lemma ArriveKeeps(tx: SubTx, q: seq<SubSkb>, owner: seq<nat>, copied: int, nxt: int, k: SubSkb, j: nat)
      requires RxOk(tx, q, owner, copied, nxt) && PktHonest(tx, k, j)
      requires k.seqNo <= nxt <= k.End() && (k.cells != [] ==> nxt < k.End())
      requires forall i :: 0 <= i < |owner| ==> owner[i] <= j
      requires k.End() < copied + TWO_31 / 2
      ensures RxOk(tx, q + [k], owner + [j], copied, k.End())
    {
      InOrderSnoc(q, copied, k);
      PktFacts(tx, k, j);
      hide PktHonest, InOrder, Front, Boundary;
    }

    /** The next packet with bytes belongs to no earlier mapping than the packets queued. */
    static lemma NextIsLater(tx: SubTx, q: seq<SubSkb>, owner: seq<nat>, copied: int, nxt: int, to: int, j: nat)
      requires RxOk(tx, q, owner, copied, nxt) && Tiles(tx) && j < |tx.maps| && nxt < to <= tx.maps[j].SubEnd()
      ensures forall t :: 0 <= t < |owner| ==> owner[t] <= j
    {
      forall t | 0 <= t < |owner|
        ensures owner[t] <= j
      {
        LaterOwner(tx, q, owner, copied, nxt, t, j);
        QueueSpan(tx, q, owner, copied, nxt, t);
      }
    }

    static lemma PktFacts(tx: SubTx, k: SubSkb, j: nat)
      requires PktHonest(tx, k, j)
      ensures k.End() <= tx.WriteSeq()
    {
    }

    static lemma InOrderSnoc(q: seq<SubSkb>, copied: int, k: SubSkb)
      requires InOrder(q, copied)
      requires k.seqNo <= Front(q, copied, |q|) <= k.End() && (k.cells != [] ==> Front(q, copied, |q|) < k.End())
      ensures InOrder(q + [k], copied) && Front(q + [k], copied, |q| + 1) == k.End()
    {
      var r := q + [k];
      forall i | 0 <= i < |r|
        ensures r[i].seqNo <= Front(r, copied, i) <= r[i].End()
        ensures r[i].cells != [] ==> Front(r, copied, i) < r[i].End()
      {
        assert i <= |q| ==> Front(r, copied, i) == Front(q, copied, i);
      }
    }

    /**
     `mptcp_detect_mapping` on the packet at position `i`: take over the mapping its option names, or
     compare it with the one already present.
     */
    method DetectMapping(i: nat, high: seq<int>, index: nat, metaRcvNxt: int) returns (v: Verdict)
      requires i < |queue| && |high| == 2 && index < 2
      requires queue[i].dss.Some? ==> queue[i].dss.value.dataLen > 0
      modifies this`mapPresent, this`mapDataSeq, this`mapSubseq, this`mapDataLen, this`mapDataFin
      ensures v != Go || old(mapPresent) || queue[i].dss.None? ==>
                mapPresent == old(mapPresent) && mapDataSeq == old(mapDataSeq) && mapSubseq == old(mapSubseq) &&
                mapDataLen == old(mapDataLen) && mapDataFin == old(mapDataFin)
      ensures v == Go && !old(mapPresent) && queue[i].dss.Some? ==>
                var d := queue[i].dss.value;
                && mapPresent && mapDataFin == d.fin && mapDataLen + FinLen(d.fin) == d.dataLen
                && mapSubseq == (if d.fin && queue[i].cells == [] then queue[i].seqNo else d.subSeq)
                && mapDataSeq == FromWire(high, index, metaRcvNxt, d)
      ensures v == NoDssInWindow <==> queue[i].dss.None? && !mapPresent && Low32(rcvNxt - copiedSeq) > 65536
      ensures v == Mismatch <==> queue[i].dss.Some? && old(mapPresent) && !MatchesDss(queue[i])
      ensures v == OutsideMapping ==> queue[i].dss.Some? && !old(mapPresent)
      ensures queue[i].dss.Some? && !old(mapPresent) && CloseToPacket(queue[i]) ==>
                (v == OutsideMapping <==> !MeetsPacket(queue[i]))
    {
      if queue[i].dss.None? {
        return if !mapPresent && Low32(rcvNxt - copiedSeq) > 65536 then NoDssInWindow else Go;
      }
      var d := queue[i].dss.value;
      var subSeq := if d.fin && queue[i].cells == [] then queue[i].seqNo else d.subSeq;
      if mapPresent {
        return if !SameSeq(d.dataSeq, mapDataSeq) || !SameSeq(subSeq, mapSubseq)
                  || d.dataLen != mapDataLen + FinLen(mapDataFin) || d.fin != mapDataFin then Mismatch else Go;
      }
      var dataLen := d.dataLen - FinLen(d.fin);
      var start, end := queue[i].seqNo, queue[i].End();
      if (!Before(subSeq, end) && After(end, start)) || (d.fin && start == end && After(subSeq, end))
         || (!After(subSeq + dataLen, start) && After(end, start)) {
        return OutsideMapping;
      }
      mapDataSeq := FromWire(high, index, metaRcvNxt, d);
      mapDataLen, mapSubseq, mapDataFin, mapPresent := dataLen, subSeq, d.fin, true;
      return Go;
    }

    static function FinLen(fin: bool): nat {
      if fin then 1 else 0
    }

    /** The packet's option names the mapping that is present. */
    ghost predicate MatchesDss(k: SubSkb)
      requires k.dss.Some?
      reads this
    {
      var d := k.dss.value;
      && SameSeq(d.dataSeq, mapDataSeq) && d.fin == mapDataFin && d.dataLen == mapDataLen + FinLen(mapDataFin)
      && SameSeq(if d.fin && k.cells == [] then k.seqNo else d.subSeq, mapSubseq)
    }

    /** The subflow number of the mapping that an option names; an empty DATA_FIN is mapped where it stands. */
    static function NamedSubseq(k: SubSkb): int
      requires k.dss.Some?
    {
      if k.dss.value.fin && k.cells == [] then k.seqNo else k.dss.value.subSeq
    }

    static function NamedEnd(k: SubSkb): int
      requires k.dss.Some?
    {
      NamedSubseq(k) + k.dss.value.dataLen - FinLen(k.dss.value.fin)
    }

    /** Packet and mapping are close enough for 32-bit comparisons to decide. */
    static ghost predicate CloseToPacket(k: SubSkb)
      requires k.dss.Some?
    {
      |k.cells| < TWO_31 && Near(NamedSubseq(k), k.End()) && Near(NamedEnd(k), k.seqNo)
    }

    /** The option's subflow range has a byte of the packet it came with, if that has any. */
    static ghost predicate MeetsPacket(k: SubSkb)
      requires k.dss.Some?
    {
      k.cells != [] ==> NamedSubseq(k) < k.End() && k.seqNo < NamedEnd(k)
    }

    /** Nothing has to be trimmed or split: the queue's head and packet `i` respect the mapping's ends. */
    static ghost predicate NoStraddle(q: seq<SubSkb>, i: nat, from: int, to: int)
      requires i < |q|
    {
      !(q[0].seqNo < from < q[0].End()) && q[i].End() <= to
    }

    static lemma NothingToCut(q: seq<SubSkb>, i: nat, from: int, to: int)
      requires i < |q| && q[i].seqNo <= to && from <= to
      ensures |TrimHeadOf(q, from)| == |q| && TrimHeadOf(q, from)[i].seqNo <= to
      ensures TrimHeadOf(q, from)[i].End() == q[i].End()
      ensures NoStraddle(q, i, from, to) ==> TrimHeadOf(q, from) == q && SplitTailOf(q, i, to) == q && q[i].End() <= to
    {
    }

    static ghost predicate Spread(q: seq<SubSkb>, lo: int) {
      forall i :: 0 <= i < |q| ==> lo <= q[i].seqNo <= q[i].End() < lo + TWO_31
    }

    static ghost predicate StartsWithin(q: seq<SubSkb>, lo: int) {
      forall i :: 0 <= i < |q| ==> lo <= q[i].seqNo < lo + TWO_31
    }

    /** `mptcp_skb_trim_head`: the mapping starts inside the first packet. */
    method TrimHead(ghost lo: int)
      requires queue != [] && Spread(queue, lo) && lo <= mapSubseq < lo + TWO_31
      modifies this`queue
      ensures queue == TrimHeadOf(old(queue), mapSubseq)
      ensures Spread(queue, lo)
    {
      var k := queue[0];
      if Before(k.seqNo, mapSubseq) && After(k.End(), mapSubseq) {
        queue := queue[0 := SubSkb(mapSubseq, k.cells[mapSubseq - k.seqNo..], k.dss)];
      }
    }

    /** `mptcp_skb_split_tail`: the mapping ends inside packet `i`. */
    method SplitTail(i: nat, ghost lo: int)
      requires i < |queue| && |owner| == |queue| && Spread(queue, lo)
      requires lo <= mapSubseq + mapDataLen < lo + TWO_31 && queue[i].seqNo <= mapSubseq + mapDataLen
      modifies this`queue, this`owner
      ensures queue == SplitTailOf(old(queue), i, mapSubseq + mapDataLen)
      ensures old(queue)[i].End() <= mapSubseq + mapDataLen ==> owner == old(owner)
      ensures |owner| == |queue| && i < |queue| && queue[i].End() <= mapSubseq + mapDataLen
      ensures StartsWithin(queue, lo)
    {
      var k := queue[i];
      var end := mapSubseq + mapDataLen;
      if After(k.End(), end) {
        var head := SubSkb(k.seqNo, k.cells[..end - k.seqNo], k.dss);
        var tail := SubSkb(end, k.cells[end - k.seqNo..], None);
        queue := queue[..i] + [head, tail] + queue[i + 1..];
        owner := owner[..i] + [owner[i], owner[i]] + owner[i + 1..];
      }
    }

    /**
     `mptcp_validate_mapping` for packet `i`: trim, split, then drop the packets in front of the mapping.
     Returns the packet's new position.  When nothing straddles, dropping is all that happens.
     */
    method ValidateMapping(i: nat, ghost lo: int) returns (i': int)
      requires i < |queue| && |owner| == |queue| && Spread(queue, lo) && mapPresent
      requires lo <= mapSubseq <= mapSubseq + mapDataLen < lo + TWO_31
      requires queue[i].seqNo <= mapSubseq + mapDataLen
      modifies this`queue, this`owner, this`copiedSeq
      ensures |owner| == |queue|
      ensures queue == Validated(old(queue), i, mapSubseq, mapSubseq + mapDataLen)
      ensures queue == [] || mapSubseq <= queue[0].seqNo
      ensures NoStraddle(old(queue), i, mapSubseq, mapSubseq + mapDataLen) ==>
                Dropped(old(queue), old(owner), old(copiedSeq), i - i') && (i' >= 0 || old(queue)[i].seqNo < mapSubseq)
    {
      hide *;
      NothingToCut(queue, i, mapSubseq, mapSubseq + mapDataLen);
      ValidatedIs(queue, i, mapSubseq, mapSubseq + mapDataLen);
      ghost var whole := NoStraddle(queue, i, mapSubseq, mapSubseq + mapDataLen);
      TrimHead(lo);
      SplitTail(i, lo);
      ghost var q, own := queue, owner;
      assert whole ==> q == old(queue) && own == old(owner);
      var n := PurgeOld(lo);
      DroppedStartOld(q, own, old(copiedSeq), n);
      i' := i - n;
    }

    static lemma ValidatedIs(q: seq<SubSkb>, i: nat, from: int, to: int)
      requires i < |q| && q[i].seqNo <= to && from <= to
      ensures |TrimHeadOf(q, from)| == |q| && TrimHeadOf(q, from)[i].seqNo <= to
      ensures Validated(q, i, from, to) == SkipOld(SplitTailOf(TrimHeadOf(q, from), i, to), from)
    {
    }

    lemma DroppedStartOld(q: seq<SubSkb>, own: seq<nat>, copied: int, n: int)
      requires |own| == |q|
      ensures Dropped(q, own, copied, n) ==>
                0 <= n <= |q| && forall t :: 0 <= t < n ==> q[t].seqNo < mapSubseq
    {
    }

    /** Drops the packets in front of the mapping: their own mapping was lost. */
    method PurgeOld(ghost lo: int) returns (n: nat)
      requires |owner| == |queue| && StartsWithin(queue, lo) && lo <= mapSubseq < lo + TWO_31
      modifies this`queue, this`owner, this`copiedSeq
      ensures |owner| == |queue| && Dropped(old(queue), old(owner), old(copiedSeq), n)
      ensures queue == SkipOld(old(queue), mapSubseq) && (queue == [] || mapSubseq <= queue[0].seqNo)
    {
      n := 0;
      while queue != [] && Before(queue[0].seqNo, mapSubseq)
        invariant n <= |old(queue)| && Dropped(old(queue), old(owner), old(copiedSeq), n)
        invariant SkipOld(queue, mapSubseq) == SkipOld(old(queue), mapSubseq)
        decreases |queue|
      {
        copiedSeq := queue[0].End();
        queue, owner, n := queue[1..], owner[1..], n + 1;
      }
    }

    /** The queue without its first `n` packets. */
    ghost predicate Dropped(q: seq<SubSkb>, own: seq<nat>, copied: int, n: int)
      requires |own| == |q|
      reads this
    {
      && 0 <= n <= |q| && queue == q[n..] && owner == own[n..]
      && copiedSeq == Front(q, copied, n)
      && (forall t :: 0 <= t < n ==> q[t].seqNo < mapSubseq)
    }

    // ---------------------------------------------------------- pushing a mapping up

    /** `mptcp_reset_mapping` */
    method ResetMapping()
      modifies this`mapPresent, this`mapDataSeq, this`mapSubseq, this`mapDataLen, this`mapDataFin
      ensures !mapPresent
    {
      mapDataLen, mapDataSeq, mapSubseq, mapDataFin, mapPresent := 0, 0, 0, false, false;
    }

    /** Subflow numbers in the queue stay between the consumed and the received end. */
    static lemma QueueSpan(tx: SubTx, q: seq<SubSkb>, owner: seq<nat>, copied: int, nxt: int, i: nat)
      requires RxOk(tx, q, owner, copied, nxt) && Tiles(tx) && i < |q|
      ensures copied <= tx.maps[owner[i]].subSeq <= q[i].seqNo <= q[i].End() <= nxt
    {
      HeadAtMapStart(tx, q, owner, copied, nxt);
      FrontMonotone(q, copied, i + 1, |q|);
      assert PktHonest(tx, q[i], owner[i]);
      assert owner[0] <= owner[i];
      assert PktHonest(tx, q[0], owner[0]);
    }

    /** Part `n` of a push: the first `n` packets are gone, all of them of mapping `c`. */
    ghost predicate Popping(tx: SubTx, q0: seq<SubSkb>, own0: seq<nat>, copied0: int, c: nat, n: nat)
      reads this
    {
      && RxOk(tx, q0, own0, copied0, rcvNxt) && Tiles(tx) && c < |tx.maps|
      && n <= |q0| && queue == q0[n..] && owner == own0[n..]
      && copiedSeq == Front(q0, copied0, n)
      && (forall t :: 0 <= t < n ==> own0[t] == c)
      && mapSubseq == tx.maps[c].subSeq && mapDataLen == tx.maps[c].len && tx.maps[c].len <= MAX_MAPPING
    }

    lemma BeginPop(s: Stream, tx: SubTx)
      requires Ok(s, tx) && mapPresent
      ensures TxHonest(s, tx) && cur < |tx.maps| && PendingFrom(tx, copiedSeq, MetaReceive.Lowest(s))
      ensures tx.maps[cur].SubEnd() <= rcvNxt ==> AtPacket(tx, queue, owner, copiedSeq, cur, 0, true)
      ensures DataOf(tx.maps[cur], copiedSeq) == tx.maps[cur].dataSeq
    {
      assert MapHonest(s, tx, tx.maps[cur]);
      HeadAtMapStart(tx, queue, owner, copiedSeq, rcvNxt);
      assert queue[0..] == queue && owner[0..] == owner;
    }

    /** Unlinks the head packet and moves `copiedSeq` past it; `more` tells whether the mapping goes on. */
    method PopHead(ghost tx: SubTx, ghost q0: seq<SubSkb>, ghost own0: seq<nat>, ghost copied0: int,
                   ghost c: nat, ghost n: nat) returns (k: SubSkb, more: bool)
      requires AtPacket(tx, q0, own0, copied0, c, n, true)
      modifies this`queue, this`owner, this`copiedSeq
      ensures n < |q0| && AtPacket(tx, q0, own0, copied0, c, n + 1, more) && k == q0[n]
    {
      hide PktHonest, Boundary, Tiles, MapHonest, Pending;
      k := queue[0];
      copiedSeq := k.End();
      queue, owner := queue[1..], owner[1..];
      more := queue != [] && Before(queue[0].seqNo, mapSubseq + mapDataLen);
      if queue != [] {
        assert queue[0] == q0[n + 1];
        QueueSpan(tx, q0, own0, copied0, rcvNxt, n + 1);
        QueueSpan(tx, q0, own0, copied0, rcvNxt, n);
        LaterOwner(tx, q0, own0, copied0, rcvNxt, n + 1, c);
      }
    }

    /** After the last packet of the mapping the queue is in order again. */
    lemma Popped(tx: SubTx, q0: seq<SubSkb>, own0: seq<nat>, copied0: int, c: nat, n: nat, lo: int)
      requires AtPacket(tx, q0, own0, copied0, c, n, false) && PendingFrom(tx, copied0, lo)
      ensures RxOk(tx, queue, owner, copiedSeq, rcvNxt) && PendingFrom(tx, copiedSeq, lo)
      ensures c < |tx.maps| && copiedSeq == tx.maps[c].SubEnd()
    {
      DropComplete(tx, q0, own0, copied0, rcvNxt, n);
      FrontMonotone(q0, copied0, 0, n);
      PendingShrinks(tx, copied0, copiedSeq, lo);
    }

    /** Between two packets of a push. */
    ghost predicate AtPacket(tx: SubTx, q0: seq<SubSkb>, own0: seq<nat>, copied0: int, c: nat, n: nat, more: bool)
      reads this
    {
      && Popping(tx, q0, own0, copied0, c, n) && tx.maps[c].SubEnd() <= rcvNxt
      && (more ==> n < |q0| && own0[n] == c)
      && (!more ==> 0 < n && (n < |q0| ==> own0[n] > c || q0[n].cells == []))
    }

    /** Mapping `c` has been taken off the queue `q0`, with exactly its own packets. */
    ghost predicate PushedOff(tx: SubTx, q0: seq<SubSkb>, c: nat)
      reads this`queue, this`copiedSeq
    {
      && c < |tx.maps| && copiedSeq == tx.maps[c].SubEnd()
      && |queue| < |q0| && queue == q0[|q0| - |queue|..]
    }

    /** The packets taken off the front of `q0` all belonged to mapping `c`. */
    ghost predicate OwnersOff(q0: seq<SubSkb>, own0: seq<nat>, c: nat)
      reads this`queue, this`owner
    {
      && |queue| <= |q0| == |own0| && owner == own0[|q0| - |queue|..]
      && forall t :: 0 <= t < |q0| - |queue| ==> own0[t] == c
    }

    /** After the last packet of a push: the mapping is forgotten. */
    method FinishPop(ghost s: Stream, ghost tx: SubTx, ghost q0: seq<SubSkb>, ghost own0: seq<nat>,
                     ghost copied0: int, ghost n: nat)
      requires TxHonest(s, tx) && AtPacket(tx, q0, own0, copied0, cur, n, false)
      requires PendingFrom(tx, copied0, MetaReceive.Lowest(s))
      modifies this`mapPresent, this`mapDataSeq, this`mapSubseq, this`mapDataLen, this`mapDataFin
      ensures Ok(s, tx) && !mapPresent && PushedOff(tx, q0, cur) && |queue| < |q0| && n == |q0| - |queue|
      ensures SomeOf(owner, own0) && OwnersOff(q0, own0, cur)
      ensures cur < |tx.maps| && copiedSeq == tx.maps[cur].SubEnd()
    {
      hide *;
      Popped(tx, q0, own0, copied0, cur, n, MetaReceive.Lowest(s));
      PoppedParts(tx, q0, own0, copied0, cur, n);
      ResetMapping();
      NothingPresent(s, tx);
    }

    lemma PoppedParts(tx: SubTx, q0: seq<SubSkb>, own0: seq<nat>, copied0: int, c: nat, n: nat)
      requires AtPacket(tx, q0, own0, copied0, c, n, false) && c < |tx.maps| && copiedSeq == tx.maps[c].SubEnd()
      ensures |queue| < |q0| && n == |q0| - |queue| && PushedOff(tx, q0, c) && OwnersOff(q0, own0, c)
      ensures SomeOf(owner, own0)
    {
      hide Tiles, Front, InOrder, PktHonest;
    }

    lemma NothingPresent(s: Stream, tx: SubTx)
      requires TxHonest(s, tx) && RxOk(tx, queue, owner, copiedSeq, rcvNxt) && !mapPresent
      requires PendingFrom(tx, copiedSeq, MetaReceive.Lowest(s))
      ensures Ok(s, tx)
    {
    }

    /** A mapping that is old or out of window: its packets are dropped. */
    method DropMapping(ghost s: Stream, ghost tx: SubTx)
      requires Ok(s, tx) && mapPresent && tx.maps[cur].SubEnd() <= rcvNxt
      modifies this`queue, this`owner, this`copiedSeq, this`mapPresent, this`mapDataSeq, this`mapSubseq,
               this`mapDataLen, this`mapDataFin
      ensures Ok(s, tx) && !mapPresent && PushedOff(tx, old(queue), old(cur)) && |queue| < |old(queue)|
      ensures SomeOf(owner, old(owner)) && OwnersOff(old(queue), old(owner), old(cur))
    {
      hide *;
      ghost var q0, own0, copied0, n := queue, owner, copiedSeq, 0;
      BeginPop(s, tx);
      var more := true;
      while more
        invariant n <= |q0| && AtPacket(tx, q0, own0, copied0, cur, n, more)
        decreases |q0| - n, more
      {
        var k;
        k, more := PopHead(tx, q0, own0, copied0, cur, n);
        n := n + 1;
      }
      FinishPop(s, tx, q0, own0, copied0, n);
    }

    /** The segment made of a packet of the current mapping, once the mapping was accepted. */
    static lemma SegmentHonest(s: Stream, tx: SubTx, c: nat, k: SubSkb, near: int, mapDataSeq: int, id: nat)
      requires TxHonest(s, tx) && PktHonest(tx, k, c)
      requires Low64(mapDataSeq) == Low64(tx.maps[c].dataSeq)
      requires MetaReceive.Lowest(s) <= tx.maps[c].dataSeq && MetaReceive.Lowest(s) <= near <= s.End()
      ensures var m := tx.maps[c];
              var seg := Prepare(near, mapDataSeq, m.subSeq, m.len, m.fin, k, id);
              && Honest(s, seg) && seg.id == id && MetaReceive.Lowest(s) <= seg.start && IsSegment(m, k, seg)
              && seg.start == DataOf(m, k.seqNo) && DataOf(m, k.End()) <= seg.End() <= m.DataEnd()
              && (k.End() == m.SubEnd() ==> seg.End() == m.DataEnd())
    {
      var m := tx.maps[c];
      assert MapHonest(s, tx, m);
      PrepareExact(near, mapDataSeq, m, k, id);
      TranslatedHonest(s, tx, m, k, id);
    }

    /** The mapping fields carry the true number of mapping `c`. */
    ghost predicate TrueFields(tx: SubTx, c: nat)
      reads this
    {
      && c < |tx.maps|
      && mapSubseq == tx.maps[c].subSeq && mapDataLen == tx.maps[c].len && mapDataFin == tx.maps[c].fin
      && Low64(mapDataSeq) == Low64(tx.maps[c].dataSeq)
    }

    /** One packet of a mapping beyond `rcvNxt`: unlink, translate, queue out of order. */
    method OneToOfoQueue(meta: MetaReceive, ti: nat, coalesce: nat -> bool, ghost s: Stream, ghost tx: SubTx,
                         ghost q0: seq<SubSkb>, ghost own0: seq<nat>, ghost copied0: int, ghost c: nat, ghost n: nat)
      returns (more: bool, ghost seg: Skb)
      requires TxHonest(s, tx) && TrueFields(tx, c) && AtPacket(tx, q0, own0, copied0, c, n, true)
      requires meta.Safe(s) && ti < |meta.shortcuts| && MetaReceive.Lowest(s) <= tx.maps[c].dataSeq
      modifies this`queue, this`owner, this`copiedSeq, meta`ofo, meta`shortcuts, meta`nextId
      ensures n < |q0| && AtPacket(tx, q0, own0, copied0, c, n + 1, more) && TrueFields(tx, c)
      ensures meta.Safe(s) && |meta.shortcuts| == |old(meta.shortcuts)|
      ensures IsSegment(tx.maps[c], q0[n], seg) && MetaReceive.Queued(old(meta.ofo), meta.ofo, seg)
    {
      var k;
      k, more := PopHead(tx, q0, own0, copied0, c, n);
      assert PktHonest(tx, k, c);
      SegmentHonest(s, tx, c, k, meta.rcvNxt, mapDataSeq, meta.nextId);
      var skb := Prepare(meta.rcvNxt, mapDataSeq, mapSubseq, mapDataLen, mapDataFin, k, meta.nextId);
      seg := skb;
      ghost var o := meta.AddMetaOfoQueue(ti, skb, coalesce(meta.nextId), s);
    }

    /** A mapping that starts beyond `rcvNxt`: its packets go to the out-of-order queue. */
    method ToOfoQueue(meta: MetaReceive, ti: nat, coalesce: nat -> bool, ghost s: Stream, ghost tx: SubTx)
      requires Ok(s, tx) && mapPresent && tx.maps[cur].SubEnd() <= rcvNxt && TrueFields(tx, cur)
      requires meta.Safe(s) && ti < |meta.shortcuts| && MetaReceive.Lowest(s) <= tx.maps[cur].dataSeq
      modifies this`queue, this`owner, this`copiedSeq, this`mapPresent, this`mapDataSeq, this`mapSubseq,
               this`mapDataLen, this`mapDataFin, meta`ofo, meta`shortcuts, meta`nextId
      ensures Ok(s, tx) && !mapPresent && PushedOff(tx, old(queue), old(cur)) && |queue| < |old(queue)|
      ensures SomeOf(owner, old(owner))
      ensures meta.Safe(s) && |meta.shortcuts| == |old(meta.shortcuts)|
      ensures AllQueued(tx.maps[old(cur)], old(queue)[..|old(queue)| - |queue|], old(meta.ofo), meta.ofo)
      ensures OwnersOff(old(queue), old(owner), old(cur))
    {
      hide *;
      ghost var q0, own0, copied0, n := queue, owner, copiedSeq, 0;
      BeginPop(s, tx);
      NoneQueued(tx.maps[cur], meta.ofo);
      var more := true;
      while more
        invariant n <= |q0| && AtPacket(tx, q0, own0, copied0, cur, n, more) && TrueFields(tx, cur)
        invariant meta.Safe(s) && |meta.shortcuts| == |old(meta.shortcuts)|
        invariant AllQueued(tx.maps[cur], q0[..n], old(meta.ofo), meta.ofo)
        decreases |q0| - n, more
      {
        ghost var mid := meta.ofo;
        ghost var seg;
        more, seg := OneToOfoQueue(meta, ti, coalesce, s, tx, q0, own0, copied0, cur, n);
        QueuedOneMore(tx.maps[cur], q0, n, old(meta.ofo), mid, seg, meta.ofo);
        n := n + 1;
      }
      FinishPop(s, tx, q0, own0, copied0, n);
    }

    /** One packet of a mapping that starts by `rcvNxt`: unlink, translate, queue for the application. */
    method OneToReceiveQueue(meta: MetaReceive, coalesce: nat -> bool, ghost s: Stream, ghost tx: SubTx,
                             ghost q0: seq<SubSkb>, ghost own0: seq<nat>, ghost copied0: int, ghost c: nat,
                             ghost n: nat)
      returns (more: bool, queued: bool)
      requires TxHonest(s, tx) && TrueFields(tx, c) && AtPacket(tx, q0, own0, copied0, c, n, true)
      requires meta.Safe(s) && MetaReceive.Lowest(s) <= tx.maps[c].dataSeq
      requires DataOf(tx.maps[c], copiedSeq) <= meta.rcvNxt
      modifies this`queue, this`owner, this`copiedSeq, meta`rcvNxt, meta`ofo, meta`rcvQueue, meta`shortcuts,
               meta`nextId, meta.words
      ensures n < |q0| && AtPacket(tx, q0, own0, copied0, c, n + 1, more) && TrueFields(tx, c)
      ensures meta.Safe(s) && |meta.shortcuts| == |old(meta.shortcuts)| && old(meta.rcvNxt) <= meta.rcvNxt
      ensures DataOf(tx.maps[c], copiedSeq) <= meta.rcvNxt
      ensures copiedSeq == tx.maps[c].SubEnd() ==> tx.maps[c].DataEnd() <= meta.rcvNxt
      ensures queued <==> old(meta.rcvNxt) < meta.rcvNxt
      ensures KeptShort(tx.maps[c], old(meta.ofo), old(meta.rcvNxt), meta.ofo, meta.rcvNxt)
    {
      var k;
      k, more := PopHead(tx, q0, own0, copied0, c, n);
      StartsByFront(q0, copied0, n);
      assert PktHonest(tx, k, c);
      SegmentHonest(s, tx, c, k, meta.rcvNxt, mapDataSeq, meta.nextId);
      var seg := Prepare(meta.rcvNxt, mapDataSeq, mapSubseq, mapDataLen, mapDataFin, k, meta.nextId);
      DrainNothing(seg.End());
      queued := meta.PushInOrder(seg, coalesce(meta.nextId), s);
    }

    static lemma DrainNothing(nxt: int)
      ensures Drain([], nxt).rest == [] && Drain([], nxt).nxt == nxt
    {
    }

    static lemma ShortStep(m: Mapping, ofo0: seq<Skb>, nxt0: int, ofo: seq<Skb>, nxt: int, ofo': seq<Skb>, nxt': int)
      requires KeptShort(m, ofo0, nxt0, ofo, nxt) && KeptShort(m, ofo, nxt, ofo', nxt') && nxt0 <= nxt
      ensures KeptShort(m, ofo0, nxt0, ofo', nxt')
    {
    }

    static lemma NotDueIsShort(m: Mapping, ofo0: seq<Skb>, nxt0: int, ofo: seq<Skb>, nxt: int)
      ensures nxt0 < m.dataSeq ==> KeptShort(m, ofo0, nxt0, ofo, nxt)
    {
    }

    static lemma ShortStart(m: Mapping, ofo: seq<Skb>, nxt: int)
      ensures KeptShort(m, ofo, nxt, ofo, nxt)
    {
    }

    /**
     A mapping that starts at or before `rcvNxt`: its packets go to the receive queue, without a gap, and
     afterwards everything the mapping brought has been received.
     */
    method ToReceiveQueue(meta: MetaReceive, coalesce: nat -> bool, ghost s: Stream, ghost tx: SubTx)
      returns (queued: bool)
      requires Ok(s, tx) && mapPresent && tx.maps[cur].SubEnd() <= rcvNxt && TrueFields(tx, cur)
      requires meta.Safe(s) && MetaReceive.Lowest(s) <= tx.maps[cur].dataSeq <= meta.rcvNxt
      modifies this`queue, this`owner, this`copiedSeq, this`mapPresent, this`mapDataSeq, this`mapSubseq,
               this`mapDataLen, this`mapDataFin, meta`rcvNxt, meta`ofo, meta`rcvQueue, meta`shortcuts, meta`nextId,
               meta.words
      ensures Ok(s, tx) && !mapPresent && PushedOff(tx, old(queue), old(cur)) && |queue| < |old(queue)|
      ensures SomeOf(owner, old(owner))
      ensures meta.Safe(s) && |meta.shortcuts| == |old(meta.shortcuts)|
      ensures cur == old(cur) && old(meta.rcvNxt) <= meta.rcvNxt
      ensures tx.maps[cur].DataEnd() <= meta.rcvNxt
      ensures OwnersOff(old(queue), old(owner), old(cur))
      ensures queued <==> old(meta.rcvNxt) < meta.rcvNxt
      ensures KeptShort(tx.maps[old(cur)], old(meta.ofo), old(meta.rcvNxt), meta.ofo, meta.rcvNxt)
    {
      hide *;
      ghost var q0, own0, copied0, n := queue, owner, copiedSeq, 0;
      BeginPop(s, tx);
      ShortStart(tx.maps[cur], meta.ofo, meta.rcvNxt);
      var more := true;
      queued := false;
      while more
        invariant n <= |q0| && AtPacket(tx, q0, own0, copied0, cur, n, more) && TrueFields(tx, cur)
        invariant meta.Safe(s) && |meta.shortcuts| == |old(meta.shortcuts)| && old(meta.rcvNxt) <= meta.rcvNxt
        invariant DataOf(tx.maps[cur], copiedSeq) <= meta.rcvNxt
        invariant n > 0 && copiedSeq == tx.maps[cur].SubEnd() ==> tx.maps[cur].DataEnd() <= meta.rcvNxt
        invariant queued <==> old(meta.rcvNxt) < meta.rcvNxt
        invariant KeptShort(tx.maps[cur], old(meta.ofo), old(meta.rcvNxt), meta.ofo, meta.rcvNxt)
        decreases |q0| - n, more
      {
        var q;
        ghost var ofo, nxt := meta.ofo, meta.rcvNxt;
        more, q := OneToReceiveQueue(meta, coalesce, s, tx, q0, own0, copied0, cur, n);
        ShortStep(tx.maps[cur], old(meta.ofo), old(meta.rcvNxt), ofo, nxt, meta.ofo, meta.rcvNxt);
        queued := queued || q;
        n := n + 1;
      }
      AtEnd(tx, q0, own0, copied0, n);
      FinishPop(s, tx, q0, own0, copied0, n);
    }

    lemma AtEnd(tx: SubTx, q0: seq<SubSkb>, own0: seq<nat>, copied0: int, n: nat)
      requires AtPacket(tx, q0, own0, copied0, cur, n, false)
      ensures n > 0
    {
    }

    static lemma StartsByFront(q: seq<SubSkb>, copied: int, n: nat)
      requires InOrder(q, copied) && n < |q|
      ensures q[n].seqNo <= Front(q, copied, n) && Front(q, copied, n + 1) == q[n].End()
    {
    }

    /** What the two window checks and the choice of branch come to, on true numbers. */
    lemma PushDecision(meta: MetaReceive, s: Stream, tx: SubTx)
      requires Ok(s, tx) && mapPresent && meta.Safe(s)
      requires |meta.words.high| == 2 && meta.words.index < 2
      requires InSequence(meta.words.high, meta.words.index, meta.rcvNxt, meta.rcvWup, meta.ReceiveWindow(),
                          mapDataSeq, mapDataSeq + mapDataLen + FinLen(mapDataFin))
      ensures cur < |tx.maps|
      ensures var m := tx.maps[cur];
              var now := DataSeq64(meta.words.high, meta.words.index, meta.rcvNxt);
              && MetaReceive.Lowest(s) <= m.dataSeq
              && TrueFields(tx, cur) && (Before64(now, mapDataSeq) <==> meta.rcvNxt < m.dataSeq)
    {
      hide Ok, InSequence, Before64, DataSeq64, Low64, Decoded, RcvTracks, TrueFields, Holds;
      CurrentMapping(s, tx);
      SafeCounter(meta, s);
      var m := tx.maps[cur];
      var end := mapDataSeq + mapDataLen + FinLen(mapDataFin);
      AcceptedDecision(meta.words.high, meta.words.index, meta.rcvNxt, meta.rcvWup, meta.ReceiveWindow(),
                       mapDataSeq, m.dataSeq, m.DataLen());
      assert end == mapDataSeq + m.DataLen();
      AcceptedFields(tx);
    }

    lemma AcceptedFields(tx: SubTx)
      requires cur < |tx.maps| && Holds(tx.maps[cur])
      ensures Low64(mapDataSeq) == Low64(tx.maps[cur].dataSeq) ==> TrueFields(tx, cur)
    {
    }

    static lemma AcceptedDecision(high: seq<int>, index: nat, rcvNxt: int, rcvWup: int, window: nat,
                                  mapDataSeq: int, dataSeq: int, len: nat)
      requires RcvTracks(high, index, rcvNxt) && rcvWup <= rcvNxt < rcvWup + TWO_32
      requires Near(dataSeq, rcvNxt) && window < TWO_31 && len < TWO_31
      requires 0 <= mapDataSeq < TWO_64 && Decoded(mapDataSeq, dataSeq)
      requires InSequence(high, index, rcvNxt, rcvWup, window, mapDataSeq, mapDataSeq + len)
      ensures Low64(mapDataSeq) == Low64(dataSeq)
      ensures Before64(DataSeq64(high, index, rcvNxt), mapDataSeq) <==> rcvNxt < dataSeq
    {
      hide InSequence, Before64, DataSeq64, High32, Low64, Decoded;
      AcceptedIsTrue(high, index, rcvNxt, rcvWup, window, mapDataSeq, dataSeq, len);
      CurrentIsCounter(high, index, rcvNxt);
      Low64Idempotent(rcvNxt);
      Before64OnForms(rcvNxt, dataSeq, DataSeq64(high, index, rcvNxt), mapDataSeq);
    }

    /** The mapping at the head of an honest subflow's queue. */
    lemma CurrentMapping(s: Stream, tx: SubTx)
      requires Ok(s, tx) && mapPresent
      ensures cur < |tx.maps| && Holds(tx.maps[cur])
      ensures 0 <= mapDataSeq < TWO_64 && Decoded(mapDataSeq, tx.maps[cur].dataSeq)
      ensures mapDataLen + FinLen(mapDataFin) == tx.maps[cur].DataLen() < TWO_31
      ensures MetaReceive.Lowest(s) <= tx.maps[cur].dataSeq <= s.End()
    {
      OwnerPending(tx, queue, owner, copiedSeq, rcvNxt, 0);
      assert MapHonest(s, tx, tx.maps[cur]);
    }

    /** The present mapping was decoded to its true number, ends beyond `rcvNxt` and starts by the right window edge. */
    ghost predicate Acceptable(tx: SubTx, meta: MetaReceive)
      reads this, meta
    {
      && cur < |tx.maps| && Low64(mapDataSeq) == Low64(tx.maps[cur].dataSeq)
      && meta.rcvNxt < tx.maps[cur].DataEnd()
      && (tx.maps[cur].dataSeq <= meta.rcvNxt || tx.maps[cur].dataSeq <= meta.rcvWup + meta.rcvWnd)
    }

    /**
     The two checks before a push let through exactly the acceptable mappings: decoded to their true number, ending
     beyond `rcvNxt`, and starting by it or within the window advertised last.
     */
    lemma AcceptedIff(meta: MetaReceive, s: Stream, tx: SubTx)
      requires Ok(s, tx) && mapPresent && meta.Safe(s)
      requires |meta.words.high| == 2 && meta.words.index < 2
      ensures cur < |tx.maps|
      ensures Acceptable(tx, meta) <==>
                && Low64(mapDataSeq) == Low64(tx.maps[cur].dataSeq) && meta.rcvNxt < tx.maps[cur].DataEnd()
                && (tx.maps[cur].dataSeq <= meta.rcvNxt || tx.maps[cur].dataSeq <= meta.rcvWup + meta.rcvWnd)
      ensures var now := DataSeq64(meta.words.high, meta.words.index, meta.rcvNxt);
              var end := mapDataSeq + mapDataLen + FinLen(mapDataFin);
              Acceptable(tx, meta) <==>
              (Before64(now, end)
               && InSequence(meta.words.high, meta.words.index, meta.rcvNxt, meta.rcvWup, meta.ReceiveWindow(),
                             mapDataSeq, end))
    {
      hide Ok, InSequence, Before64, DataSeq64, RcvTracks, Holds, Low64, Decoded;
      CurrentMapping(s, tx);
      SafeCounter(meta, s);
      meta.ByTheEdge(tx.maps[cur].dataSeq);
      var m := tx.maps[cur];
      var now := DataSeq64(meta.words.high, meta.words.index, meta.rcvNxt);
      if InSequence(meta.words.high, meta.words.index, meta.rcvNxt, meta.rcvWup, meta.ReceiveWindow(),
                    mapDataSeq, mapDataSeq + m.DataLen()) {
        AcceptedIsTrue(meta.words.high, meta.words.index, meta.rcvNxt, meta.rcvWup, meta.ReceiveWindow(),
                       mapDataSeq, m.dataSeq, m.DataLen());
      }
      if Low64(mapDataSeq) == Low64(m.dataSeq) {
        Low64OfWord(mapDataSeq);
        CurrentIsCounter(meta.words.high, meta.words.index, meta.rcvNxt);
        Low64Idempotent(meta.rcvNxt);
        Low64Plus(mapDataSeq, m.dataSeq, m.DataLen());
        Before64OnForms(meta.rcvNxt, m.DataEnd(), now, mapDataSeq + m.DataLen());
        InSequenceOnForms(meta.words.high, meta.words.index, meta.rcvNxt, meta.rcvWup, meta.ReceiveWindow(),
                          m.dataSeq, m.DataLen());
      }
    }

    /** Right after a window was advertised, the checks let in what starts within it, to the last number. */
    lemma JustAdvertised(meta: MetaReceive, s: Stream, tx: SubTx, window: nat)
      requires Ok(s, tx) && mapPresent && meta.Safe(s) && meta.rcvWup == meta.rcvNxt && meta.rcvWnd == window
      requires |meta.words.high| == 2 && meta.words.index < 2
      requires cur < |tx.maps| && Low64(mapDataSeq) == Low64(tx.maps[cur].dataSeq)
      ensures var now := DataSeq64(meta.words.high, meta.words.index, meta.rcvNxt);
              var end := mapDataSeq + mapDataLen + FinLen(mapDataFin);
              (Before64(now, end)
               && InSequence(meta.words.high, meta.words.index, meta.rcvNxt, meta.rcvWup, meta.ReceiveWindow(),
                             mapDataSeq, end))
              <==> meta.rcvNxt < tx.maps[cur].DataEnd() && tx.maps[cur].dataSeq <= meta.rcvNxt + window
    {
      hide *;
      AcceptedIff(meta, s, tx);
    }

    static lemma Low64OfWord(x: int)
      requires 0 <= x < TWO_64
      ensures Low64(x) == x
    {
    }

    static lemma Low64Plus(a: int, b: int, d: int)
      requires Low64(a) == Low64(b)
      ensures Low64(a + d) == Low64(b + d)
    {
    }

    /**
     `mptcp_queue_skb`: once the whole mapping has arrived, push it up or drop it.  Returns 0 if it has not,
     -1 or -2 if it was handled; its packets are then off the queue.  An acceptable mapping has been received to
     its end if it was due, and its packets have been queued out of order if it was not, which alone returns -2; any
     other is dropped.
     */
    method QueueSkb(meta: MetaReceive, ti: nat, coalesce: nat -> bool, ghost s: Stream, ghost tx: SubTx)
      returns (ret: int)
      requires Ok(s, tx) && meta.Safe(s) && ti < |meta.shortcuts|
      modifies this`queue, this`owner, this`copiedSeq, this`mapPresent, this`mapDataSeq, this`mapSubseq,
               this`mapDataLen, this`mapDataFin, meta`rcvNxt, meta`ofo, meta`rcvQueue, meta`shortcuts, meta`nextId,
               meta.words
      ensures Ok(s, tx) && meta.Safe(s) && |meta.shortcuts| == |old(meta.shortcuts)|
      ensures old(meta.rcvNxt) <= meta.rcvNxt
      ensures ret == 0 ==>
                queue == old(queue) && owner == old(owner) && mapPresent == old(mapPresent) && cur == old(cur)
      ensures ret == 0 ==> unchanged(this) && unchanged(meta)
      ensures SomeOf(owner, old(owner))
      ensures ret == 0 && mapPresent ==> cur < |tx.maps| && rcvNxt < tx.maps[cur].SubEnd()
      ensures ret != 0 ==> !mapPresent && |queue| < |old(queue)|
      ensures ret == 0 <==> !old(mapPresent) || old(Incomplete(tx))
      ensures ret != 0 ==> PushedOff(tx, old(queue), old(cur)) && OwnersOff(old(queue), old(owner), old(cur))
      ensures ret != 0 ==>
                && old(cur) < |tx.maps|
                && (old(Acceptable(tx, meta)) <==>
                      && Low64(old(mapDataSeq)) == Low64(tx.maps[old(cur)].dataSeq)
                      && old(meta.rcvNxt) < tx.maps[old(cur)].DataEnd()
                      && (tx.maps[old(cur)].dataSeq <= old(meta.rcvNxt)
                          || tx.maps[old(cur)].dataSeq <= old(meta.rcvWup) + old(meta.rcvWnd)))
      ensures ret == -1 ==> KeptShort(tx.maps[old(cur)], old(meta.ofo), old(meta.rcvNxt), meta.ofo, meta.rcvNxt)
      ensures ret == 0 || ret == -1 || ret == -2
      ensures ret == -2 <==>
                ret != 0 && old(Acceptable(tx, meta)) && old(meta.rcvNxt) < tx.maps[old(cur)].dataSeq
      ensures ret != 0 && old(Acceptable(tx, meta)) && tx.maps[old(cur)].dataSeq <= old(meta.rcvNxt) ==>
                tx.maps[old(cur)].DataEnd() <= meta.rcvNxt
      ensures ret != 0 && old(Acceptable(tx, meta)) && old(meta.rcvNxt) < tx.maps[old(cur)].dataSeq ==>
                && AllQueued(tx.maps[old(cur)], old(queue)[..|old(queue)| - |queue|], old(meta.ofo), meta.ofo)
                && meta.rcvNxt == old(meta.rcvNxt) && meta.rcvQueue == old(meta.rcvQueue)
      ensures ret != 0 && !old(Acceptable(tx, meta)) ==>
                meta.rcvNxt == old(meta.rcvNxt) && meta.rcvQueue == old(meta.rcvQueue) && meta.ofo == old(meta.ofo)
    {
      hide *;
      SuffixOwners(owner, 0);
      if !mapPresent {
        return 0;
      }
      CompletionTest(s, tx);
      IncompleteMeans(tx);
      if Before(rcvNxt, mapSubseq + mapDataLen) {
        return 0;
      }
      SafeCounter(meta, s);
      AcceptedIff(meta, s, tx);
      var now := DataSeq64(meta.words.high, meta.words.index, meta.rcvNxt);
      var end := mapDataSeq + mapDataLen + FinLen(mapDataFin);
      if !Before64(now, end)
         || !InSequence(meta.words.high, meta.words.index, meta.rcvNxt, meta.rcvWup, meta.ReceiveWindow(),
                         mapDataSeq, end) {
        ShortStart(tx.maps[cur], meta.ofo, meta.rcvNxt);
        DropMapping(s, tx);
        return -1;
      }
      PushDecision(meta, s, tx);
      if Before64(now, mapDataSeq) {
        ToOfoQueue(meta, ti, coalesce, s, tx);
        ret := -2;
      } else {
        var queued := ToReceiveQueue(meta, coalesce, s, tx);
        ret := if queued then -1 else -2;
      }
    }

    /** The 32-bit completeness test compares numbers close enough to be decided. */
    lemma CompletionTest(s: Stream, tx: SubTx)
      requires Ok(s, tx) && mapPresent
      ensures cur < |tx.maps| && mapSubseq + mapDataLen == tx.maps[cur].SubEnd()
      ensures Near(rcvNxt, tx.maps[cur].SubEnd())
    {
      assert MapHonest(s, tx, tx.maps[cur]);
      QueueSpan(tx, queue, owner, copiedSeq, rcvNxt, 0);
      HeadAtMapStart(tx, queue, owner, copiedSeq, rcvNxt);
    }

    // ---------------------------------------------------------- walking the queue

    /** Where the walk over the queue can stand: every earlier packet lacks an option, or shares the mapping. */
    ghost predicate WalkOk(i: nat)
      reads this
    {
      && i <= |queue| && |owner| == |queue|
      && (mapPresent ==> forall t :: 0 <= t <= i < |queue| ==> owner[t] == cur)
      && (!mapPresent ==> forall t :: 0 <= t < i ==> queue[t].dss.None?)
    }

    /** An honest packet's option agrees with the mapping of its own that is present, unless that one is flagged. */
    lemma HonestMatches(tx: SubTx, k: SubSkb, c: nat)
      requires PktHonest(tx, k, c) && Holds(tx.maps[c]) && k.dss.Some? && tx.maps[c].DataLen() > 0
      ensures MatchesDss(k) <==> !Flagged(mapDataSeq, tx.maps[c].dataSeq)
    {
      var m := tx.maps[c];
      FlaggedLowWord(mapDataSeq, m.dataSeq);
      SameSeqIsLow(m.dataSeq, mapDataSeq);
      hide Flagged, Decoded;
    }

    static lemma SameSeqIsLow(a: int, b: int)
      ensures SameSeq(a, b) <==> Low32(a) == Low32(b)
    {
      if Low32(a) == Low32(b) {
        BeforeSeesLowWords(a, b, b, b);
      }
      if SameSeq(a, b) {
        LowEqual(a, b, (a - b) / TWO_32);
      }
    }

    /** An honest packet lies inside the mapping that its option names. */
    static lemma HonestMeets(tx: SubTx, k: SubSkb, c: nat)
      requires PktHonest(tx, k, c) && k.dss.Some? && 0 < tx.maps[c].DataLen() <= MAX_MAPPING
      ensures CloseToPacket(k) && MeetsPacket(k)
    {
    }

    /** What of the subflow the walk over its queue changes. */
    ghost function Here(): Standing
      reads this`queue, this`owner, this`mapPresent, this`cur, this`mapDataSeq
    {
      Standing(queue, owner, mapPresent, cur, mapDataSeq)
    }

    lemma HereIs()
      ensures Here() == Standing(queue, owner, mapPresent, cur, mapDataSeq)
    {
    }

    /** What a mapping's data number is stored as. */
    static function FromWire(high: seq<int>, index: nat, metaRcvNxt: int, d: Dss): int
      requires |high| == 2 && index < 2
    {
      if d.seq64 then Decode64(high, d.dataSeq) else Decode32(high, index, metaRcvNxt, d.dataSeq)
    }

    static lemma DecodedFromWire(high: seq<int>, index: nat, metaRcvNxt: int, d: Dss)
      requires RcvTracks(high, index, metaRcvNxt) && Near(d.dataSeq, metaRcvNxt)
      ensures Decoded(FromWire(high, index, metaRcvNxt, d), d.dataSeq)
      ensures 0 <= FromWire(high, index, metaRcvNxt, d) < TWO_64
      ensures Low64(FromWire(high, index, metaRcvNxt, d)) == Low64(d.dataSeq) <==> Epoch(metaRcvNxt) <= Epoch(d.dataSeq)
      ensures Flagged(FromWire(high, index, metaRcvNxt, d), d.dataSeq) <==>
              d.seq64 && Get64Bit(high, d.dataSeq) == NotInArray
    {
      var n := d.dataSeq;
      OutsideNear(high, index, metaRcvNxt, n);
      if !d.seq64 {
        NextBlockDiffers(n);
        Decode32Exact(high, index, metaRcvNxt, n);
        Low64Idempotent(n);
        Low64Idempotent(n + TWO_32);
      } else if Get64Bit(high, n) == NotInArray {
        OutsideDecode(high, index, metaRcvNxt, n);
        OutsideChanges(index, metaRcvNxt, n);
        Low64Idempotent(OutsideNumber(index, metaRcvNxt, n));
      } else {
        Decode64Exact(high, index, metaRcvNxt, n);
        InArrayKeeps(high, n);
        Low64Idempotent(n);
      }
      hide Decode32, Decode64, Get64Bit, RcvTracks, Low64, OutsideNumber;
      NotFlagged(FromWire(high, index, metaRcvNxt, d), n);
    }

    static lemma NextBlockDiffers(n: int)
      ensures Low64(n + TWO_32) != Low64(n)
    {
    }

    static lemma InArrayKeeps(high: seq<int>, n: int)
      requires |high| == 2 && Get64Bit(high, n) != NotInArray
      ensures Decode64(high, n) == Low64(n)
    {
      EpochSplit(n);
    }

    /** A number that kept its low word is not flagged. */
    static lemma NotFlagged(mapDataSeq: int, n: int)
      ensures Low64(mapDataSeq) == Low64(n) || Low64(mapDataSeq) == Low64(n + TWO_32) ==> !Flagged(mapDataSeq, n)
    {
      if Low64(mapDataSeq) == Low64(n) || Low64(mapDataSeq) == Low64(n + TWO_32) {
        FlaggedLowWord(mapDataSeq, n);
        SameLow32(mapDataSeq, if Low64(mapDataSeq) == Low64(n) then n else n + TWO_32);
        LowEqual(n + TWO_32, n, 1);
      }
    }

    /** The fields right after detection hold the packet's own mapping. */
    lemma DetectedHolds(tx: SubTx, k: SubSkb, c: nat, high: seq<int>, index: nat, metaRcvNxt: int)
      requires PktHonest(tx, k, c) && k.dss.Some? && RcvTracks(high, index, metaRcvNxt)
      requires Near(tx.maps[c].dataSeq, metaRcvNxt) && tx.maps[c].DataLen() > 0
      requires var d := k.dss.value;
               && mapDataFin == d.fin && mapDataLen + FinLen(d.fin) == d.dataLen
               && mapSubseq == (if d.fin && k.cells == [] then k.seqNo else d.subSeq)
               && mapDataSeq == FromWire(high, index, metaRcvNxt, d)
      ensures Holds(tx.maps[c])
      ensures Low64(mapDataSeq) == Low64(tx.maps[c].dataSeq) <==> Epoch(metaRcvNxt) <= Epoch(tx.maps[c].dataSeq)
      ensures Flagged(mapDataSeq, tx.maps[c].dataSeq) <==>
              k.dss.value.seq64 && Get64Bit(high, k.dss.value.dataSeq) == NotInArray
    {
      hide Decoded, Flagged, FromWire, Get64Bit;
      DecodedFromWire(high, index, metaRcvNxt, k.dss.value);
    }

    /** Packets in front of packet `i`'s mapping form complete mappings; dropping them brings it to the head. */
    static lemma PurgedToMapping(tx: SubTx, q: seq<SubSkb>, owner: seq<nat>, copied: int, nxt: int, i: nat, n: nat)
      requires RxOk(tx, q, owner, copied, nxt) && Tiles(tx) && i < |q| && n <= |q|
      requires forall t :: 0 <= t < i && owner[t] < owner[i] ==> q[t].cells != []
      requires forall t :: 0 <= t < n ==> q[t].seqNo < tx.maps[owner[i]].subSeq
      requires n < |q| ==> tx.maps[owner[i]].subSeq <= q[n].seqNo
      ensures n <= i && owner[n] == owner[i]
      ensures RxOk(tx, q[n..], owner[n..], Front(q, copied, n), nxt)
      ensures copied <= Front(q, copied, n)
    {
      var c := owner[i];
      LaterOwner(tx, q, owner, copied, nxt, i, c);
      if n <= i {
        LaterOwner(tx, q, owner, copied, nxt, n, c);
        assert n < i ==> owner[n] <= owner[i];
      }
      if n > 0 {
        LaterOwner(tx, q, owner, copied, nxt, n - 1, c);
        DropComplete(tx, q, owner, copied, nxt, n);
        FrontMonotone(q, copied, 0, n);
      } else {
        assert q[0..] == q && owner[0..] == owner;
      }
    }

    static lemma HonestNoStraddle(tx: SubTx, q: seq<SubSkb>, owner: seq<nat>, copied: int, nxt: int, i: nat)
      requires RxOk(tx, q, owner, copied, nxt) && Tiles(tx) && i < |q|
      ensures owner[i] < |tx.maps| && NoStraddle(q, i, tx.maps[owner[i]].subSeq, tx.maps[owner[i]].SubEnd())
    {
      LaterOwner(tx, q, owner, copied, nxt, i, owner[i]);
      assert PktHonest(tx, q[0], owner[0]);
      assert i > 0 ==> owner[0] <= owner[i];
    }

    static lemma QueueSpread(tx: SubTx, q: seq<SubSkb>, owner: seq<nat>, copied: int, nxt: int, i: nat)
      requires RxOk(tx, q, owner, copied, nxt) && Tiles(tx) && i < |q| && tx.maps[owner[i]].len <= MAX_MAPPING
      ensures Spread(q, copied)
      ensures copied <= tx.maps[owner[i]].subSeq <= tx.maps[owner[i]].SubEnd() < copied + TWO_31
      ensures q[i].seqNo <= tx.maps[owner[i]].SubEnd()
    {
      forall t | 0 <= t < |q|
        ensures copied <= q[t].seqNo <= q[t].End() < copied + TWO_31
      {
        QueueSpan(tx, q, owner, copied, nxt, t);
      }
      QueueSpan(tx, q, owner, copied, nxt, i);
      LaterOwner(tx, q, owner, copied, nxt, i, owner[i]);
    }

    /** Everything an honest subflow keeps while its queue is walked. */
    ghost predicate Walking(s: Stream, tx: SubTx, i: nat)
      reads this
    {
      Ok(s, tx) && WalkOk(i)
    }

    /** The present mapping's 64-bit number was not in the array when it was stored. */
    ghost predicate OutsideArray(tx: SubTx)
      reads this`mapPresent, this`cur, this`mapDataSeq
    {
      mapPresent && cur < |tx.maps| && Flagged(mapDataSeq, tx.maps[cur].dataSeq)
    }

    ghost predicate TooMuchWithoutOption()
      reads this`mapPresent, this`rcvNxt, this`copiedSeq
    {
      !mapPresent && Low32(rcvNxt - copiedSeq) > 65536
    }

    /**
     Why an honest subflow is reset: too much without any option; or an option, other than the one at `seen`, that
     is compared with a mapping whose own number was changed.
     */
    ghost predicate ResetDue(tx: SubTx, seen: Option<nat>)
      reads this`queue, this`mapPresent, this`cur, this`mapDataSeq, this`rcvNxt, this`copiedSeq
    {
      || (queue != [] && TooMuchWithoutOption())
      || (OutsideArray(tx) && exists t :: 0 <= t < |queue| && queue[t].dss.Some? && seen != Some(t))
    }

    /** A pass that has looked at `i` packets and detected the present mapping, if at all, at `seen`. */
    ghost predicate PassOk(tx: SubTx, i: nat, seen: Option<nat>)
      reads this
    {
      && i <= |queue|
      && (seen.Some? ==> mapPresent && seen.value < i)
      && (OutsideArray(tx) ==> forall t :: 0 <= t < i && seen != Some(t) ==> queue[t].dss.None?)
      && (i > 0 ==> !TooMuchWithoutOption())
    }

    lemma PassStarts(tx: SubTx)
      ensures PassOk(tx, 0, None)
    {
    }

    /**
     Detection and validation of packet `i` of an honest subflow.  The complaints possible are that too much
     arrived without any option, and an option on a mapping that was outside the array; otherwise the queue starts
     with the packet's mapping afterwards, and at most whole mappings whose option never arrived have been dropped.
     */
    method DetectAndValidate(i: nat, high: seq<int>, index: nat, metaRcvNxt: int, ghost seen: Option<nat>,
                             ghost s: Stream, ghost tx: SubTx)
      returns (v: Verdict, i': nat, ghost seen': Option<nat>)
      requires Walking(s, tx, i) && PassOk(tx, i, seen) && i < |queue| && RcvTracks(high, index, metaRcvNxt)
      requires MetaReceive.Lowest(s) <= metaRcvNxt <= s.End() && TrueNumber(tx, Here(), metaRcvNxt)
      modifies this`queue, this`owner, this`copiedSeq, this`cur, this`mapPresent, this`mapDataSeq, this`mapSubseq,
               this`mapDataLen, this`mapDataFin
      ensures v == Go || v == NoDssInWindow || v == Mismatch
      ensures v != Go ==> Walking(s, tx, i) && ResetDue(tx, seen) && seen' == seen && queue == old(queue)
      ensures v == NoDssInWindow ==> TooMuchWithoutOption()
      ensures v == Mismatch ==> OutsideArray(tx)
      ensures v == Go ==> i' < |queue| && Walking(s, tx, i') && |queue| - i' == |old(queue)| - i && i' <= i
      ensures v == Go ==> PassOk(tx, i' + 1, seen')
      ensures v == Go && mapPresent ==> owner[i'] == cur
      ensures v == Go && !mapPresent ==> queue[i'].dss.None?
      ensures SomeOf(owner, old(owner))
      ensures v != Go ==> Here() == old(Here())
      ensures v == Go ==> Advanced(old(Here()), Here(), i, i') && TrueNumber(tx, Here(), metaRcvNxt)
      ensures v == Go && mapPresent && !old(mapPresent) ==> ReadNow(tx, Here(), metaRcvNxt)
    {
      hide *;
      i', seen' := i, seen;
      ghost var had, a := mapPresent, Here();
      HereIs();
      SuffixOwners(owner, 0);
      WalkFacts(s, tx, i);
      PassFacts(tx, i, seen);
      v := DetectHonest(i, high, index, metaRcvNxt, s, tx);
      HereIs();
      ghost var m := Here();
      if v != Go {
        ComplaintIsDue(tx, i, seen);
      } else if mapPresent {
        i', seen' := ValidateDetected(i, had, seen, s, tx);
        HereIs();
        SameNumber(tx, m, Here(), metaRcvNxt);
        SameReading(tx, m, Here(), metaRcvNxt);
        MakeAdvanced(a, Here(), i, i');
      } else {
        PassGoesOn(tx, i, seen);
        assert queue[0..] == queue;
        MakeAdvanced(a, m, i, i);
      }
      WalkFacts(s, tx, i');
    }

    /** Validation of packet `i` once its own mapping is present, `had` if that was so before. */
    method ValidateDetected(i: nat, ghost had: bool, ghost seen: Option<nat>, ghost s: Stream, ghost tx: SubTx)
      returns (i': nat, ghost seen': Option<nat>)
      requires TxHonest(s, tx) && RxOk(tx, queue, owner, copiedSeq, rcvNxt)
      requires PendingFrom(tx, copiedSeq, MetaReceive.Lowest(s))
      requires i < |queue| && mapPresent && cur == owner[i] && Holds(tx.maps[cur])
      requires forall t :: 0 <= t < i && owner[t] < cur ==> queue[t].cells != []
      requires had ==> owner[0] == cur && (seen.Some? ==> seen.value < i)
      requires had && OutsideArray(tx) ==> forall t :: 0 <= t <= i && seen != Some(t) ==> queue[t].dss.None?
      requires !had ==> forall t :: 0 <= t < i ==> queue[t].dss.None?
      modifies this`queue, this`owner, this`copiedSeq
      ensures i' < |queue| && |queue| - i' == |old(queue)| - i && i' <= i && (had ==> i' == i)
      ensures queue == old(queue)[i - i'..] && owner == old(owner)[i - i'..]
      ensures Walking(s, tx, i') && PassOk(tx, i' + 1, seen') && owner[i'] == cur
      ensures SomeOf(owner, old(owner))
    {
      hide *;
      ghost var q := queue;
      DetectedFacts(s, tx, i);
      i' := PurgeBefore(i, s, tx);
      WalkFacts(s, tx, i');
      SuffixOwners(old(owner), i - i');
      SuffixWhole(q);
      if had {
        seen' := seen;
        PassGoesOn(tx, i, seen);
      } else {
        seen' := Some(i');
        SuffixNone(q, i - i', i);
        PassDetects(tx, i');
      }
    }

    /** Everything in `a` is in `b`: no new owners come up. */
    static ghost predicate SomeOf(a: seq<nat>, b: seq<nat>) {
      forall t :: 0 <= t < |a| ==> a[t] in b
    }

    static lemma SomeOfSome(a: seq<nat>, b: seq<nat>, c: seq<nat>)
      requires SomeOf(a, b) && SomeOf(b, c)
      ensures SomeOf(a, c)
    {
    }

    static lemma SuffixOwners(own: seq<nat>, n: nat)
      requires n <= |own|
      ensures SomeOf(own[n..], own) && own[0..] == own
    {
    }

    static lemma SuffixWhole(q: seq<SubSkb>)
      ensures q[0..] == q
    {
    }

    static lemma SuffixNone(q: seq<SubSkb>, d: nat, i: nat)
      requires d <= i <= |q| && forall t :: 0 <= t < i ==> q[t].dss.None?
      ensures forall t :: 0 <= t < i - d ==> q[d..][t].dss.None?
    {
    }

    lemma WalkFacts(s: Stream, tx: SubTx, i: nat)
      requires Walking(s, tx, i)
      ensures i <= |queue| == |owner|
      ensures !mapPresent ==> forall t :: 0 <= t < i ==> queue[t].dss.None?
      ensures mapPresent ==> |owner| > 0 && owner[0] == cur && (i < |queue| ==> owner[i] == cur)
    {
    }

    /** What validation needs after detection. */
    lemma DetectedFacts(s: Stream, tx: SubTx, i: nat)
      requires TxHonest(s, tx) && RxOk(tx, queue, owner, copiedSeq, rcvNxt) && i < |queue|
      ensures |owner| == |queue|
    {
    }

    lemma PassFacts(tx: SubTx, i: nat, seen: Option<nat>)
      requires PassOk(tx, i, seen)
      ensures seen.Some? ==> mapPresent && seen.value < i
      ensures OutsideArray(tx) ==> forall t :: 0 <= t < i && seen != Some(t) ==> queue[t].dss.None?
    {
    }

    lemma ComplaintIsDue(tx: SubTx, i: nat, seen: Option<nat>)
      requires i < |queue| && (seen.Some? ==> seen.value < i)
      requires TooMuchWithoutOption() || (queue[i].dss.Some? && OutsideArray(tx))
      ensures ResetDue(tx, seen)
    {
    }

    lemma PassGoesOn(tx: SubTx, i: nat, seen: Option<nat>)
      requires i < |queue| && (mapPresent || !TooMuchWithoutOption()) && (seen.Some? ==> mapPresent && seen.value < i)
      requires OutsideArray(tx) ==> forall t :: 0 <= t <= i && seen != Some(t) ==> queue[t].dss.None?
      ensures PassOk(tx, i + 1, seen)
    {
    }

    lemma PassDetects(tx: SubTx, i: nat)
      requires i < |queue| && mapPresent && forall t :: 0 <= t < i ==> queue[t].dss.None?
      ensures PassOk(tx, i + 1, Some(i))
    {
    }

    /** `mptcp_detect_mapping` on an honest packet: afterwards a present mapping is the packet's own. */
    method DetectHonest(i: nat, high: seq<int>, index: nat, metaRcvNxt: int, ghost s: Stream, ghost tx: SubTx)
      returns (v: Verdict)
      requires Walking(s, tx, i) && i < |queue| && RcvTracks(high, index, metaRcvNxt)
      requires MetaReceive.Lowest(s) <= metaRcvNxt <= s.End() && TrueNumber(tx, Here(), metaRcvNxt)
      modifies this`cur, this`mapPresent, this`mapDataSeq, this`mapSubseq, this`mapDataLen, this`mapDataFin
      ensures v == Go || v == NoDssInWindow || v == Mismatch
      ensures v == NoDssInWindow <==> queue[i].dss.None? && old(TooMuchWithoutOption())
      ensures v == Mismatch <==> queue[i].dss.Some? && old(OutsideArray(tx))
      ensures TrueNumber(tx, Here(), metaRcvNxt)
      ensures v != Go || old(mapPresent) ==> Here() == old(Here())
      ensures v != Go || old(mapPresent) || queue[i].dss.None? ==>
                Walking(s, tx, i) && mapPresent == old(mapPresent) && OutsideArray(tx) == old(OutsideArray(tx))
      ensures v != Go || !mapPresent ==> TooMuchWithoutOption() == old(TooMuchWithoutOption())
      ensures v == Go && mapPresent ==> TxHonest(s, tx) && RxOk(tx, queue, owner, copiedSeq, rcvNxt)
      ensures v == Go && mapPresent ==> PendingFrom(tx, copiedSeq, MetaReceive.Lowest(s))
      ensures v == Go && !mapPresent ==> queue[i].dss.None?
      ensures v == Go && mapPresent ==> cur == owner[i] && Holds(tx.maps[cur])
      ensures v == Go && mapPresent ==> forall t :: 0 <= t < i && owner[t] < cur ==> queue[t].cells != []
      ensures v == Go && mapPresent && !old(mapPresent) ==>
                && queue[i].dss.Some? && ReadNow(tx, Here(), metaRcvNxt)
                && (OutsideArray(tx) <==>
                      queue[i].dss.value.seq64 && Get64Bit(high, queue[i].dss.value.dataSeq) == NotInArray)
    {
      hide FromWire, Decode32, Decode64, Get64Bit, Decoded, Flagged, MatchesDss, RxOk, TxHonest;
      var had := mapPresent;
      ghost var j := owner[i];
      HonestPacket(s, tx, i);
      if queue[i].dss.Some? {
        HonestMeets(tx, queue[i], j);
        if had {
          HonestMatches(tx, queue[i], j);
        }
      }
      v := DetectMapping(i, high, index, metaRcvNxt);
      if v == Go && mapPresent && !had {
        cur := owner[i];
        DetectedHolds(tx, queue[i], j, high, index, metaRcvNxt);
        OptionlessHaveBytes(tx, queue, owner, copiedSeq, rcvNxt, i);
      }
    }

    /** What detection needs of an honest packet. */
    lemma HonestPacket(s: Stream, tx: SubTx, i: nat)
      requires Ok(s, tx) && i < |queue|
      ensures |owner| == |queue| && PktHonest(tx, queue[i], owner[i]) && owner[i] < |tx.maps|
      ensures 0 < tx.maps[owner[i]].DataLen() <= MAX_MAPPING
      ensures MetaReceive.Lowest(s) <= tx.maps[owner[i]].dataSeq <= s.End()
      ensures queue[i].dss.Some? ==> queue[i].dss.value.dataLen > 0
    {
      assert MapHonest(s, tx, tx.maps[owner[i]]);
      OwnerPending(tx, queue, owner, copiedSeq, rcvNxt, i);
    }

    static lemma OptionlessHaveBytes(tx: SubTx, q: seq<SubSkb>, owner: seq<nat>, copied: int, nxt: int, i: nat)
      requires RxOk(tx, q, owner, copied, nxt) && i <= |q|
      requires forall t :: 0 <= t < i ==> q[t].dss.None?
      ensures forall t :: 0 <= t < i ==> q[t].cells != []
    {
      forall t | 0 <= t < i
        ensures q[t].cells != []
      {
        assert PktHonest(tx, q[t], owner[t]);
      }
    }

    /** `mptcp_validate_mapping` after detection, on an honest subflow. */
    method PurgeBefore(i: nat, ghost s: Stream, ghost tx: SubTx) returns (i': nat)
      requires TxHonest(s, tx) && RxOk(tx, queue, owner, copiedSeq, rcvNxt)
      requires PendingFrom(tx, copiedSeq, MetaReceive.Lowest(s))
      requires i < |queue| && mapPresent && cur == owner[i] && Holds(tx.maps[cur])
      requires forall t :: 0 <= t < i && owner[t] < cur ==> queue[t].cells != []
      modifies this`queue, this`owner, this`copiedSeq
      ensures i' < |queue| && i' <= i && queue == old(queue)[i - i'..] && owner == old(owner)[i - i'..]
      ensures Walking(s, tx, i') && owner[i'] == cur
      ensures old(owner)[0] == cur ==> i' == i
    {
      hide PktHonest, InOrder, Boundary, Pending, Tiles, Decoded, Walking, Spread, NoStraddle, Validated;
      ghost var q0, own0, copied0 := queue, owner, copiedSeq;
      HonestNoStraddle(tx, queue, owner, copiedSeq, rcvNxt, i);
      assert MapHonest(s, tx, tx.maps[cur]);
      QueueSpread(tx, queue, owner, copiedSeq, rcvNxt, i);
      var r := ValidateMapping(i, copiedSeq);
      WalkingAfterPurge(s, tx, q0, own0, copied0, i, i - r);
      HeadAtMapStart(tx, q0, own0, copied0, rcvNxt);
      i' := r;
    }

    lemma WalkingAfterPurge(s: Stream, tx: SubTx, q0: seq<SubSkb>, own0: seq<nat>, copied0: int, i: nat, n: int)
      requires TxHonest(s, tx) && RxOk(tx, q0, own0, copied0, rcvNxt)
      requires PendingFrom(tx, copied0, MetaReceive.Lowest(s))
      requires i < |q0| && mapPresent && cur == own0[i] && cur < |tx.maps| && Holds(tx.maps[cur])
      requires forall t :: 0 <= t < i && own0[t] < cur ==> q0[t].cells != []
      requires Dropped(q0, own0, copied0, n) && (queue == [] || mapSubseq <= queue[0].seqNo)
      ensures 0 <= n <= i && |queue| == |q0| - n && Walking(s, tx, i - n) && |owner| == |queue| && owner[i - n] == cur
    {
      hide PktHonest, MapHonest, InOrder, Boundary, Pending, Tiles, Decoded;
      assert n < |q0| ==> queue[0] == q0[n];
      PurgedToMapping(tx, q0, own0, copied0, rcvNxt, i, n);
      PendingShrinks(tx, copied0, copiedSeq, MetaReceive.Lowest(s));
      forall t | 0 <= t <= i - n
        ensures owner[t] == cur
      {
        assert owner[t] == own0[n + t];
        assert own0[n] <= own0[n + t] || t == 0;
        assert own0[n + t] <= own0[i] || n + t == i;
      }
    }

    /**
     `mptcp_data_ready`: walks the receive queue, starting over whenever a mapping was pushed up or the
     low-pass filter holds the data back (`hold` lists its answers until it lets go).  `seen` is where the present
     mapping was detected, if that was in the last pass.  An honest subflow is reset exactly when too much has
     arrived without any DSS option, or when an option is compared with a mapping whose 64-bit number was outside the
     array; the meta socket stays safe.  Otherwise everything that could be handed on has been: the walk ends with
     nothing ready, and each mapping that is complete, was due when the walk began and has an option in the queue has
     been received to its end - unless it starts before the last wrap of the counter, as that stood when its number was
     read: for the first such mapping, when the walk began.  A single due mapping, with nothing queued out of order,
     takes `rcv_nxt` to its end at most; a single new one that starts before the last wrap does not move it at all.
     */
    method DataReady(meta: MetaReceive, ti: nat, coalesce: nat -> bool, hold: seq<bool>,
                     ghost s: Stream, ghost tx: SubTx)
      returns (ghost seen: Option<nat>)
      requires Ok(s, tx) && meta.Safe(s) && ti < |meta.shortcuts| && !broken && TrueNumber(tx, Here(), meta.rcvNxt)
      modifies this, meta`rcvNxt, meta`ofo, meta`rcvQueue, meta`shortcuts, meta`nextId, meta.words
      ensures Ok(s, tx) && meta.Safe(s) && |meta.shortcuts| == |old(meta.shortcuts)|
      ensures old(meta.rcvNxt) <= meta.rcvNxt
      ensures broken <==> ResetDue(tx, seen)
      ensures !broken ==> NothingReady(tx)
      ensures SomeOf(owner, old(owner))
      ensures rcvNxt == old(rcvNxt) && |queue| <= |old(queue)| == |old(owner)|
      ensures queue == old(queue)[|old(queue)| - |queue|..] && owner == old(owner)[|old(queue)| - |queue|..]
      ensures TrueNumber(tx, Here(), if |queue| == |old(queue)| then old(meta.rcvNxt) else meta.rcvNxt)
      ensures TrueNumber(tx, Here(), meta.rcvNxt)
      ensures |queue| == |old(queue)| ==> meta.rcvNxt == old(meta.rcvNxt)
      ensures forall c :: 0 <= c < |tx.maps| && OnlyMap(old(owner), c) ==>
                (old(meta.ofo) == [] && tx.maps[c].dataSeq <= old(meta.rcvNxt) ==>
                   meta.ofo == [] && (meta.rcvNxt <= old(meta.rcvNxt) || meta.rcvNxt <= tx.maps[c].DataEnd()))
      ensures !old(mapPresent) ==>
                forall c :: 0 <= c < |tx.maps| && OnlyMap(old(owner), c) ==>
                  (Epoch(tx.maps[c].dataSeq) < Epoch(old(meta.rcvNxt)) ==> meta.rcvNxt == old(meta.rcvNxt))
      ensures !broken ==> forall t :: 0 <= t < |old(queue)| && old(queue)[t].dss.Some? ==>
                && t < |old(owner)| && old(owner)[t] < |tx.maps|
                && var m := tx.maps[old(owner)[t]];
                   m.SubEnd() <= rcvNxt && m.dataSeq <= old(meta.rcvNxt) ==>
                     || m.DataEnd() <= meta.rcvNxt
                     || Epoch(m.dataSeq)
                        < Epoch(if First(old(Here()), t) then old(meta.rcvNxt) else meta.rcvNxt)
    {
      hide *;
      ghost var z, nxt := Here(), meta.rcvNxt;
      HereIs();
      QueueSizes(s, tx);
      ghost var fc;
      seen, fc := WalkQueue(meta, ti, coalesce, hold, s, tx);
      HereIs();
      ProgressEnds(tx, nxt, meta.rcvNxt, z, fc, Here());
      if !z.present {
        MisreadMeans(tx, nxt, meta.rcvNxt, z, Here());
      }
      ShortMeans(tx, z.own, old(meta.ofo), nxt, meta.ofo, meta.rcvNxt);
      SuffixOwners(z.own, |z.q| - |queue|);
      if !broken {
        LeftIsNotReady(s, tx);
        AllHandedOn(tx, nxt, meta.rcvNxt, z, fc, Here(), rcvNxt);
      }
    }

    /** The loop of `mptcp_data_ready`. */
    method WalkQueue(meta: MetaReceive, ti: nat, coalesce: nat -> bool, hold: seq<bool>,
                     ghost s: Stream, ghost tx: SubTx)
      returns (ghost seen: Option<nat>, ghost fc: Option<nat>)
      requires Ok(s, tx) && meta.Safe(s) && ti < |meta.shortcuts| && !broken && TrueNumber(tx, Here(), meta.rcvNxt)
      modifies this, meta`rcvNxt, meta`ofo, meta`rcvQueue, meta`shortcuts, meta`nextId, meta.words
      ensures Ok(s, tx) && meta.Safe(s) && |meta.shortcuts| == |old(meta.shortcuts)|
      ensures old(meta.rcvNxt) <= meta.rcvNxt && rcvNxt == old(rcvNxt)
      ensures broken <==> ResetDue(tx, seen)
      ensures !broken ==> NothingReady(tx)
      ensures Progress(tx, old(meta.rcvNxt), meta.rcvNxt, old(Here()), fc, Here())
      ensures AllShort(tx, old(owner), old(meta.ofo), old(meta.rcvNxt), meta.ofo, meta.rcvNxt)
      ensures Misread(tx, old(meta.rcvNxt), meta.rcvNxt, old(Here()), Here())
    {
      hide *;
      var i: nat, h: nat := 0, 0;
      seen, fc := None, None;
      ghost var z := Here();
      HereIs();
      QueueSizes(s, tx);
      ProgressStarts(tx, meta.rcvNxt, z);
      NothingPushed(tx, owner, meta.ofo, meta.rcvNxt);
      NothingRead(tx, meta.rcvNxt, z);
      WalkStarts(s, tx);
      PassStarts(tx);
      while i < |queue|
        invariant Walking(s, tx, i) && meta.Safe(s) && |meta.shortcuts| == |old(meta.shortcuts)|
        invariant h <= |hold| && old(meta.rcvNxt) <= meta.rcvNxt && !broken
        invariant i > 0 ==> !mapPresent || Incomplete(tx)
        invariant PassOk(tx, i, seen) && rcvNxt == old(rcvNxt)
        invariant Progress(tx, old(meta.rcvNxt), meta.rcvNxt, z, fc, Here())
        invariant AllShort(tx, z.own, old(meta.ofo), old(meta.rcvNxt), meta.ofo, meta.rcvNxt)
        invariant Misread(tx, old(meta.rcvNxt), meta.rcvNxt, z, Here())
        decreases |hold| - h, |queue|, |queue| - i
      {
        SafeCounter(meta, s);
        ghost var a := Here();
        HereIs();
        ProgressTrue(tx, old(meta.rcvNxt), meta.rcvNxt, z, fc, a);
        WalkFacts(s, tx, i);
        var v, at;
        v, at, seen := DetectAndValidate(i, meta.words.high, meta.words.index, meta.rcvNxt, seen, s, tx);
        if v != Go {
          WalkEnds(s, tx, i);
          MarkBroken(s, tx, seen);
          return;
        }
        ghost var b := Here();
        HereIs();
        DetectKeeps(tx, old(meta.rcvNxt), meta.rcvNxt, z, fc, a, b, i, at);
        DetectMisreads(tx, old(meta.rcvNxt), meta.rcvNxt, z, fc, a, b, i, at);
        var held := h < |hold| && hold[h];
        h := if h < |hold| then h + 1 else h;
        if held {
          WalkEnds(s, tx, at);
          PassStarts(tx);
          i, seen := 0, None;
        } else {
          ghost var nxt, ofo := meta.rcvNxt, meta.ofo;
          var restart := PushAndStep(meta, ti, coalesce, at, seen, s, tx);
          i := if restart then 0 else at + 1;
          seen := if restart then None else seen;
          if restart {
            PushShort(tx, old(meta.rcvNxt), nxt, z, fc, b, Here(), meta.rcvNxt, old(meta.ofo), ofo, meta.ofo);
            HereIs();
            PushMisread(tx, old(meta.rcvNxt), nxt, meta.rcvNxt, z, b, Here());
            PushKeeps(tx, old(meta.rcvNxt), nxt, meta.rcvNxt, z, fc, b, Here());
            fc := if fc.None? then Some(b.cur) else fc;
          }
        }
      }
      WalkIsOver(s, tx, i);
      WalkEnds(s, tx, i);
      PassIsOver(tx, i, seen);
    }

    lemma QueueSizes(s: Stream, tx: SubTx)
      requires Ok(s, tx)
      ensures |owner| == |queue| && Here().own == owner && Here().q == queue
      ensures forall t :: 0 <= t < |owner| ==> owner[t] < |tx.maps|
    {
      forall t | 0 <= t < |owner|
        ensures owner[t] < |tx.maps|
      {
        assert PktHonest(tx, queue[t], owner[t]);
      }
    }

    /** Of what is left no complete mapping has an option. */
    lemma LeftIsNotReady(s: Stream, tx: SubTx)
      requires Ok(s, tx) && NothingReady(tx)
      ensures |owner| == |queue|
      ensures forall t :: 0 <= t < |queue| && queue[t].dss.Some? ==>
                owner[t] < |tx.maps| && rcvNxt < tx.maps[owner[t]].SubEnd()
    {
      if mapPresent {
        IncompleteOwnsAll(tx, queue, owner, copiedSeq, rcvNxt);
      }
    }

    lemma PassIsOver(tx: SubTx, i: nat, seen: Option<nat>)
      requires PassOk(tx, i, seen) && i >= |queue|
      ensures !ResetDue(tx, seen)
    {
    }

    /** Not all bytes of the present mapping have arrived. */
    ghost predicate Incomplete(tx: SubTx)
      reads this
    {
      cur < |tx.maps| && rcvNxt < tx.maps[cur].SubEnd()
    }

    /** What is still queued belongs to an incomplete mapping, or came without any option. */
    ghost predicate NothingReady(tx: SubTx)
      reads this
    {
      if mapPresent then Incomplete(tx) else forall t :: 0 <= t < |queue| ==> queue[t].dss.None?
    }

    lemma WalkIsOver(s: Stream, tx: SubTx, i: nat)
      requires Walking(s, tx, i) && i >= |queue| && (i > 0 ==> !mapPresent || Incomplete(tx))
      ensures NothingReady(tx)
    {
    }

    /** The subflow is reset; its queue is not looked at any more. */
    method MarkBroken(ghost s: Stream, ghost tx: SubTx, ghost seen: Option<nat>)
      requires Ok(s, tx)
      modifies this`broken
      ensures Ok(s, tx) && broken && (ResetDue(tx, seen) <==> old(ResetDue(tx, seen)))
    {
      broken := true;
    }

    lemma WalkStarts(s: Stream, tx: SubTx)
      requires Ok(s, tx)
      ensures Walking(s, tx, 0)
    {
    }

    lemma WalkEnds(s: Stream, tx: SubTx, i: nat)
      requires Walking(s, tx, i)
      ensures Ok(s, tx)
      ensures Walking(s, tx, 0)
    {
    }

    static lemma SafeCounter(meta: MetaReceive, s: Stream)
      requires meta.Safe(s)
      ensures RcvTracks(meta.words.high, meta.words.index, meta.rcvNxt)
      ensures |meta.words.high| == 2 && meta.words.index < 2
      ensures MetaReceive.Lowest(s) == s.End() - TWO_31 + 1
      ensures MetaReceive.Lowest(s) <= meta.rcvWup <= meta.rcvNxt <= s.End() && meta.ReceiveWindow() < TWO_31
    {
    }

    /** The push attempt after packet `at`; without one the walk can go on to the next packet. */
    method PushAndStep(meta: MetaReceive, ti: nat, coalesce: nat -> bool, at: nat, ghost seen: Option<nat>,
                       ghost s: Stream, ghost tx: SubTx)
      returns (restart: bool)
      requires Walking(s, tx, at) && PassOk(tx, at + 1, seen) && at < |queue| && meta.Safe(s) && ti < |meta.shortcuts|
      requires !mapPresent ==> queue[at].dss.None?
      requires TrueNumber(tx, Here(), meta.rcvNxt)
      modifies this`queue, this`owner, this`copiedSeq, this`mapPresent, this`mapDataSeq, this`mapSubseq,
               this`mapDataLen, this`mapDataFin, meta`rcvNxt, meta`ofo, meta`rcvQueue, meta`shortcuts, meta`nextId,
               meta.words
      ensures meta.Safe(s) && |meta.shortcuts| == |old(meta.shortcuts)| && old(meta.rcvNxt) <= meta.rcvNxt
      ensures restart ==> Walking(s, tx, 0) && PassOk(tx, 0, None) && |queue| < |old(queue)|
      ensures !restart ==> Walking(s, tx, at + 1) && PassOk(tx, at + 1, seen) && queue == old(queue)
      ensures !restart ==> !mapPresent || Incomplete(tx)
      ensures SomeOf(owner, old(owner))
      ensures !restart ==> Here() == old(Here()) && meta.rcvNxt == old(meta.rcvNxt)
      ensures restart ==> Pushed(tx, old(Here()), Here(), old(meta.rcvNxt), meta.rcvNxt)
      ensures !restart ==> meta.ofo == old(meta.ofo)
      ensures restart ==> old(cur) < |tx.maps|
      ensures restart && Low64(old(mapDataSeq)) != Low64(tx.maps[old(cur)].dataSeq) ==> meta.rcvNxt == old(meta.rcvNxt)
      ensures restart ==> KeptShort(tx.maps[old(cur)], old(meta.ofo), old(meta.rcvNxt), meta.ofo, meta.rcvNxt)
    {
      hide *;
      WalkEnds(s, tx, at);
      WalkNoOptions(s, tx, at);
      WalkFacts(s, tx, at);
      ghost var a, nxt, edge := Here(), meta.rcvNxt, meta.rcvWup + meta.rcvWnd;
      HereIs();
      var ret := QueueSkb(meta, ti, coalesce, s, tx);
      HereIs();
      restart := ret != 0;
      if restart {
        OffTheFront(tx, a.q, a.own, a.cur);
        NotDueIsShort(tx.maps[a.cur], old(meta.ofo), nxt, meta.ofo, meta.rcvNxt);
        MakePushed(tx, a, Here(), nxt, meta.rcvNxt, edge, old(Acceptable(tx, meta)));
        WalkStarts(s, tx);
        PassStarts(tx);
      } else {
        WalkOn(s, tx, at);
        assert Incomplete(tx) == (cur < |tx.maps| && rcvNxt < tx.maps[cur].SubEnd()) by { IncompleteMeans(tx); }
      }
    }

    lemma OffTheFront(tx: SubTx, q0: seq<SubSkb>, own0: seq<nat>, c: nat)
      requires PushedOff(tx, q0, c) && OwnersOff(q0, own0, c)
      ensures |queue| < |q0| == |own0| && queue == q0[|q0| - |queue|..] && owner == own0[|q0| - |queue|..]
      ensures forall t :: 0 <= t < |q0| - |queue| ==> own0[t] == c
    {
    }

    lemma IncompleteMeans(tx: SubTx)
      ensures Incomplete(tx) == (cur < |tx.maps| && rcvNxt < tx.maps[cur].SubEnd())
    {
    }

    lemma WalkNoOptions(s: Stream, tx: SubTx, at: nat)
      requires Walking(s, tx, at) && at < |queue| && (!mapPresent ==> queue[at].dss.None?)
      ensures !mapPresent ==> forall t :: 0 <= t <= at ==> queue[t].dss.None?
    {
    }

    /** An unfinished mapping owns everything that has arrived, so the walk can pass to the next packet. */
    lemma WalkOn(s: Stream, tx: SubTx, at: nat)
      requires Ok(s, tx) && at < |queue|
      requires !mapPresent ==> forall t :: 0 <= t <= at ==> queue[t].dss.None?
      requires mapPresent ==> cur < |tx.maps| && rcvNxt < tx.maps[cur].SubEnd()
      ensures Walking(s, tx, at + 1)
    {
      if mapPresent {
        IncompleteOwnsAll(tx, queue, owner, copiedSeq, rcvNxt);
      }
    }
  }

  /**
   A run in which true options reset a subflow.  `rcv_nxt` is at 2^32 + 100; a late copy of the data from 2^32 - 500 on
   comes in two packets, both with its 64-bit number.  The high word 0 is in the array no longer: the first option is
   taken over with a changed number, and the second one does not match it.
   */
  method LateWideCopyReset(high: seq<int>, index: nat, c: Cell) returns (first: Verdict, second: Verdict)
    requires RcvTracks(high, index, TWO_32 + 100)
    ensures first == Go && second == Mismatch
  {
    hide Subflow.FromWire, Flagged, Decoded;
    var d := Dss(TWO_32 - 500, true, 0, 20, false);
    var sub := new Subflow(0);
    sub.queue := [SubSkb(0, seq(10, _ => c), Some(d)), SubSkb(10, seq(10, _ => c), Some(d))];
    OutsideNear(high, index, TWO_32 + 100, TWO_32 - 500);
    Subflow.DecodedFromWire(high, index, TWO_32 + 100, d);
    first := sub.DetectMapping(0, high, index, TWO_32 + 100);
    FlaggedLowWord(sub.mapDataSeq, TWO_32 - 500);
    Subflow.SameSeqIsLow(TWO_32 - 500, sub.mapDataSeq);
    second := sub.DetectMapping(1, high, index, TWO_32 + 100);
  }
}

/**
 Subflow streams, the DSS mappings that tile them, and the subflow receive queue of an honest peer.
 */
module Mappings {
  import opened Common
  import opened SeqArith
  import opened DataStream

  const MAX_MAPPING: int := 0xffff

  /** `len` subflow bytes from `subSeq` on are the data from `dataSeq` on, closed by a DATA_FIN if `fin`. */
  datatype Mapping = Mapping(dataSeq: int, subSeq: int, len: nat, fin: bool) {
    function SubEnd(): int {
      subSeq + len
    }

    function DataLen(): nat {
      len + if fin then 1 else 0
    }

    function DataEnd(): int {
      dataSeq + DataLen()
    }
  }

  /** The DSS option of a packet, with its numbers made absolute; `seq64` if the data number has all 64 bits. */
  datatype Dss = Dss(dataSeq: int, seq64: bool, subSeq: int, dataLen: nat, fin: bool)

  /** A packet in the receive queue of a subflow. */
  datatype SubSkb = SubSkb(seqNo: int, cells: seq<Cell>, dss: Option<Dss>) {
    function End(): int {
      seqNo + |cells|
    }
  }

  /** Everything the peer has sent on one subflow: the byte stream and its mappings, in order. */
  datatype SubTx = SubTx(isn: int, cells: seq<Cell>, maps: seq<Mapping>) {
    function WriteSeq(): int {
      isn + |cells|
    }

    function Slice(from: int, to: int): seq<Cell>
      requires isn <= from <= to <= WriteSeq()
    {
      cells[from - isn..to - isn]
    }
  }

  function FinCells(fin: bool): seq<Cell> {
    if fin then [DataFin] else []
  }

  /** The mapping tells the truth: its subflow bytes are the sender's data at the mapped numbers. */
  ghost predicate MapHonest(s: Stream, tx: SubTx, m: Mapping) {
    && tx.isn <= m.subSeq && m.SubEnd() <= tx.WriteSeq()
    && 0 < m.DataLen() <= MAX_MAPPING
    && s.base <= m.dataSeq && m.DataEnd() <= s.End()
    && s.Slice(m.dataSeq, m.DataEnd()) == tx.Slice(m.subSeq, m.SubEnd()) + FinCells(m.fin)
  }

  /** The mappings cover the subflow stream from its first byte on, each starting where the last ended. */
  ghost predicate Tiles(tx: SubTx) {
    && (forall i, j :: 0 <= i < j < |tx.maps| ==> tx.maps[i].SubEnd() <= tx.maps[j].subSeq)
    && (forall i :: 0 <= i < |tx.maps| ==> tx.isn <= tx.maps[i].subSeq && tx.maps[i].SubEnd() <= tx.WriteSeq())
    && (forall p :: tx.isn <= p < tx.WriteSeq() ==> Mapped(tx, p))
  }

  ghost predicate Mapped(tx: SubTx, p: int) {
    exists i :: 0 <= i < |tx.maps| && tx.maps[i].subSeq <= p < tx.maps[i].SubEnd()
  }

  ghost predicate TxHonest(s: Stream, tx: SubTx) {
    && Tiles(tx)
    && forall i :: 0 <= i < |tx.maps| ==> MapHonest(s, tx, tx.maps[i])
  }

  /** `mptcp_skb_entail`: one more segment on the subflow, mapped at the current write position. */
  function Entail(tx: SubTx, dataSeq: int, payload: seq<Cell>, fin: bool): SubTx {
    SubTx(tx.isn, tx.cells + payload, tx.maps + [Mapping(dataSeq, tx.WriteSeq(), |payload|, fin)])
  }

  /** Sending honest data keeps the subflow's mappings honest and tiling. */
  lemma EntailKeepsHonest(s: Stream, tx: SubTx, dataSeq: int, payload: seq<Cell>, fin: bool)
    requires TxHonest(s, tx)
    requires var m := Mapping(dataSeq, tx.WriteSeq(), |payload|, fin);
             && 0 < m.DataLen() <= MAX_MAPPING && s.base <= dataSeq && m.DataEnd() <= s.End()
             && s.Slice(dataSeq, m.DataEnd()) == payload + FinCells(fin)
    ensures TxHonest(s, Entail(tx, dataSeq, payload, fin))
  {
    var r := Entail(tx, dataSeq, payload, fin);
    var n := |tx.maps|;
    forall i | 0 <= i <= n
      ensures MapHonest(s, r, r.maps[i])
    {
      if i < n {
        MapHonestAfterEntail(s, tx, payload, r.maps, tx.maps[i]);
      } else {
        assert r.Slice(tx.WriteSeq(), r.WriteSeq()) == payload;
      }
    }
    EntailTiles(tx, dataSeq, payload, fin);
  }

  lemma MapHonestAfterEntail(s: Stream, tx: SubTx, payload: seq<Cell>, maps: seq<Mapping>, m: Mapping)
    requires MapHonest(s, tx, m)
    ensures MapHonest(s, SubTx(tx.isn, tx.cells + payload, maps), m)
  {
    var r := SubTx(tx.isn, tx.cells + payload, maps);
    assert r.Slice(m.subSeq, m.SubEnd()) == tx.Slice(m.subSeq, m.SubEnd());
  }

  lemma EntailTiles(tx: SubTx, dataSeq: int, payload: seq<Cell>, fin: bool)
    requires Tiles(tx)
    ensures Tiles(Entail(tx, dataSeq, payload, fin))
  {
    var r := Entail(tx, dataSeq, payload, fin);
    var n := |tx.maps|;
    forall p | r.isn <= p < r.WriteSeq()
      ensures Mapped(r, p)
    {
      if p < tx.WriteSeq() {
        assert Mapped(tx, p);
        var i :| 0 <= i < n && tx.maps[i].subSeq <= p < tx.maps[i].SubEnd();
        assert r.maps[i] == tx.maps[i];
      } else {
        assert r.maps[n].subSeq <= p < r.maps[n].SubEnd();
      }
    }
  }

  /** Writing more data leaves every mapping honest. */
  lemma TxHonestAfterWrite(s: Stream, more: seq<Cell>, tx: SubTx)
    requires TxHonest(s, tx)
    ensures TxHonest(Stream(s.base, s.cells + more), tx)
  {
    var t := Stream(s.base, s.cells + more);
    forall i | 0 <= i < |tx.maps|
      ensures MapHonest(t, tx, tx.maps[i])
    {
      var m := tx.maps[i];
      assert MapHonest(s, tx, m);
      assert t.Slice(m.dataSeq, m.DataEnd()) == s.Slice(m.dataSeq, m.DataEnd());
    }
  }

  // ------------------------------------------------------------ packets and queues

  ghost predicate InMap(k: SubSkb, m: Mapping) {
    m.subSeq <= k.seqNo && k.End() <= m.SubEnd()
  }

  /** The option names mapping `m`.  On an empty DATA_FIN the subflow number is not meaningful. */
  ghost predicate DssNames(d: Dss, m: Mapping) {
    && d.dataSeq == m.dataSeq && d.dataLen == m.DataLen() && d.fin == m.fin
    && (m.len > 0 ==> d.subSeq == m.subSeq)
  }

  /**
   A packet of an honest peer, belonging to mapping number `j`: its bytes are the subflow's, it does not
   reach across the mapping's ends, and a DSS option, if it arrived, names that mapping.  A packet without
   bytes is a lone DATA_FIN and has its option.
   */
  ghost predicate PktHonest(tx: SubTx, k: SubSkb, j: nat) {
    && j < |tx.maps| && InMap(k, tx.maps[j])
    && tx.isn <= k.seqNo && k.End() <= tx.WriteSeq()
    && k.cells == tx.Slice(k.seqNo, k.End())
    && (k.dss.Some? ==> DssNames(k.dss.value, tx.maps[j]))
    && (k.cells == [] ==> k.dss.Some? && tx.maps[j].len == 0)
  }

  /** Subflow number reached after the first `i` packets of a queue that starts at `copied`. */
  function Front(q: seq<SubSkb>, copied: int, i: nat): int
    requires i <= |q|
  {
    if i == 0 then copied else q[i - 1].End()
  }

  /** Each packet continues the subflow stream: it may repeat old bytes but always adds new ones, if it has any. */
  ghost predicate InOrder(q: seq<SubSkb>, copied: int) {
    forall i {:trigger Front(q, copied, i)} :: 0 <= i < |q| ==>
      && q[i].seqNo <= Front(q, copied, i) <= q[i].End()
      && (q[i].cells != [] ==> Front(q, copied, i) < q[i].End())
  }

  /** No mapping has `p` strictly inside. */
  ghost predicate Boundary(tx: SubTx, p: int) {
    forall j :: 0 <= j < |tx.maps| ==> tx.maps[j].SubEnd() <= p || p <= tx.maps[j].subSeq
  }

  /** A subflow receive queue: packet `i` belongs to mapping number `owner[i]`. */
  ghost predicate RxOk(tx: SubTx, q: seq<SubSkb>, owner: seq<nat>, copied: int, nxt: int) {
    && |owner| == |q|
    && (forall i :: 0 <= i < |q| ==> PktHonest(tx, q[i], owner[i]))
    && (forall i, j :: 0 <= i < j < |q| ==> owner[i] <= owner[j])
    && InOrder(q, copied)
    && nxt == Front(q, copied, |q|)
    && Boundary(tx, copied)
    && tx.isn <= copied <= nxt <= tx.WriteSeq()
    && nxt < copied + TWO_31 / 2
  }

  /** A mapping some of whose subflow bytes the receiver has not consumed. */
  predicate Pending(m: Mapping, copied: int) {
    m.SubEnd() > copied || (m.len == 0 && m.subSeq >= copied)
  }

  /** Every pending mapping starts at `lo` or later. */
  predicate PendingFrom(tx: SubTx, copied: int, lo: int) {
    forall j :: 0 <= j < |tx.maps| && Pending(tx.maps[j], copied) ==> lo <= tx.maps[j].dataSeq
  }

  lemma FrontMonotone(q: seq<SubSkb>, copied: int, i: nat, j: nat)
    requires InOrder(q, copied) && i <= j <= |q|
    ensures Front(q, copied, i) <= Front(q, copied, j)
    decreases j - i
  {
    if i < j {
      FrontMonotone(q, copied, i + 1, j);
    }
  }

  /** The queue starts exactly at its first mapping's first byte: no mapping has lost its head. */
  lemma HeadAtMapStart(tx: SubTx, q: seq<SubSkb>, owner: seq<nat>, copied: int, nxt: int)
    requires RxOk(tx, q, owner, copied, nxt) && q != []
    ensures q[0].seqNo == copied == tx.maps[owner[0]].subSeq
  {
    assert PktHonest(tx, q[0], owner[0]);
    assert Front(q, copied, 0) == copied;
  }

  lemma OwnerPending(tx: SubTx, q: seq<SubSkb>, owner: seq<nat>, copied: int, nxt: int, i: nat)
    requires RxOk(tx, q, owner, copied, nxt) && i < |q|
    ensures Pending(tx.maps[owner[i]], copied)
  {
    assert PktHonest(tx, q[i], owner[i]);
    FrontMonotone(q, copied, 0, i);
  }

  /** A packet of a later mapping starts at or after the end of an earlier one. */
  lemma LaterOwner(tx: SubTx, q: seq<SubSkb>, owner: seq<nat>, copied: int, nxt: int, i: nat, c: nat)
    requires RxOk(tx, q, owner, copied, nxt) && Tiles(tx) && i < |q| && c < |tx.maps|
    ensures owner[i] > c ==> tx.maps[c].SubEnd() <= q[i].seqNo
    ensures owner[i] == c && q[i].cells != [] ==> q[i].seqNo < tx.maps[c].SubEnd()
    ensures owner[i] == c ==> tx.maps[c].subSeq <= q[i].seqNo && q[i].End() <= tx.maps[c].SubEnd()
    ensures owner[i] < c && q[i].cells != [] ==> q[i].seqNo < tx.maps[c].subSeq
  {
    assert PktHonest(tx, q[i], owner[i]);
  }

  /** As long as a mapping is incomplete nothing of a later one has arrived. */
  lemma IncompleteOwnsAll(tx: SubTx, q: seq<SubSkb>, owner: seq<nat>, copied: int, nxt: int)
    requires RxOk(tx, q, owner, copied, nxt) && Tiles(tx) && q != []
    requires nxt < tx.maps[owner[0]].SubEnd()
    ensures forall i :: 0 <= i < |q| ==> owner[i] == owner[0]
  {
    forall i | 0 <= i < |q|
      ensures owner[i] == owner[0]
    {
      LaterOwner(tx, q, owner, copied, nxt, i, owner[0]);
      FrontMonotone(q, copied, i + 1, |q|);
      assert q[i].End() == Front(q, copied, i + 1);
    }
  }

  /**
   Dropping the first `n` packets of a queue is fine when they all belong to mappings before `c`, or to a
   complete mapping `c`, and the rest does not.
   */
  lemma DropComplete(tx: SubTx, q: seq<SubSkb>, owner: seq<nat>, copied: int, nxt: int, n: nat)
    requires RxOk(tx, q, owner, copied, nxt) && Tiles(tx)
    requires 0 < n <= |q|
    requires n < |q| ==> owner[n - 1] < owner[n] || q[n].cells == []
    requires n == |q| ==> tx.maps[owner[n - 1]].SubEnd() <= nxt
    ensures q[n - 1].End() == tx.maps[owner[n - 1]].SubEnd()
    ensures RxOk(tx, q[n..], owner[n..], q[n - 1].End(), nxt)
  {
    FrontMonotone(q, copied, n, |q|);
    FrontMonotone(q, copied, 0, n);
    assert Front(q, copied, n) == q[n - 1].End();
    LastOfComplete(tx, q, owner, copied, nxt, n);
    MapEndIsBoundary(tx, owner[n - 1]);
    InOrderSuffix(q, copied, n);
  }

  lemma MapEndIsBoundary(tx: SubTx, c: nat)
    requires Tiles(tx) && c < |tx.maps|
    ensures Boundary(tx, tx.maps[c].SubEnd())
  {
  }

  lemma LastOfComplete(tx: SubTx, q: seq<SubSkb>, owner: seq<nat>, copied: int, nxt: int, n: nat)
    requires RxOk(tx, q, owner, copied, nxt) && Tiles(tx)
    requires 0 < n <= |q|
    requires n < |q| ==> owner[n - 1] < owner[n] || q[n].cells == []
    requires n == |q| ==> tx.maps[owner[n - 1]].SubEnd() <= nxt
    ensures q[n - 1].End() == tx.maps[owner[n - 1]].SubEnd()
  {
    assert PktHonest(tx, q[n - 1], owner[n - 1]);
    assert Front(q, copied, n) == q[n - 1].End();
    if n < |q| {
      assert PktHonest(tx, q[n], owner[n]);
    }
  }

  lemma InOrderSuffix(q: seq<SubSkb>, copied: int, n: nat)
    requires InOrder(q, copied) && 0 < n <= |q|
    ensures InOrder(q[n..], q[n - 1].End())
    ensures Front(q[n..], q[n - 1].End(), |q| - n) == Front(q, copied, |q|)
  {
    var r := q[n..];
    forall i | 0 <= i < |r|
      ensures r[i].seqNo <= Front(r, q[n - 1].End(), i) <= r[i].End()
      ensures r[i].cells != [] ==> Front(r, q[n - 1].End(), i) < r[i].End()
    {
      assert r[i] == q[n + i] && Front(r, q[n - 1].End(), i) == Front(q, copied, n + i);
    }
  }

  /** Fewer mappings are pending when more has been consumed. */
  lemma PendingShrinks(tx: SubTx, copied: int, copied': int, lo: int)
    requires PendingFrom(tx, copied, lo) && copied <= copied'
    ensures PendingFrom(tx, copied', lo)
  {
  }
}

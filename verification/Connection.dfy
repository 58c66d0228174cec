/**
 A whole connection: a sender that puts every new segment on any set of subflows, a network that delivers
 each subflow in order, and the receiver.  The main result is `Run`.
 */
module Connection {
  import opened Common
  import opened SeqArith
  import opened DataStream
  import opened Mappings
  import opened MetaSock
  import opened SubflowRx

  /** One step of a run.  The network and the kernel choose the step and its answers. */
  datatype Event =
    | Write(cells: seq<Cell>)                                   // the application writes
    | Send(from: int, to: int, on: seq<nat>)                    // a segment goes out on these subflows
    | Arrive(sub: nat, mapping: nat, from: int, to: int, dss: Option<bool>)   // a packet; its option, 64-bit or not
    | DataReady(sub: nat, coalesce: nat -> bool, hold: seq<bool>)
    | Prune                                                     // memory pressure
    | Advertise(window: nat)                                    // an ACK goes out

  /** The largest window an ACK can advertise: 16 bits, scaled by at most 14. */
  const MAX_WINDOW: int := 0xffff * 0x4000

  class Endpoints {
    var written: Stream
    var tx: seq<SubTx>
    var arrived: seq<nat>     // which mapping the last packet delivered on each subflow belongs to
    const rx: seq<Subflow>
    const meta: MetaReceive

    ghost predicate Separate()
      reads this
    {
      && |tx| == |rx| == |arrived|
      && forall i, j :: 0 <= i < j < |rx| ==> rx[i] != rx[j]
    }

    /** Sender, subflows and receiver agree on one stream. */
    ghost predicate Inv()
      reads this, rx, meta, meta.words
    {
      && Separate() && |meta.shortcuts| == |rx|
      && meta.Safe(written)
      && (forall i :: 0 <= i < |rx| ==> rx[i].Ok(written, tx[i]))
      && (forall i :: 0 <= i < |rx| ==> NoneAfter(rx[i].owner, arrived[i]))
      && (forall i :: 0 <= i < |rx| ==> TrueNumber(tx[i], rx[i].Here(), meta.rcvNxt))
    }

    static ghost predicate NoneAfter(owner: seq<nat>, j: nat) {
      forall t :: 0 <= t < |owner| ==> owner[t] <= j
    }

    /** A subflow on which nothing has been sent. */
    static ghost predicate Unused(sub: Subflow, isn: int, s: Stream)
      reads sub
    {
      && sub.Ok(s, SubTx(isn, [], [])) && sub.queue == [] && sub.owner == []
      && !sub.mapPresent && !sub.broken && sub.rcvNxt == isn
    }

    static method NewSubflows(isns: seq<int>, ghost s: Stream) returns (subs: seq<Subflow>)
      ensures |subs| == |isns|
      ensures forall i :: 0 <= i < |subs| ==> fresh(subs[i]) && Unused(subs[i], isns[i], s)
      ensures forall i, j :: 0 <= i < j < |subs| ==> subs[i] != subs[j]
    {
      hide Subflow.Ok;
      subs := [];
      while |subs| < |isns|
        invariant |subs| <= |isns|
        invariant forall i :: 0 <= i < |subs| ==> fresh(subs[i]) && Unused(subs[i], isns[i], s)
        invariant forall i, j :: 0 <= i < j < |subs| ==> subs[i] != subs[j]
      {
        var sub := new Subflow(isns[|subs|]);
        subs := subs + [sub];
      }
    }

    constructor (idsn: int, isns: seq<int>)
      ensures Inv() && fresh(meta) && fresh(meta.words) && forall i :: 0 <= i < |rx| ==> fresh(rx[i])
      ensures written == Stream(idsn, []) && meta.base == idsn && |rx| == |isns|
      ensures meta.rcvWup == meta.rcvNxt == idsn && meta.ofo == [] && meta.rcvQueue == []
      ensures forall i :: 0 <= i < |rx| ==> Idle(i) && tx[i] == SubTx(isns[i], [], [])
    {
      hide Subflow.Ok, MetaReceive.Safe, MetaReceive.Valid;
      var subs := NewSubflows(isns, Stream(idsn, []));
      written := Stream(idsn, []);
      arrived := seq(|isns|, _ => 0);
      tx := seq(|isns|, i requires 0 <= i < |isns| => SubTx(isns[i], [], []));
      rx := subs;
      meta := new MetaReceive(idsn, |isns|);
    }

    /** All that was sent on subflow `i` has arrived and been processed. */
    predicate Idle(i: nat)
      requires i < |rx| && |tx| == |rx|
      reads this, rx
    {
      rx[i].queue == [] && !rx[i].broken && rx[i].rcvNxt == tx[i].WriteSeq()
    }

    /**
     `more` may be written: the stream is not closed before its last cell, and nothing alive gets 2^31 or
     more behind its end.
     */
    predicate RoomFor(more: seq<Cell>)
      requires |tx| == |rx|
      reads this, rx, meta
    {
      var lo := MetaReceive.Lowest(Stream(written.base, written.cells + more));
      && (forall i :: 0 <= i < |written.cells + more| - 1 ==> (written.cells + more)[i] != DataFin)
      && lo <= meta.rcvWup
      && (forall i :: 0 <= i < |meta.ofo| ==> lo <= meta.ofo[i].start)
      && (forall i :: 0 <= i < |rx| ==> PendingFrom(tx[i], rx[i].copiedSeq, lo))
    }

    /** The application writes `more`. */
    method WriteData(more: seq<Cell>)
      requires Inv() && RoomFor(more)
      modifies this`written
      ensures Inv() && written == Stream(old(written).base, old(written).cells + more)
    {
      hide Subflow.Here, TrueNumber;
      ghost var s := written;
      written := Stream(written.base, written.cells + more);
      meta.SafeAfterWrite(s, more);
      forall i | 0 <= i < |rx|
        ensures rx[i].Ok(written, tx[i])
      {
        TxHonestAfterWrite(s, more, tx[i]);
      }
    }

    /** On less than 2^31 cells there is always room, as long as nothing follows a DATA_FIN. */
    lemma RoomBelow(more: seq<Cell>)
      requires Inv() && written.base <= meta.rcvWup && |written.cells + more| < TWO_31
      requires forall i :: 0 <= i < |written.cells + more| - 1 ==> (written.cells + more)[i] != DataFin
      ensures RoomFor(more)
    {
      var lo := MetaReceive.Lowest(Stream(written.base, written.cells + more));
      forall i | 0 <= i < |meta.ofo|
        ensures lo <= meta.ofo[i].start
      {
        assert Honest(written, meta.ofo[i]);
      }
      forall i | 0 <= i < |rx|
        ensures PendingFrom(tx[i], rx[i].copiedSeq, lo)
      {
        assert rx[i].Ok(written, tx[i]);
        AllFromBase(written, tx[i], rx[i].copiedSeq, lo);
      }
    }

    static lemma AllFromBase(s: Stream, tx: SubTx, copied: int, lo: int)
      requires TxHonest(s, tx) && lo <= s.base
      ensures PendingFrom(tx, copied, lo)
    {
      forall j | 0 <= j < |tx.maps|
        ensures lo <= tx.maps[j].dataSeq
      {
        assert MapHonest(s, tx, tx.maps[j]);
      }
    }

    /** The payload of a segment and whether it closes the stream. */
    static function Payload(cells: seq<Cell>): (p: (seq<Cell>, bool))
      ensures cells == p.0 + FinCells(p.1)
    {
      if cells != [] && cells[|cells| - 1] == DataFin then (cells[..|cells| - 1], true) else (cells, false)
    }

    /** The segment has been written and is small enough for one mapping, and the subflows are there. */
    predicate CanSend(from: int, to: int, on: seq<nat>)
      reads this
    {
      && written.base <= from < to <= written.End() && to - from <= MAX_MAPPING
      && MetaReceive.Lowest(written) <= from && forall i :: 0 <= i < |on| ==> on[i] < |rx|
    }

    /**
     `rmptcp_send_skb`: the segment [`from`, `to`) is put on every subflow of `on`, each copy with a mapping
     of its own.
     */
    method SendOn(from: int, to: int, on: seq<nat>)
      requires Inv() && CanSend(from, to, on)
      modifies this`tx
      ensures Inv() && |tx| == |old(tx)|
      ensures forall i :: 0 <= i < |tx| ==> tx[i] == Sent(old(tx)[i], i, on, from, Payload(written.Slice(from, to)))
    {
      hide Subflow.Ok, MetaReceive.Safe, MetaReceive.Valid, TrueNumber, Subflow.Here, Entail;
      var p := Payload(written.Slice(from, to));
      for n := 0 to |on|
        invariant Inv() && |tx| == |old(tx)|
        invariant forall i :: 0 <= i < |tx| ==> tx[i] == Sent(old(tx)[i], i, on[..n], from, p)
      {
        var i := on[n];
        assert on[..n + 1][..n] == on[..n];
        EntailKeepsOk(rx[i], written, tx[i], from, p.0, p.1);
        EntailKeepsNumber(tx[i], from, p.0, p.1, rx[i].Here(), meta.rcvNxt);
        tx := tx[i := Entail(tx[i], from, p.0, p.1)];
      }
      assert on[..|on|] == on;
    }

    /** Subflow `i` after a segment went out on the subflows listed: one more copy for each time it is listed. */
    static function Sent(tx: SubTx, i: int, on: seq<nat>, from: int, p: (seq<Cell>, bool)): SubTx {
      if on == [] then tx
      else
        var before := Sent(tx, i, on[..|on| - 1], from, p);
        if on[|on| - 1] == i then Entail(before, from, p.0, p.1) else before
    }

    /** More sent on a subflow leaves what its receiver already has in order. */
    static lemma EntailKeepsOk(sub: Subflow, s: Stream, tx: SubTx, from: int, payload: seq<Cell>, fin: bool)
      requires sub.Ok(s, tx)
      requires s.base <= from && from + |payload + FinCells(fin)| <= s.End()
      requires 0 < |payload + FinCells(fin)| <= MAX_MAPPING && MetaReceive.Lowest(s) <= from
      requires s.Slice(from, from + |payload + FinCells(fin)|) == payload + FinCells(fin)
      ensures sub.Ok(s, Entail(tx, from, payload, fin))
    {
      var r := Entail(tx, from, payload, fin);
      EntailKeepsHonest(s, tx, from, payload, fin);
      EntailKeepsQueue(tx, from, payload, fin, sub.queue, sub.owner, sub.copiedSeq, sub.rcvNxt);
      forall j | 0 <= j < |r.maps|
        ensures Pending(r.maps[j], sub.copiedSeq) ==> MetaReceive.Lowest(s) <= r.maps[j].dataSeq
      {
        assert j < |tx.maps| ==> r.maps[j] == tx.maps[j];
      }
    }

    static lemma EntailKeepsNumber(tx: SubTx, from: int, payload: seq<Cell>, fin: bool, a: Standing, nxt: int)
      requires TrueNumber(tx, a, nxt)
      ensures TrueNumber(Entail(tx, from, payload, fin), a, nxt)
    {
    }

    static lemma EntailKeepsQueue(tx: SubTx, from: int, payload: seq<Cell>, fin: bool,
                                  q: seq<SubSkb>, owner: seq<nat>, copied: int, nxt: int)
      requires RxOk(tx, q, owner, copied, nxt)
      ensures RxOk(Entail(tx, from, payload, fin), q, owner, copied, nxt)
    {
      var r := Entail(tx, from, payload, fin);
      forall i | 0 <= i < |q|
        ensures PktHonest(r, q[i], owner[i])
      {
        assert PktHonest(tx, q[i], owner[i]);
        assert r.maps[owner[i]] == tx.maps[owner[i]];
        assert r.Slice(q[i].seqNo, q[i].End()) == tx.Slice(q[i].seqNo, q[i].End());
      }
      forall j | 0 <= j < |r.maps|
        ensures r.maps[j].SubEnd() <= copied || copied <= r.maps[j].subSeq
      {
        assert j < |tx.maps| ==> r.maps[j] == tx.maps[j];
      }
    }

    /** The next packet of a subflow: any piece of one mapping that continues what has arrived. */
    predicate CanArrive(i: nat, j: nat, from: int, to: int, dss: Option<bool>)
      requires |tx| == |rx| == |arrived|
      reads this, rx
    {
      && i < |rx| && j < |tx[i].maps|
      && tx[i].maps[j].subSeq <= from <= rx[i].rcvNxt <= to <= tx[i].maps[j].SubEnd()
      && tx[i].isn <= from && to <= tx[i].WriteSeq()
      && (from < to ==> rx[i].rcvNxt < to)
      && (from == to ==> dss.Some? && tx[i].maps[j].len == 0 && (rx[i].queue == [] || arrived[i] <= j))
      && to < rx[i].copiedSeq + TWO_31 / 2
    }

    /** The network delivers a packet; an option that arrives is the mapping's, with a 32- or a 64-bit data number. */
    method PacketArrives(i: nat, j: nat, from: int, to: int, dss: Option<bool>)
      requires Inv() && CanArrive(i, j, from, to, dss)
      modifies this`arrived, rx[i]
      ensures Inv() && rx[i].rcvNxt == to && rx[i].queue == old(rx[i].queue) + [Packet(tx[i], j, from, to, dss)]
      ensures rx[i].owner == old(rx[i].owner) + [j] && arrived == old(arrived)[i := j]
      ensures rx[i].broken == old(rx[i].broken) && rx[i].copiedSeq == old(rx[i].copiedSeq)
      ensures rx[i].mapPresent == old(rx[i].mapPresent) && rx[i].mapDataSeq == old(rx[i].mapDataSeq)
    {
      hide Subflow.Ok, MetaReceive.Safe, MetaReceive.Valid, NoneAfter, TrueNumber;
      var k := Packet(tx[i], j, from, to, dss);
      ghost var a := rx[i].Here();
      OwnersBefore(rx[i], written, tx[i], arrived[i], from, to, j);
      NoneAfterLast(rx[i].owner, j);
      ghost var own := rx[i].owner;
      rx[i].Arrive(k, j, written, tx[i]);
      NoneAfterLast(own, j);
      arrived := arrived[i := j];
      SameNumber(tx[i], a, rx[i].Here(), meta.rcvNxt);
    }

    /** The bytes `from` to `to` of a subflow, with the option of mapping `j` if it arrived. */
    static function Packet(tx: SubTx, j: nat, from: int, to: int, dss: Option<bool>): SubSkb
      requires j < |tx.maps| && tx.isn <= from <= to <= tx.WriteSeq()
    {
      var m := tx.maps[j];
      SubSkb(from, tx.Slice(from, to),
             if dss.Some? then Some(Dss(m.dataSeq, dss.value, m.subSeq, m.DataLen(), m.fin)) else None)
    }

    static lemma NoneAfterLast(owner: seq<nat>, j: nat)
      requires NoneAfter(owner, j)
      ensures NoneAfter(owner + [j], j) && forall t :: 0 <= t < |owner| ==> owner[t] <= j
    {
    }

    static lemma OwnersBefore(sub: Subflow, s: Stream, tx: SubTx, last: nat, from: int, to: int, j: nat)
      requires sub.Ok(s, tx) && NoneAfter(sub.owner, last) && j < |tx.maps| && to <= tx.maps[j].SubEnd()
      requires if from < to then sub.rcvNxt < to else sub.queue == [] || last <= j
      ensures NoneAfter(sub.owner, j)
    {
      if from < to {
        Subflow.NextIsLater(tx, sub.queue, sub.owner, sub.copiedSeq, sub.rcvNxt, to, j);
      }
    }

    /**
     The kernel processes a subflow's receive queue.  The subflow is reset exactly when that is due.  Otherwise nothing
     that is complete is left waiting, and each complete mapping that was due and has its option in the queue has been
     received to its end, unless it starts before the last wrap of `rcvNxt`, as of when its number was read.
     */
    method Process(i: nat, coalesce: nat -> bool, hold: seq<bool>) returns (ghost seen: Option<nat>)
      requires Inv() && i < |rx| && !rx[i].broken
      modifies rx[i], meta`rcvNxt, meta`ofo, meta`rcvQueue, meta`shortcuts, meta`nextId, meta.words
      ensures Inv() && old(meta.rcvNxt) <= meta.rcvNxt
      ensures rx[i].broken <==> rx[i].ResetDue(tx[i], seen)
      ensures !rx[i].broken ==> rx[i].NothingReady(tx[i])
      ensures !rx[i].broken ==> forall t :: 0 <= t < |old(rx[i].queue)| && old(rx[i].queue)[t].dss.Some? ==>
                && t < |old(rx[i].owner)| && old(rx[i].owner)[t] < |tx[i].maps|
                && var m := tx[i].maps[old(rx[i].owner)[t]];
                   m.SubEnd() <= rx[i].rcvNxt && m.dataSeq <= old(meta.rcvNxt) ==>
                     || m.DataEnd() <= meta.rcvNxt
                     || m.dataSeq / TWO_32
                        < (if First(old(rx[i].Here()), t) then old(meta.rcvNxt) else meta.rcvNxt) / TWO_32
      ensures rx[i].rcvNxt == old(rx[i].rcvNxt) && |rx[i].queue| <= |old(rx[i].queue)| == |old(rx[i].owner)|
      ensures rx[i].queue == old(rx[i].queue)[|old(rx[i].queue)| - |rx[i].queue|..]
      ensures rx[i].owner == old(rx[i].owner)[|old(rx[i].queue)| - |rx[i].queue|..]
      ensures |rx[i].queue| == |old(rx[i].queue)| ==> meta.rcvNxt == old(meta.rcvNxt)
      ensures !old(rx[i].mapPresent) ==>
                forall c :: 0 <= c < |tx[i].maps| && OnlyMap(old(rx[i].owner), c) ==>
                  (tx[i].maps[c].dataSeq / TWO_32 < old(meta.rcvNxt) / TWO_32 ==> meta.rcvNxt == old(meta.rcvNxt))
      ensures forall c :: 0 <= c < |tx[i].maps| && OnlyMap(old(rx[i].owner), c) ==>
                (old(meta.ofo) == [] && tx[i].maps[c].dataSeq <= old(meta.rcvNxt) ==>
                   meta.ofo == [] && (meta.rcvNxt <= old(meta.rcvNxt) || meta.rcvNxt <= tx[i].maps[c].DataEnd()))
      ensures TrueNumber(tx[i], rx[i].Here(),
                         if |rx[i].queue| == |old(rx[i].queue)| then old(meta.rcvNxt) else meta.rcvNxt)
    {
      hide Subflow.Ok, MetaReceive.Safe, MetaReceive.Valid, NoneAfter, TrueNumber, Subflow.Here, Subflow.ResetDue;
      hide First, Subflow.NothingReady, OnlyMap;
      ghost var own := rx[i].owner;
      seen := rx[i].DataReady(meta, i, coalesce, hold, written, tx[i]);
      NoneAfterSome(rx[i].owner, own, arrived[i]);
      forall k | 0 <= k < |rx|
        ensures TrueNumber(tx[k], rx[k].Here(), meta.rcvNxt)
      {
        if k != i {
          TrueNumberLater(tx[k], rx[k].Here(), old(meta.rcvNxt), meta.rcvNxt);
        }
      }
    }

    static lemma NoneAfterSome(a: seq<nat>, b: seq<nat>, j: nat)
      requires Subflow.SomeOf(a, b) && NoneAfter(b, j)
      ensures NoneAfter(a, j)
    {
    }

    /** Subflow `k` is not the one whose packet arrives or whose queue is processed. */
    static predicate Elsewhere(e: Event, k: nat) {
      (e.Arrive? ==> k != e.sub) && (e.DataReady? ==> k != e.sub)
    }

    /** One step of a run, and what it does; a step that cannot be taken leaves everything as it is. */
    method Step(e: Event) returns (ghost seen: Option<nat>)
      requires Inv()
      modifies this`written, this`tx, this`arrived, rx, meta, meta.words
      ensures Inv() && old(meta.rcvNxt) <= meta.rcvNxt
      ensures written == if e.Write? && old(RoomFor(e.cells))
                         then Stream(old(written).base, old(written).cells + e.cells) else old(written)
      ensures forall k :: 0 <= k < |tx| ==>
                tx[k] == if e.Send? && old(CanSend(e.from, e.to, e.on)) then
                           Sent(old(tx)[k], k, e.on, e.from, Payload(old(written).Slice(e.from, e.to)))
                         else old(tx)[k]
      ensures forall k :: 0 <= k < |rx| && Elsewhere(e, k) ==> unchanged(rx[k])
      ensures e.Write? || e.Send? || e.Arrive? ==> unchanged(meta) && unchanged(meta.words)
      ensures e.Arrive? && old(CanArrive(e.sub, e.mapping, e.from, e.to, e.dss)) ==>
                && rx[e.sub].queue == old(rx[e.sub].queue) + [Packet(tx[e.sub], e.mapping, e.from, e.to, e.dss)]
                && rx[e.sub].owner == old(rx[e.sub].owner) + [e.mapping]
                && rx[e.sub].rcvNxt == e.to && rx[e.sub].copiedSeq == old(rx[e.sub].copiedSeq)
                && rx[e.sub].broken == old(rx[e.sub].broken) && rx[e.sub].mapPresent == old(rx[e.sub].mapPresent)
      ensures arrived == if e.Arrive? && old(CanArrive(e.sub, e.mapping, e.from, e.to, e.dss))
                         then old(arrived)[e.sub := e.mapping] else old(arrived)
      ensures e.Arrive? && !old(CanArrive(e.sub, e.mapping, e.from, e.to, e.dss)) && e.sub < |rx| ==>
                unchanged(rx[e.sub])
      ensures e.DataReady? ==> meta.rcvWup == old(meta.rcvWup) && meta.rcvWnd == old(meta.rcvWnd)
      ensures e.DataReady? && e.sub < |rx| && !old(rx[e.sub].broken) ==>
                && (rx[e.sub].broken <==> rx[e.sub].ResetDue(tx[e.sub], seen))
                && (!rx[e.sub].broken ==> rx[e.sub].NothingReady(tx[e.sub]))
                && rx[e.sub].rcvNxt == old(rx[e.sub].rcvNxt)
                && |rx[e.sub].queue| <= |old(rx[e.sub].queue)| == |old(rx[e.sub].owner)|
                && rx[e.sub].queue == old(rx[e.sub].queue)[|old(rx[e.sub].queue)| - |rx[e.sub].queue|..]
                && rx[e.sub].owner == old(rx[e.sub].owner)[|old(rx[e.sub].queue)| - |rx[e.sub].queue|..]
                && (|rx[e.sub].queue| == |old(rx[e.sub].queue)| ==> meta.rcvNxt == old(meta.rcvNxt))
                && TrueNumber(tx[e.sub], rx[e.sub].Here(), if |rx[e.sub].queue| == |old(rx[e.sub].queue)|
                                                           then old(meta.rcvNxt) else meta.rcvNxt)
      ensures e.DataReady? && e.sub < |rx| && !old(rx[e.sub].broken) && !old(rx[e.sub].mapPresent) ==>
                forall c :: 0 <= c < |tx[e.sub].maps| && OnlyMap(old(rx[e.sub].owner), c) ==>
                  (tx[e.sub].maps[c].dataSeq / TWO_32 < old(meta.rcvNxt) / TWO_32 ==>
                     meta.rcvNxt == old(meta.rcvNxt))
      ensures e.DataReady? && e.sub < |rx| && !old(rx[e.sub].broken) ==>
                forall c :: 0 <= c < |tx[e.sub].maps| && OnlyMap(old(rx[e.sub].owner), c) ==>
                  (old(meta.ofo) == [] && tx[e.sub].maps[c].dataSeq <= old(meta.rcvNxt) ==>
                     && meta.ofo == []
                     && (meta.rcvNxt <= old(meta.rcvNxt) || meta.rcvNxt <= tx[e.sub].maps[c].DataEnd()))
      ensures e.DataReady? && e.sub < |rx| && !old(rx[e.sub].broken) && !rx[e.sub].broken ==>
                forall t :: 0 <= t < |old(rx[e.sub].queue)| && old(rx[e.sub].queue)[t].dss.Some? ==>
                  && t < |old(rx[e.sub].owner)| && old(rx[e.sub].owner)[t] < |tx[e.sub].maps|
                  && var m := tx[e.sub].maps[old(rx[e.sub].owner)[t]];
                     m.SubEnd() <= rx[e.sub].rcvNxt && m.dataSeq <= old(meta.rcvNxt) ==>
                       || m.DataEnd() <= meta.rcvNxt
                       || m.dataSeq / TWO_32
                          < (if First(old(rx[e.sub].Here()), t) then old(meta.rcvNxt) else meta.rcvNxt) / TWO_32
      ensures e.DataReady? && e.sub < |rx| && old(rx[e.sub].broken) ==> unchanged(rx[e.sub])
      ensures e.DataReady? && (e.sub >= |rx| || old(rx[e.sub].broken)) ==> unchanged(meta)
      ensures e.Prune? ==>
                && meta.ofo == [] && meta.rcvNxt == old(meta.rcvNxt) && meta.rcvQueue == old(meta.rcvQueue)
                && meta.rcvWup == old(meta.rcvWup) && meta.rcvWnd == old(meta.rcvWnd)
      ensures e.Advertise? ==>
                && meta.rcvNxt == old(meta.rcvNxt) && meta.rcvQueue == old(meta.rcvQueue) && meta.ofo == old(meta.ofo)
                && meta.rcvWup == (if e.window <= MAX_WINDOW then meta.rcvNxt else old(meta.rcvWup))
                && meta.rcvWnd == (if e.window <= MAX_WINDOW then e.window else old(meta.rcvWnd))
    {
      hide Subflow.Ok, MetaReceive.Safe, MetaReceive.Valid, NoneAfter, TrueNumber, RoomFor, Subflow.Here;
      hide Subflow.ResetDue, First, Subflow.NothingReady, Sent, Payload, Packet, OnlyMap;
      seen := None;
      match e
      case Write(cells) =>
        if RoomFor(cells) {
          WriteData(cells);
        }
      case Send(from, to, on) =>
        if CanSend(from, to, on) {
          SendOn(from, to, on);
        }
      case Arrive(i, j, from, to, dss) =>
        if CanArrive(i, j, from, to, dss) {
          PacketArrives(i, j, from, to, dss);
        }
      case DataReady(i, coalesce, hold) =>
        if i < |rx| && !rx[i].broken {
          seen := Process(i, coalesce, hold);
        }
      case Prune =>
        Forget();
      case Advertise(window) =>
        if window <= MAX_WINDOW {
          Advertise(window);
        }
    }

    method Forget()
      requires Inv()
      modifies meta`ofo, meta`shortcuts
      ensures Inv() && meta.ofo == []
    {
      meta.PurgeOfo();
    }

    method Advertise(window: nat)
      requires Inv() && window <= MAX_WINDOW
      modifies meta`rcvWup, meta`rcvWnd
      ensures Inv() && meta.rcvWup == meta.rcvNxt && meta.rcvWnd == window
    {
      meta.SelectWindow(window);
    }
  }
  /**
   Every run, from the initial state and through any sequence of steps - segments sent once or many times,
   on one subflow or several, arriving in any interleaving, cut anywhere inside their mappings, with options
   missing, with coalescing succeeding or failing, with the out-of-order queue thrown away at any time:
   what the application can read is exactly the sender's stream up to `rcvNxt`.  The stream is what the accepted
   writes wrote, one after the other, and as long as that is less than 2^31 cells, closed by a DATA_FIN if at all,
   every write is accepted.
   */
  method Run(idsn: int, isns: seq<int>, events: seq<Event>) returns (e: Endpoints, ghost accepted: seq<bool>)
    ensures e.Inv() && e.written.base == idsn == e.meta.base
    ensures |accepted| == |events| && e.written.cells == WrittenBy(events, accepted)
    ensures OneClose(WrittenBy(events, seq(|events|, _ => true))) ==>
              e.written.cells == WrittenBy(events, seq(|events|, _ => true))
    ensures idsn <= e.meta.rcvNxt <= e.written.End()
    ensures Chained(idsn, e.meta.rcvQueue)
    ensures Delivered(idsn, e.meta.rcvQueue) == e.written.cells[..e.meta.rcvNxt - idsn]
  {
    hide Subflow.Ok, MetaReceive.Sound, MetaReceive.NoGap, WrittenBy, OneClose;
    e := new Endpoints(idsn, isns);
    accepted := [];
    ghost var all := seq(|events|, _ => true);
    NothingWritten();
    assert events[..0] == [] && all[..0] == [];
    for n := 0 to |events|
      invariant e.Inv() && e.written.base == idsn <= e.meta.rcvWup
      invariant fresh(e) && fresh(e.meta) && fresh(e.meta.words) && forall i :: 0 <= i < |e.rx| ==> fresh(e.rx[i])
      invariant |accepted| == n && e.written.cells == WrittenBy(events[..n], accepted)
      invariant OneClose(WrittenBy(events, all)) ==> e.written.cells == WrittenBy(events[..n], all[..n])
    {
      ghost var room := events[n].Write? && e.RoomFor(events[n].cells);
      WriteNext(events, accepted, room, n);
      WriteNext(events, all[..n], true, n);
      assert all[..n + 1] == all[..n] + [true];
      if events[n].Write? && OneClose(WrittenBy(events, all)) {
        WritePrefix(events, all, n);
        e.RoomBelow(events[n].cells);
      }
      if events[n].Advertise? {
        e.meta.SafeMeansStream(e.written);
      }
      ghost var _ := e.Step(events[n]);
      accepted := accepted + [room];
    }
    assert events[..|events|] == events && all[..|events|] == all;
    e.meta.SafeMeansStream(e.written);
  }

  /** The cells of the accepted writes, one after the other. */
  ghost function WrittenBy(events: seq<Event>, accepted: seq<bool>): seq<Cell>
    requires |accepted| == |events|
  {
    if events == [] then []
    else
      var n := |events| - 1;
      WrittenBy(events[..n], accepted[..n]) + (if events[n].Write? && accepted[n] then events[n].cells else [])
  }

  /** Fewer than 2^31 cells, and nothing behind a DATA_FIN. */
  ghost predicate OneClose(cells: seq<Cell>) {
    |cells| < TWO_31 && forall i :: 0 <= i < |cells| - 1 ==> cells[i] != DataFin
  }

  lemma NothingWritten()
    ensures WrittenBy([], []) == []
  {
  }

  lemma WriteNext(events: seq<Event>, accepted: seq<bool>, room: bool, n: nat)
    requires n < |events| && |accepted| == n
    ensures WrittenBy(events[..n + 1], accepted + [room])
         == WrittenBy(events[..n], accepted) + (if events[n].Write? && room then events[n].cells else [])
  {
    assert events[..n + 1][..n] == events[..n] && (accepted + [room])[..n] == accepted;
  }

  /** What the first writes wrote is closed at most once if the whole is. */
  lemma {:induction false} WritePrefix(events: seq<Event>, all: seq<bool>, n: nat)
    requires n < |events| == |all| && all[n] && events[n].Write? && OneClose(WrittenBy(events, all))
    ensures OneClose(WrittenBy(events[..n], all[..n]) + events[n].cells)
  {
    var m := |events| - 1;
    if n < m {
      OneCloseFront(WrittenBy(events[..m], all[..m]), if events[m].Write? && all[m] then events[m].cells else []);
      WritePrefix(events[..m], all[..m], n);
      assert events[..m][..n] == events[..n] && all[..m][..n] == all[..n];
    }
  }

  lemma OneCloseFront(a: seq<Cell>, b: seq<Cell>)
    requires OneClose(a + b)
    ensures OneClose(a)
  {
    forall i | 0 <= i < |a| - 1
      ensures a[i] != DataFin
    {
      assert (a + b)[i] == a[i];
    }
  }
}

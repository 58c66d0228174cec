/**
 What a connection achieves: a segment that is sent on an idle subflow, arrives in order and is processed can be read,
 and so can everything that is written and sent like that.
 */
module Delivery {
  import opened Common
  import opened SeqArith
  import opened DataStream
  import opened HighOrder
  import opened Mappings
  import opened MetaSock
  import opened SubflowRx
  import opened Connection

  /** Where a packet ends, counted from the start of its mapping, and its DSS option, 64-bit or not, if that arrives. */
  datatype Cut = Cut(end: nat, dss: Option<bool>)

  /** The packets of a mapping of `len` bytes: each brings something new, and with one of them the option arrives. */
  predicate CutsUp(cuts: seq<Cut>, len: nat) {
    && cuts != [] && cuts[|cuts| - 1].end == len
    && (exists t :: 0 <= t < |cuts| && cuts[t].dss.Some?)
    && (if len == 0 then |cuts| == 1 else cuts[0].end > 0)
    && (forall t, u :: 0 <= t < u < |cuts| ==> cuts[t].end < cuts[u].end)
  }

  function StartOf(cuts: seq<Cut>, t: nat): nat
    requires t <= |cuts|
  {
    if t == 0 then 0 else cuts[t - 1].end
  }

  lemma CutsGrow(cuts: seq<Cut>, len: nat, t: nat)
    requires CutsUp(cuts, len) && t <= |cuts|
    ensures StartOf(cuts, t) <= len && (0 < t < |cuts| ==> 0 < StartOf(cuts, t))
    ensures t < |cuts| ==> StartOf(cuts, t) <= cuts[t].end <= len
    ensures t < |cuts| && StartOf(cuts, t) == cuts[t].end ==> len == 0 && t == 0 && cuts[t].dss.Some?
  {
  }

  lemma SentOnce(tx: SubTx, k: int, i: nat, from: int, p: (seq<Cell>, bool))
    ensures Endpoints.Sent(tx, k, [i], from, p) == if k == i then Entail(tx, from, p.0, p.1) else tx
  {
    assert [i][..0] == [];
    assert Endpoints.Sent(tx, k, [], from, p) == tx;
  }

  /** The first `n` packets of the last mapping of `tx`, in a queue. */
  ghost predicate LaidOut(tx: SubTx, cuts: seq<Cut>, q: seq<SubSkb>, own: seq<nat>, n: nat) {
    && tx.maps != [] && |q| == |own| == n <= |cuts|
    && forall t {:trigger q[t]} {:trigger own[t]} :: 0 <= t < n ==>
         && own[t] == |tx.maps| - 1 && q[t].seqNo == tx.maps[|tx.maps| - 1].subSeq + StartOf(cuts, t)
         && (q[t].dss.Some? <==> cuts[t].dss.Some?)
  }

  /** The subflow when `n` packets of its last mapping have arrived and nothing else is there. */
  ghost predicate Lying(sub: Subflow, tx: SubTx, cuts: seq<Cut>, n: nat)
    reads sub
  {
    && LaidOut(tx, cuts, sub.queue, sub.owner, n) && !sub.broken && !sub.mapPresent
    && sub.rcvNxt == tx.maps[|tx.maps| - 1].subSeq + StartOf(cuts, n) && sub.copiedSeq == tx.maps[|tx.maps| - 1].subSeq
  }

  lemma LaidOneMore(tx: SubTx, cuts: seq<Cut>, q: seq<SubSkb>, own: seq<nat>, n: nat, k: SubSkb)
    requires LaidOut(tx, cuts, q, own, n) && n < |cuts|
    requires k.seqNo == tx.maps[|tx.maps| - 1].subSeq + StartOf(cuts, n) && (k.dss.Some? <==> cuts[n].dss.Some?)
    ensures LaidOut(tx, cuts, q + [k], own + [|tx.maps| - 1], n + 1)
  {
  }

  /** An idle subflow has nothing pending. */
  lemma IdleIsEmpty(s: Stream, tx: SubTx, sub: Subflow)
    requires sub.Ok(s, tx) && sub.queue == []
    ensures sub.owner == [] && !sub.mapPresent && sub.copiedSeq == sub.rcvNxt
  {
  }

  /** If something is left, nothing was taken off, because the queue starts at the mapping's first byte. */
  lemma HeadLeft(s: Stream, tx: SubTx, sub: Subflow, cuts: seq<Cut>, q: seq<SubSkb>, own: seq<nat>)
    requires sub.Ok(s, tx) && LaidOut(tx, cuts, q, own, |cuts|) && CutsUp(cuts, tx.maps[|tx.maps| - 1].len)
    requires 0 < |sub.queue| <= |cuts| && sub.queue == q[|cuts| - |sub.queue|..]
    requires sub.owner == own[|cuts| - |sub.queue|..]
    ensures |sub.queue| == |cuts| && sub.queue == q && sub.copiedSeq == tx.maps[|tx.maps| - 1].subSeq
    ensures sub.mapPresent ==> sub.cur == |tx.maps| - 1
  {
    hide TxHonest, PktHonest, InOrder, Front, Boundary, PendingFrom, Tiles, CutsUp;
    var d := |cuts| - |sub.queue|;
    HeadAtMapStart(tx, sub.queue, sub.owner, sub.copiedSeq, sub.rcvNxt);
    assert sub.queue[0] == q[d] && sub.owner[0] == own[d];
    CutsGrow(cuts, tx.maps[|tx.maps| - 1].len, d);
  }

  /** One mapping is not too much without an option. */
  lemma QueueIsShort(s: Stream, tx: SubTx, sub: Subflow, m: Mapping)
    requires sub.Ok(s, tx) && MapHonest(s, tx, m) && sub.copiedSeq == m.subSeq && sub.rcvNxt == m.SubEnd()
    ensures !sub.TooMuchWithoutOption()
  {
  }

  /** A mapping that does not start before the last wrap was not flagged. */
  lemma NotOutside(tx: SubTx, sub: Subflow, nxt: int)
    requires TrueNumber(tx, sub.Here(), nxt)
    requires sub.mapPresent && sub.cur < |tx.maps| ==> nxt / TWO_32 <= tx.maps[sub.cur].dataSeq / TWO_32
    ensures !sub.OutsideArray(tx)
  {
    if sub.mapPresent {
      Subflow.NotFlagged(sub.mapDataSeq, tx.maps[sub.cur].dataSeq);
    }
  }

  /** After the walk nothing is left of a mapping that was complete, due and not from before the last wrap. */
  lemma NothingLeft(s: Stream, tx: SubTx, sub: Subflow, cuts: seq<Cut>, q: seq<SubSkb>, own: seq<nat>, nxt0: int,
                    nxt: int, seen: Option<nat>)
    requires sub.Ok(s, tx) && LaidOut(tx, cuts, q, own, |cuts|) && CutsUp(cuts, tx.maps[|tx.maps| - 1].len)
    requires sub.rcvNxt == tx.maps[|tx.maps| - 1].SubEnd()
    requires |sub.queue| <= |cuts| && sub.queue == q[|cuts| - |sub.queue|..]
    requires sub.owner == own[|cuts| - |sub.queue|..]
    requires TrueNumber(tx, sub.Here(), if |sub.queue| == |cuts| then nxt0 else nxt)
    requires sub.broken <==> sub.ResetDue(tx, seen)
    requires !sub.broken ==> sub.NothingReady(tx)
    ensures nxt0 / TWO_32 <= tx.maps[|tx.maps| - 1].dataSeq / TWO_32 ==> !sub.broken && sub.queue == []
  {
    if nxt0 / TWO_32 <= tx.maps[|tx.maps| - 1].dataSeq / TWO_32 {
      NothingLeftNow(s, tx, sub, cuts, q, own, nxt0, nxt, seen);
    }
  }

  lemma NothingLeftNow(s: Stream, tx: SubTx, sub: Subflow, cuts: seq<Cut>, q: seq<SubSkb>, own: seq<nat>, nxt0: int,
                       nxt: int, seen: Option<nat>)
    requires sub.Ok(s, tx) && LaidOut(tx, cuts, q, own, |cuts|) && CutsUp(cuts, tx.maps[|tx.maps| - 1].len)
    requires nxt0 / TWO_32 <= tx.maps[|tx.maps| - 1].dataSeq / TWO_32 && sub.rcvNxt == tx.maps[|tx.maps| - 1].SubEnd()
    requires |sub.queue| <= |cuts| && sub.queue == q[|cuts| - |sub.queue|..]
    requires sub.owner == own[|cuts| - |sub.queue|..]
    requires TrueNumber(tx, sub.Here(), if |sub.queue| == |cuts| then nxt0 else nxt)
    requires sub.broken <==> sub.ResetDue(tx, seen)
    requires !sub.broken ==> sub.NothingReady(tx)
    ensures !sub.broken && sub.queue == []
  {
    hide *;
    LaidSizes(tx, cuts, q, own, |cuts|);
    if sub.queue == [] {
      EmptyNotDue(tx, sub, seen);
    } else {
      HeadLeft(s, tx, sub, cuts, q, own);
      LastHonest(s, tx, sub);
      QueueIsShort(s, tx, sub, tx.maps[|tx.maps| - 1]);
      NotOutside(tx, sub, nxt0);
      NotDue(tx, sub, seen);
      SomeOption(tx, cuts, q, own);
      SomethingReady(tx, sub);
    }
  }

  lemma EmptyNotDue(tx: SubTx, sub: Subflow, seen: Option<nat>)
    requires sub.queue == []
    ensures !sub.ResetDue(tx, seen)
  {
  }

  lemma NotDue(tx: SubTx, sub: Subflow, seen: Option<nat>)
    requires !sub.TooMuchWithoutOption() && !sub.OutsideArray(tx)
    ensures !sub.ResetDue(tx, seen)
  {
  }

  lemma SomethingReady(tx: SubTx, sub: Subflow)
    requires sub.mapPresent ==> sub.cur < |tx.maps| && tx.maps[sub.cur].SubEnd() <= sub.rcvNxt
    requires exists t :: 0 <= t < |sub.queue| && sub.queue[t].dss.Some?
    ensures !sub.NothingReady(tx)
  {
  }

  lemma LastHonest(s: Stream, tx: SubTx, sub: Subflow)
    requires sub.Ok(s, tx) && tx.maps != []
    ensures MapHonest(s, tx, tx.maps[|tx.maps| - 1])
    ensures var m := tx.maps[|tx.maps| - 1];
            tx.isn <= m.subSeq && m.SubEnd() <= tx.WriteSeq() && m.len <= MAX_MAPPING
  {
    assert MapHonest(s, tx, tx.maps[|tx.maps| - 1]);
  }

  lemma SomeOption(tx: SubTx, cuts: seq<Cut>, q: seq<SubSkb>, own: seq<nat>)
    requires LaidOut(tx, cuts, q, own, |cuts|) && CutsUp(cuts, tx.maps[|tx.maps| - 1].len)
    ensures exists t :: 0 <= t < |q| && q[t].dss.Some?
  {
    var t :| 0 <= t < |cuts| && cuts[t].dss.Some?;
    assert q[t].dss.Some?;
  }

  /** All packets are of one mapping, so each is of the first one with an option. */
  lemma AllFirst(tx: SubTx, cuts: seq<Cut>, z: Standing, t: nat)
    requires LaidOut(tx, cuts, z.q, z.own, |cuts|) && t < |cuts| && !z.present
    ensures First(z, t) && z.own[t] == |tx.maps| - 1
  {
  }

  /** A segment goes out on one subflow that is idle. */
  method SendSegment(e: Endpoints, i: nat, from: int, to: int)
    requires e.Inv() && i < |e.rx| && e.Idle(i) && e.CanSend(from, to, [i])
    modifies e`written, e`tx, e`arrived, e.rx, e.meta, e.meta.words
    ensures e.Inv() && e.written == old(e.written) && unchanged(e.meta) && unchanged(e.rx)
    ensures var p := Endpoints.Payload(e.written.Slice(from, to));
            e.tx == old(e.tx)[i := Entail(old(e.tx)[i], from, p.0, p.1)]
    ensures !e.rx[i].mapPresent && e.rx[i].owner == [] && e.rx[i].copiedSeq == e.rx[i].rcvNxt
  {
    hide Subflow.Ok, MetaReceive.Safe, MetaReceive.Valid, Subflow.ResetDue, Subflow.NothingReady, TrueNumber, First;
    hide Endpoints.Payload, Entail, Endpoints.Sent;
    IdleIsEmpty(e.written, e.tx[i], e.rx[i]);
    ghost var p := Endpoints.Payload(e.written.Slice(from, to));
    ghost var tx := e.tx;
    forall k | 0 <= k < |tx| {
      SentOnce(tx[k], k, i, from, p);
    }
    ghost var _ := e.Step(Send(from, to, [i]));
  }

  /** The other subflows of `ids` have nothing pending. */
  ghost predicate OthersIdle(e: Endpoints, i: nat, ids: set<nat>)
    reads e, e.rx
  {
    |e.tx| == |e.rx| && forall k :: k in ids && k != i ==> k < |e.rx| && e.Idle(k)
  }

  /** The next packet arrives. */
  method OnePacket(e: Endpoints, i: nat, cuts: seq<Cut>, n: nat, ghost ids: set<nat>)
    requires OthersIdle(e, i, ids) && e.Inv() && i < |e.rx| && n < |cuts| && Lying(e.rx[i], e.tx[i], cuts, n)
    requires CutsUp(cuts, e.tx[i].maps[|e.tx[i].maps| - 1].len)
    modifies e`written, e`tx, e`arrived, e.rx, e.meta, e.meta.words
    ensures e.Inv() && e.tx == old(e.tx) && e.written == old(e.written) && unchanged(e.meta)
    ensures Lying(e.rx[i], e.tx[i], cuts, n + 1)
    ensures OthersIdle(e, i, ids)
  {
    hide Subflow.Ok, MetaReceive.Safe, MetaReceive.Valid, Subflow.ResetDue, Subflow.NothingReady, TrueNumber, First;
    hide LaidOut, CutsUp, Endpoints.NoneAfter;
    LaidSizes(e.tx[i], cuts, e.rx[i].queue, e.rx[i].owner, n);
    var j := |e.tx[i].maps| - 1;
    var m := e.tx[i].maps[j];
    OnePacketFits(e.written, e.tx[i], e.rx[i], cuts, n);
    var from, to := m.subSeq + StartOf(cuts, n), m.subSeq + cuts[n].end;
    LaidOneMore(e.tx[i], cuts, e.rx[i].queue, e.rx[i].owner, n, Endpoints.Packet(e.tx[i], j, from, to, cuts[n].dss));
    ghost var _ := e.Step(Arrive(i, j, from, to, cuts[n].dss));
  }

  /** The packets arrive one after the other. */
  method AllPackets(e: Endpoints, i: nat, cuts: seq<Cut>, ghost ids: set<nat>)
    requires OthersIdle(e, i, ids) && e.Inv() && i < |e.rx| && Lying(e.rx[i], e.tx[i], cuts, 0)
    requires CutsUp(cuts, e.tx[i].maps[|e.tx[i].maps| - 1].len)
    modifies e`written, e`tx, e`arrived, e.rx, e.meta, e.meta.words
    ensures e.Inv() && e.tx == old(e.tx) && e.written == old(e.written) && unchanged(e.meta)
    ensures Lying(e.rx[i], e.tx[i], cuts, |cuts|)
    ensures OthersIdle(e, i, ids)
  {
    hide *;
    ghost var tx := e.tx;
    var n := 0;
    Sizes(e);
    while n < |cuts|
      invariant 0 <= n <= |cuts| && e.Inv() && e.tx == tx && e.written == old(e.written) && unchanged(e.meta)
      invariant Lying(e.rx[i], e.tx[i], cuts, n)
      invariant OthersIdle(e, i, ids)
    {
      OnePacket(e, i, cuts, n, ids);
      n := n + 1;
    }
  }

  lemma OnePacketFits(s: Stream, tx: SubTx, sub: Subflow, cuts: seq<Cut>, n: nat)
    requires sub.Ok(s, tx) && n < |cuts| && Lying(sub, tx, cuts, n) && CutsUp(cuts, tx.maps[|tx.maps| - 1].len)
    ensures tx.maps != [] && |sub.queue| == n
    ensures var m := tx.maps[|tx.maps| - 1];
            && tx.isn <= m.subSeq && m.SubEnd() <= tx.WriteSeq() && m.len <= MAX_MAPPING
            && StartOf(cuts, n) <= cuts[n].end <= m.len && (StartOf(cuts, n) == cuts[n].end ==>
                  m.len == 0 && n == 0 && cuts[n].dss.Some?)
  {
    hide TxHonest, RxOk, PendingFrom, MapHonest, Subflow.Ok, LaidOut, StartOf, CutsUp;
    LaidSizes(tx, cuts, sub.queue, sub.owner, n);
    LastHonest(s, tx, sub);
    CutsGrow(cuts, tx.maps[|tx.maps| - 1].len, n);
  }

  /** The queue is processed: what lay there, a whole mapping, is received. */
  method ProcessQueue(e: Endpoints, i: nat, cuts: seq<Cut>, coalesce: nat -> bool, hold: seq<bool>,
                      ghost ids: set<nat>)
    requires OthersIdle(e, i, ids) && e.Inv() && i < |e.rx| && Lying(e.rx[i], e.tx[i], cuts, |cuts|)
    requires var m := e.tx[i].maps[|e.tx[i].maps| - 1];
             CutsUp(cuts, m.len) && m.dataSeq <= e.meta.rcvNxt
    modifies e`written, e`tx, e`arrived, e.rx, e.meta, e.meta.words
    ensures e.Inv() && e.tx == old(e.tx) && e.written == old(e.written) && e.meta.rcvWup == old(e.meta.rcvWup)
    ensures old(e.meta.rcvNxt) <= e.meta.rcvNxt
    ensures var m := e.tx[i].maps[|e.tx[i].maps| - 1];
            if old(e.meta.rcvNxt) / TWO_32 <= m.dataSeq / TWO_32 then
              && !e.rx[i].broken && e.rx[i].queue == [] && e.rx[i].rcvNxt == old(e.rx[i].rcvNxt)
              && m.DataEnd() <= e.meta.rcvNxt
            else e.meta.rcvNxt == old(e.meta.rcvNxt)
    ensures old(e.meta.ofo) == [] ==>
              && e.meta.ofo == []
              && e.meta.rcvNxt <= Later(old(e.meta.rcvNxt), e.tx[i].maps[|e.tx[i].maps| - 1].DataEnd())
    ensures OthersIdle(e, i, ids)
  {
    hide Subflow.Ok, Endpoints.Inv, MetaReceive.Safe, Subflow.ResetDue, Subflow.NothingReady, TrueNumber, First;
    hide LaidOut, CutsUp, Lying, OnlyMap, OthersIdle, StartOf, Subflow.Here;
    Sizes(e);
    ghost var z, nxt0, c := e.rx[i].Here(), e.meta.rcvNxt, |e.tx[i].maps| - 1;
    e.rx[i].HereIs();
    LyingWhole(e.rx[i], e.tx[i], cuts);
    SomeOption(e.tx[i], cuts, z.q, z.own);
    ghost var t :| 0 <= t < |z.q| && z.q[t].dss.Some?;
    AllFirst(e.tx[i], cuts, z, t);
    OnlyLast(e.tx[i], cuts, z.q, z.own);
    ghost var seen := ReadyStep(e, i, t, c, coalesce, hold, ids);
    Sizes(e);
    NothingLeft(e.written, e.tx[i], e.rx[i], cuts, z.q, z.own, nxt0, e.meta.rcvNxt, seen);
    LaterIs(nxt0, e.tx[i].maps[c].DataEnd());
  }

  /** The step, for a queue with packets of mapping `c` alone, that of packet `t` with its option. */
  method ReadyStep(e: Endpoints, i: nat, ghost t: nat, ghost c: nat, coalesce: nat -> bool, hold: seq<bool>,
                   ghost ids: set<nat>)
    returns (ghost seen: Option<nat>)
    requires OthersIdle(e, i, ids) && e.Inv() && i < |e.rx| && !e.rx[i].broken
    requires t < |e.rx[i].queue| == |e.rx[i].owner| && e.rx[i].queue[t].dss.Some?
    requires First(e.rx[i].Here(), t) && OnlyMap(e.rx[i].owner, c) && c == e.rx[i].owner[t]
    requires c < |e.tx[i].maps| && e.tx[i].maps[c].SubEnd() <= e.rx[i].rcvNxt
    requires e.tx[i].maps[c].dataSeq <= e.meta.rcvNxt && !e.rx[i].mapPresent
    modifies e`written, e`tx, e`arrived, e.rx, e.meta, e.meta.words
    ensures e.Inv() && e.tx == old(e.tx) && e.written == old(e.written) && e.meta.rcvWup == old(e.meta.rcvWup)
    ensures old(e.meta.rcvNxt) <= e.meta.rcvNxt && OthersIdle(e, i, ids) && e.rx[i].rcvNxt == old(e.rx[i].rcvNxt)
    ensures e.rx[i].broken <==> e.rx[i].ResetDue(e.tx[i], seen)
    ensures !e.rx[i].broken ==> e.rx[i].NothingReady(e.tx[i])
    ensures if old(e.meta.rcvNxt) / TWO_32 <= e.tx[i].maps[c].dataSeq / TWO_32
            then !e.rx[i].broken ==> e.tx[i].maps[c].DataEnd() <= e.meta.rcvNxt
            else e.meta.rcvNxt == old(e.meta.rcvNxt)
    ensures var q, own := old(e.rx[i].queue), old(e.rx[i].owner);
            && |e.rx[i].queue| <= |q| == |own|
            && e.rx[i].queue == q[|q| - |e.rx[i].queue|..] && e.rx[i].owner == own[|q| - |e.rx[i].queue|..]
            && TrueNumber(e.tx[i], e.rx[i].Here(),
                          if |e.rx[i].queue| == |q| then old(e.meta.rcvNxt) else e.meta.rcvNxt)
    ensures old(e.meta.ofo) == [] ==>
              && e.meta.ofo == []
              && (e.meta.rcvNxt <= old(e.meta.rcvNxt) || e.meta.rcvNxt <= e.tx[i].maps[c].DataEnd())
  {
    hide Subflow.Ok, MetaReceive.Safe, MetaReceive.Valid, Subflow.ResetDue, Subflow.NothingReady, TrueNumber, First;
    hide Endpoints.NoneAfter, OnlyMap, SubTx.WriteSeq, Subflow.Here;
    seen := e.Step(DataReady(i, coalesce, hold));
  }

  lemma LaterIs(a: int, b: int)
    ensures Later(a, b) == if a > b then a else b
  {
  }

  function Later(a: int, b: int): int {
    if a > b then a else b
  }

  lemma OnlyLast(tx: SubTx, cuts: seq<Cut>, q: seq<SubSkb>, own: seq<nat>)
    requires LaidOut(tx, cuts, q, own, |cuts|)
    ensures OnlyMap(own, |tx.maps| - 1)
  {
  }

  lemma LyingWhole(sub: Subflow, tx: SubTx, cuts: seq<Cut>)
    requires Lying(sub, tx, cuts, |cuts|) && CutsUp(cuts, tx.maps[|tx.maps| - 1].len)
    ensures LaidOut(tx, cuts, sub.queue, sub.owner, |cuts|) && tx.maps != [] && !sub.broken && !sub.mapPresent
    ensures |sub.queue| == |sub.owner| == |cuts| && sub.rcvNxt == tx.maps[|tx.maps| - 1].SubEnd()
  {
  }

  lemma LaidSizes(tx: SubTx, cuts: seq<Cut>, q: seq<SubSkb>, own: seq<nat>, n: nat)
    requires LaidOut(tx, cuts, q, own, n)
    ensures |q| == |own| == n && tx.maps != []
  {
  }

  /**
   A segment is sent on an idle subflow, arrives in order in any pieces, with its option on at least one of them, and
   is processed.  If it was due, then exactly unless it starts before the last wrap of `rcvNxt` and reaches beyond that,
   it has been received to its end - and no further if nothing was queued out of order - and the subflow is idle again.
   */
  method Transfer(e: Endpoints, i: nat, from: int, to: int, cuts: seq<Cut>, coalesce: nat -> bool, hold: seq<bool>)
    requires e.Inv() && i < |e.rx| && e.Idle(i) && e.CanSend(from, to, [i])
    requires from <= e.meta.rcvNxt
    requires CutsUp(cuts, |Endpoints.Payload(e.written.Slice(from, to)).0|)
    modifies e`written, e`tx, e`arrived, e.rx, e.meta, e.meta.words
    ensures e.Inv() && e.written == old(e.written) && e.meta.rcvWup == old(e.meta.rcvWup)
    ensures to <= e.meta.rcvNxt <==> to <= old(e.meta.rcvNxt) || old(e.meta.rcvNxt) / TWO_32 <= from / TWO_32
    ensures old(e.meta.rcvNxt) / TWO_32 <= from / TWO_32 ==> e.Idle(i)
    ensures old(e.meta.rcvNxt) / TWO_32 > from / TWO_32 ==> e.meta.rcvNxt == old(e.meta.rcvNxt)
    ensures old(e.meta.ofo) == [] ==> e.meta.ofo == [] && e.meta.rcvNxt <= Later(old(e.meta.rcvNxt), to)
    ensures forall k :: 0 <= k < |e.rx| && k != i && old(e.Idle(k)) ==> e.Idle(k)
  {
    hide Subflow.Ok, MetaReceive.Safe, MetaReceive.Valid, TrueNumber, CutsUp, Endpoints.NoneAfter, Endpoints.Inv;
    hide Endpoints.Payload;
    ghost var p := Endpoints.Payload(e.written.Slice(from, to));
    Sizes(e);
    SendSegment(e, i, from, to);
    Sizes(e);
    NothingLies(e.rx[i], e.tx[i], cuts);
    CutsEnd(cuts, |p.0|);
    ghost var ids := set k: nat | k < |e.rx| && k != i && old(e.Idle(k));
    AllPackets(e, i, cuts, ids);
    ProcessQueue(e, i, cuts, coalesce, hold, ids);
    assert forall k :: 0 <= k < |e.rx| && k != i && old(e.Idle(k)) ==> k in ids;
    Sizes(e);
  }

  lemma Sizes(e: Endpoints)
    requires e.Inv()
    ensures |e.tx| == |e.rx| && forall i :: 0 <= i < |e.rx| ==> e.rx[i].Ok(e.written, e.tx[i])
  {
  }

  lemma NothingLies(sub: Subflow, tx: SubTx, cuts: seq<Cut>)
    requires sub.queue == [] && sub.owner == [] && !sub.broken && !sub.mapPresent && tx.maps != []
    requires sub.rcvNxt == sub.copiedSeq == tx.maps[|tx.maps| - 1].subSeq
    ensures Lying(sub, tx, cuts, 0)
  {
  }

  lemma CutsEnd(cuts: seq<Cut>, len: nat)
    requires CutsUp(cuts, len)
    ensures StartOf(cuts, |cuts|) == len
  {
  }

  /** How one segment travels: up to where, on which subflow, in which packets, and what its reader does meanwhile. */
  datatype Hop = Hop(to: int, sub: nat, cuts: seq<Cut>, coalesce: nat -> bool, hold: seq<bool>)

  /** Where segment `n` starts. */
  function From(base: int, plan: seq<Hop>, n: nat): int
    requires n <= |plan|
  {
    if n == 0 then base else plan[n - 1].to
  }

  /** Segment `n` of the plan is one that can be sent. */
  predicate HopOk(s: Stream, plan: seq<Hop>, n: nat, subflows: nat)
    requires n < |plan|
  {
    && s.base <= From(s.base, plan, n) < plan[n].to <= s.End() && plan[n].to - From(s.base, plan, n) <= MAX_MAPPING
    && plan[n].sub < subflows
    && CutsUp(plan[n].cuts, |Endpoints.Payload(s.Slice(From(s.base, plan, n), plan[n].to)).0|)
  }

  /**
   From the first byte to the last: whatever is written, cut into segments in any way, each sent on any subflow and
   arriving in any pieces, all of it can be read, however often the 32-bit numbers wrap in between.
   */
  method WriteAndRead(idsn: int, isns: seq<int>, cells: seq<Cell>, plan: seq<Hop>) returns (e: Endpoints)
    requires OneClose(cells)
    requires forall n :: 0 <= n < |plan| ==> HopOk(Stream(idsn, cells), plan, n, |isns|)
    requires From(idsn, plan, |plan|) == idsn + |cells|
    ensures e.Inv() && e.written == Stream(idsn, cells)
    ensures Delivered(idsn, e.meta.rcvQueue) == cells
  {
    CloseMeans(cells);
    hide Endpoints.Inv, HopOk, OneClose, Endpoints.Idle;
    e := WriteAll(idsn, isns, cells);
    SendPlan(e, plan);
    Reading(e);
    assert cells[..|cells|] == cells;
  }

  /** The segments of the plan, one after the other. */
  method SendPlan(e: Endpoints, plan: seq<Hop>)
    requires e.Inv() && AllIdle(e) && |e.written.cells| < TWO_31
    requires e.meta.rcvNxt == e.written.base && e.meta.ofo == []
    requires forall n :: 0 <= n < |plan| ==> HopOk(e.written, plan, n, |e.rx|)
    modifies e`written, e`tx, e`arrived, e.rx, e.meta, e.meta.words
    ensures e.Inv() && e.written == old(e.written) && e.meta.rcvNxt == From(e.written.base, plan, |plan|)
  {
    hide Endpoints.Inv, CutsUp, Endpoints.Payload, HopOk, Endpoints.CanSend;
    for n := 0 to |plan|
      invariant e.Inv() && e.written == old(e.written) && AllIdle(e)
      invariant e.meta.rcvNxt == From(e.written.base, plan, n) && e.meta.ofo == []
    {
      assert HopOk(e.written, plan, n, |e.rx|);
      HopMeans(e, plan, n);
      var from := From(e.written.base, plan, n);
      Transfer(e, plan[n].sub, from, plan[n].to, plan[n].cuts, plan[n].coalesce, plan[n].hold);
      Sizes(e);
    }
  }

  ghost predicate AllIdle(e: Endpoints)
    reads e, e.rx
  {
    |e.tx| == |e.rx| && forall i :: 0 <= i < |e.rx| ==> e.Idle(i)
  }

  lemma CloseMeans(cells: seq<Cell>)
    requires OneClose(cells)
    ensures |cells| < TWO_31
  {
  }

  method WriteAll(idsn: int, isns: seq<int>, cells: seq<Cell>) returns (e: Endpoints)
    requires OneClose(cells)
    ensures e.Inv() && e.written == Stream(idsn, cells) && e.meta.base == idsn == e.meta.rcvNxt && e.meta.ofo == []
    ensures fresh(e) && fresh(e.meta) && fresh(e.meta.words) && forall i :: 0 <= i < |e.rx| ==> fresh(e.rx[i])
    ensures |e.rx| == |isns| && AllIdle(e)
  {
    hide Subflow.Ok, MetaReceive.Sound, MetaReceive.NoGap, TrueNumber, Endpoints.NoneAfter, Endpoints.Payload;
    e := new Endpoints(idsn, isns);
    assert [] + cells == cells;
    e.RoomBelow(cells);
    ghost var _ := e.Step(Write(cells));
  }

  lemma HopMeans(e: Endpoints, plan: seq<Hop>, n: nat)
    requires n < |plan| && HopOk(e.written, plan, n, |e.rx|) && |e.tx| == |e.rx| && |e.written.cells| < TWO_31
    ensures var from := From(e.written.base, plan, n);
            && e.CanSend(from, plan[n].to, [plan[n].sub]) && plan[n].sub < |e.rx| && from < plan[n].to
            && CutsUp(plan[n].cuts, |Endpoints.Payload(e.written.Slice(from, plan[n].to)).0|)
  {
    hide CutsUp, Endpoints.Payload;
  }

  lemma Reading(e: Endpoints)
    requires e.Inv() && e.meta.base == e.written.base
    ensures e.written.base <= e.meta.rcvNxt <= e.written.End()
    ensures Delivered(e.meta.base, e.meta.rcvQueue) == e.written.cells[..e.meta.rcvNxt - e.written.base]
  {
    hide MetaReceive.Sound, MetaReceive.NoGap;
    e.meta.SafeMeansStream(e.written);
  }

  lemma PlainPayload(c: Cell, base: int, n: nat, from: int, to: int)
    requires c != DataFin && base <= from < to <= base + n
    ensures |Endpoints.Payload(Stream(base, seq(n, _ => c)).Slice(from, to)).0| == to - from
  {
  }

  /**
   A run in which a segment that was due is not received.  Fifteen bytes take `rcv_nxt` over a wrap, to 2^32 + 5; then
   twenty bytes from the same start come as one segment on another subflow, in order and with their option, and are
   processed: the last five are not received, because the start, decoded 2^32 too high, looks out of window.
   */
  method LateSegmentLost(c: Cell) returns (e: Endpoints)
    requires c != DataFin
    ensures e.Inv() && e.written == Stream(TWO_32 - 10, seq(20, _ => c)) && e.meta.rcvNxt == TWO_32 + 5
  {
    hide Endpoints.Inv, Endpoints.Payload, CutsUp, Endpoints.CanSend, Endpoints.Idle, OneClose;
    PlainClose(c, 20);
    var cells := seq(20, _ => c);
    e := WriteAll(TWO_32 - 10, [0, 0], cells);
    Sizes(e);
    PlainPayload(c, TWO_32 - 10, 20, TWO_32 - 10, TWO_32 + 5);
    PlainPayload(c, TWO_32 - 10, 20, TWO_32 - 10, TWO_32 + 10);
    OneCut(15);
    OneCut(20);
    PlainSend(e, 0, TWO_32 - 10, TWO_32 + 5);
    Transfer(e, 0, TWO_32 - 10, TWO_32 + 5, [Cut(15, Some(false))], _ => false, []);
    Sizes(e);
    PlainSend(e, 1, TWO_32 - 10, TWO_32 + 10);
    Transfer(e, 1, TWO_32 - 10, TWO_32 + 10, [Cut(20, Some(false))], _ => false, []);
  }

  lemma PlainClose(c: Cell, n: nat)
    requires c != DataFin && n < TWO_31
    ensures OneClose(seq(n, _ => c))
  {
  }

  lemma PlainSend(e: Endpoints, i: nat, from: int, to: int)
    requires |e.written.cells| == 20 && i < |e.rx|
    requires e.written.base <= from < to <= e.written.End()
    ensures e.CanSend(from, to, [i])
  {
  }

  lemma OneCut(len: nat)
    requires len > 0
    ensures CutsUp([Cut(len, Some(false))], len)
  {
    assert [Cut(len, Some(false))][0].dss.Some?;
  }
}

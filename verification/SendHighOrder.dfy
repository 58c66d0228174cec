/**
 High-order words on the sending side: the two-entry array, the index bit remembered by every segment,
 and the rewind done when the peer reports a checksum failure (MP_FAIL).
 */
module SendHighOrder {
  import opened SeqArith
  import opened HighOrder

  /** The array and its index, as a value. */
  datatype SndWords = SndWords(high: seq<int>, index: nat)

  ghost predicate Tracks(w: SndWords, n: int) {
    SndTracks(w.high, w.index, n)
  }

  /** `mptcp_check_sndseq_wrap` as a function of the array. */
  function AfterSend(w: SndWords, sndNxt: int, inc: nat): (r: SndWords)
    requires |w.high| == 2 && w.index < 2
    ensures |r.high| == 2 && r.index < 2
  {
    if Low32(sndNxt) > Low32(sndNxt + inc) then
      var i := if w.index == 1 then 0 else 1;
      SndWords(w.high[i := (w.high[i] + 2) % TWO_32], i)
    else w
  }

  /** The array part of the rewind in `mptcp_mp_fail_rcvd`. */
  function AfterRewind(w: SndWords, sndNxt: int, sndUna: int): (r: SndWords)
    requires |w.high| == 2 && w.index < 2
    ensures |r.high| == 2 && r.index < 2
  {
    if Low32(sndNxt) < Low32(sndUna)
    then SndWords(w.high[w.index := (w.high[w.index] - 2) % TWO_32], if w.index == 1 then 0 else 1)
    else w
  }

  /** Sending `inc` new bytes moves the array from `sndNxt` to `sndNxt + inc`. */
  lemma SendKeepsTracking(w: SndWords, sndNxt: int, inc: nat)
    requires Tracks(w, sndNxt) && inc < TWO_32
    ensures Tracks(AfterSend(w, sndNxt, inc), sndNxt + inc)
  {
    var n := sndNxt + inc;
    EpochOfAdvance(sndNxt, n);
    EpochSplit(sndNxt);
    EpochSplit(n);
    if Low32(sndNxt) > Low32(n) {
      HighPlusTwo(sndNxt - TWO_32);
      High32OfEpoch(n, sndNxt + TWO_32);
    } else {
      High32OfEpoch(n, sndNxt);
    }
  }

  /** Rewinding takes the array back from `sndNxt` to `sndUna`. */
  lemma RewindKeepsTracking(w: SndWords, sndNxt: int, sndUna: int)
    requires Tracks(w, sndNxt) && sndUna <= sndNxt < sndUna + TWO_32
    ensures Tracks(AfterRewind(w, sndNxt, sndUna), sndUna)
  {
    EpochOfAdvance(sndUna, sndNxt);
    EpochSplit(sndNxt);
    EpochSplit(sndUna);
    if Low32(sndNxt) < Low32(sndUna) {
      HighPlusTwo(sndNxt);
      High32OfEpoch(sndUna, sndNxt - TWO_32);
    } else {
      High32OfEpoch(sndUna, sndNxt);
    }
  }

  /** The rewind is the exact inverse of the sends it undoes: same words, same index. */
  lemma RewindUndoesSend(w: SndWords, sndUna: int, inc: nat)
    requires Tracks(w, sndUna) && inc < TWO_32
    ensures AfterRewind(AfterSend(w, sndUna, inc), sndUna + inc, sndUna) == w
  {
    assert 0 <= w.high[0] < TWO_32 && 0 <= w.high[1] < TWO_32;
    var s := AfterSend(w, sndUna, inc);
    if Low32(sndUna) > Low32(sndUna + inc) {
      assert ((w.high[s.index] + 2) % TWO_32 - 2) % TWO_32 == w.high[s.index];
      assert AfterRewind(s, sndUna + inc, sndUna).high == w.high;
    }
  }

  /**
   After a rewind the head segment may start below `sndNxt`, because only part of it was acknowledged.
   The wrap test adds the whole segment length to `sndNxt`, while `sndNxt` then moves to the segment's
   end.  The array follows the counter exactly when both sums lie in the same 2^32 block.
   */
  lemma ResendTracksIff(w: SndWords, sndNxt: int, start: int, len: nat)
    requires Tracks(w, sndNxt) && start <= sndNxt < start + len && len < TWO_31
    ensures Tracks(AfterSend(w, sndNxt, len), start + len) <==> Epoch(sndNxt + len) == Epoch(start + len)
  {
    SendKeepsTracking(w, sndNxt, len);
    var w' := AfterSend(w, sndNxt, len);
    if Epoch(sndNxt + len) == Epoch(start + len) {
      High32OfEpoch(start + len, sndNxt + len);
    } else {
      EpochOfAdvance(start + len, sndNxt + len);
      EpochSplit(start + len);
      High32OfEpoch(sndNxt + len, start + len + TWO_32);
      assert w'.high[w'.index] == (High32(start + len) + 1) % TWO_32;
    }
  }

  /** A segment of the meta write queue with its stored index bit (MPTCPHDR_SEQ64_INDEX). */
  datatype TxSeg = TxSeg(start: int, len: nat, indexBit: bool) {
    function End(): int {
      start + len
    }
  }

  /** `mptcp_get_highorder_sndbits` */
  function HighOrderBits(w: SndWords, seg: TxSeg): int
    requires |w.high| == 2
  {
    w.high[if seg.indexBit then 1 else 0]
  }

  /** The array slot that holds block `epoch`, when block `first` sits in slot 0. */
  function SlotOf(first: int, epoch: int): (s: nat)
    ensures s < 2
  {
    (epoch - first) % 2
  }

  lemma SlotAlternates(first: int, epoch: int)
    ensures SlotOf(first, epoch + 1) == 1 - SlotOf(first, epoch)
    ensures SlotOf(first, epoch - 1) == 1 - SlotOf(first, epoch)
  {
  }

  /** Splitting a sent segment copies its index bit (`mptcp_fragment`). */
  function Fragment(seg: TxSeg, at: nat): (TxSeg, TxSeg)
    requires 0 < at < seg.len
  {
    (TxSeg(seg.start, at, seg.indexBit), TxSeg(seg.start + at, seg.len - at, seg.indexBit))
  }

  /** The bit names the slot of the block in which the segment starts. */
  predicate BitRight(first: int, seg: TxSeg) {
    seg.indexBit <==> SlotOf(first, Epoch(seg.start)) == 1
  }

  /** The copied bit is right for the second half exactly when the split point is in the first half's block. */
  lemma FragmentBitIff(first: int, seg: TxSeg, at: nat)
    requires BitRight(first, seg) && 0 < at < seg.len && seg.len < TWO_31
    ensures BitRight(first, Fragment(seg, at).0)
    ensures BitRight(first, Fragment(seg, at).1) <==> Epoch(seg.start + at) == Epoch(seg.start)
  {
    EpochOfAdvance(seg.start, seg.start + at);
    SlotAlternates(first, Epoch(seg.start));
  }

  /** The stored bit selects the true high word of every sent segment at most one block behind. */
  lemma StoredBitSelectsHighWord(w: SndWords, first: int, sndNxt: int, seg: TxSeg)
    requires Tracks(w, sndNxt) && w.index == SlotOf(first, Epoch(sndNxt))
    requires BitRight(first, seg) && seg.start <= sndNxt < seg.start + TWO_32
    ensures HighOrderBits(w, seg) == High32(seg.start)
  {
    EpochOfAdvance(seg.start, sndNxt);
    if Epoch(seg.start) == Epoch(sndNxt) {
      High32OfEpoch(seg.start, sndNxt);
      SlotHolds(w, first, sndNxt, seg, High32(sndNxt));
    } else {
      EpochSplit(sndNxt);
      High32OfEpoch(seg.start, sndNxt - TWO_32);
      SlotAlternates(first, Epoch(sndNxt));
      SlotHolds(w, first, sndNxt, seg, High32(sndNxt - TWO_32));
    }
  }

  lemma SlotHolds(w: SndWords, first: int, sndNxt: int, seg: TxSeg, word: int)
    requires |w.high| == 2 && w.index == SlotOf(first, Epoch(sndNxt)) && BitRight(first, seg)
    requires SlotOf(first, Epoch(seg.start)) == w.index ==> word == w.high[w.index]
    requires SlotOf(first, Epoch(seg.start)) != w.index ==> word == w.high[1 - w.index]
    ensures HighOrderBits(w, seg) == word
  {
  }

  // ------------------------------------------------------------ the write queue

  /** Segments that follow one another from `from` to `to`. */
  ghost predicate Row(q: seq<TxSeg>, from: int, to: int) {
    if q == [] then from == to
    else q[0].start == from && 0 < q[0].len < TWO_31 && Row(q[1..], q[0].End(), to)
  }

  /** The number at which segment `k` of a row starts, or would. */
  function StartAt(q: seq<TxSeg>, k: nat, to: int): int {
    if k < |q| then q[k].start else to
  }

  lemma {:induction false} RowBounds(q: seq<TxSeg>, from: int, to: int)
    requires Row(q, from, to)
    ensures from <= to && (q != [] ==> from < to)
    ensures forall i :: 0 <= i < |q| ==> from <= q[i].start < q[i].End() <= to && q[i].len < TWO_31
    ensures forall i :: 0 < i < |q| ==> q[0].End() <= q[i].start
  {
    if q != [] {
      RowBounds(q[1..], q[0].End(), to);
      assert forall i :: 0 < i < |q| ==> q[i] == q[1..][i - 1];
    }
  }

  lemma {:induction false} RowSuffix(q: seq<TxSeg>, from: int, to: int, k: nat)
    requires Row(q, from, to) && k <= |q|
    ensures Row(q[k..], StartAt(q, k, to), to) && from <= StartAt(q, k, to)
    ensures forall i :: 0 <= i < k ==> q[i].End() <= StartAt(q, k, to)
    ensures k > 0 ==> q[k - 1].End() == StartAt(q, k, to)
  {
    if k == 0 {
      assert q[0..] == q;
    } else {
      RowSuffix(q[1..], q[0].End(), to, k - 1);
      assert q[1..][k - 1..] == q[k..];
      assert forall i :: 0 < i < |q| ==> q[i] == q[1..][i - 1];
    }
  }

  lemma {:induction false} RowJoin(a: seq<TxSeg>, b: seq<TxSeg>, from: int, mid: int, to: int)
    requires Row(a, from, mid) && Row(b, mid, to)
    ensures Row(a + b, from, to)
  {
    if a == [] {
      assert a + b == b;
    } else {
      RowJoin(a[1..], b, a[0].End(), mid, to);
      assert (a + b)[1..] == a[1..] + b;
    }
  }

  lemma RowOfOne(seg: TxSeg)
    requires 0 < seg.len < TWO_31
    ensures Row([seg], seg.start, seg.End())
  {
  }

  /**
   The write queue, split at the send head: `sent` and `unsent` follow one another up to `to`.  The first
   segment may be partly acknowledged; after a rewind that is the one at the send head.
   */
  ghost predicate Layout(sent: seq<TxSeg>, unsent: seq<TxSeg>, una: int, nxt: int, to: int) {
    && una <= nxt < una + TWO_31
    && Row(sent, StartAt(sent, 0, StartAt(unsent, 0, to)), StartAt(unsent, 0, to))
    && Row(unsent, StartAt(unsent, 0, to), to)
    && (if sent != [] then sent[0].start <= una < sent[0].End() && nxt == StartAt(unsent, 0, to)
        else nxt == una && if unsent != [] then unsent[0].start <= una < unsent[0].End() else una == to)
  }

  /** The head starts at `nxt`, or, partly acknowledged, below it. */
  lemma HeadOverNxt(sent: seq<TxSeg>, unsent: seq<TxSeg>, una: int, nxt: int, to: int)
    requires Layout(sent, unsent, una, nxt, to) && unsent != []
    ensures 0 < unsent[0].len < TWO_31 && una <= nxt
    ensures unsent[0].start <= nxt < unsent[0].End()
    ensures unsent[0].start < nxt ==> unsent[0].start < una && sent == []
  {
  }

  /** The ends of sent segments lie between `una` and `nxt`. */
  lemma SentEnds(sent: seq<TxSeg>, unsent: seq<TxSeg>, una: int, nxt: int, to: int)
    requires Layout(sent, unsent, una, nxt, to)
    ensures forall i :: 0 <= i < |sent| ==> una < sent[i].End() <= nxt && nxt < sent[i].start + TWO_32
  {
    RowBounds(sent, StartAt(sent, 0, StartAt(unsent, 0, to)), StartAt(unsent, 0, to));
  }

  lemma LayoutAppend(sent: seq<TxSeg>, unsent: seq<TxSeg>, una: int, nxt: int, to: int, seg: TxSeg)
    requires Layout(sent, unsent, una, nxt, to) && 0 < seg.len < TWO_31 && seg.start == to
    ensures Layout(sent, unsent + [seg], una, nxt, seg.End())
  {
    RowOfOne(seg);
    RowJoin(unsent, [seg], StartAt(unsent, 0, to), to, seg.End());
  }

  lemma LayoutSend(sent: seq<TxSeg>, unsent: seq<TxSeg>, una: int, nxt: int, to: int, bit: bool)
    requires Layout(sent, unsent, una, nxt, to) && unsent != [] && unsent[0].End() < una + TWO_31
    ensures Layout(sent + [unsent[0].(indexBit := bit)], unsent[1..], una, unsent[0].End(), to)
  {
    var seg := unsent[0].(indexBit := bit);
    RowSuffix(unsent, unsent[0].start, to, 1);
    RowOfOne(seg);
    RowJoin(sent, [seg], StartAt(sent, 0, seg.start), seg.start, seg.End());
  }

  lemma LayoutAck(sent: seq<TxSeg>, unsent: seq<TxSeg>, una: int, nxt: int, to: int, k: nat, ack: int)
    requires Layout(sent, unsent, una, nxt, to) && una <= ack <= nxt && k <= |sent|
    requires forall i :: 0 <= i < k ==> sent[i].End() <= ack
    requires k < |sent| ==> ack < sent[k].End()
    ensures Layout(sent[k..], unsent, ack, nxt, to)
    ensures forall i :: 0 <= i < |sent| ==> (sent[i].End() <= ack <==> i < k)
  {
    var mid := StartAt(unsent, 0, to);
    RowSuffix(sent, StartAt(sent, 0, mid), mid, k);
    RowBounds(sent[k..], StartAt(sent, k, mid), mid);
    hide Row;
    assert forall i :: k <= i < |sent| ==> sent[i] == sent[k..][i - k];
  }

  lemma LayoutRewind(sent: seq<TxSeg>, unsent: seq<TxSeg>, una: int, nxt: int, to: int)
    requires Layout(sent, unsent, una, nxt, to)
    ensures Layout([], sent + unsent, una, una, to)
  {
    var mid := StartAt(unsent, 0, to);
    RowJoin(sent, unsent, StartAt(sent, 0, mid), mid, to);
  }

  lemma LayoutSplit(sent: seq<TxSeg>, unsent: seq<TxSeg>, una: int, nxt: int, to: int, at: nat)
    requires Layout(sent, unsent, una, nxt, to) && unsent != [] && 0 < at < unsent[0].len
    ensures var halves := Fragment(unsent[0], at);
            Layout(sent, [halves.0, halves.1] + unsent[1..], una, nxt, to)
            <==> (sent == [] ==> una < unsent[0].start + at)
  {
    RowSplit(unsent, unsent[0].start, to, at);
    hide Row;
  }

  lemma RowSplit(q: seq<TxSeg>, from: int, to: int, at: nat)
    requires Row(q, from, to) && q != [] && 0 < at < q[0].len
    ensures Row([Fragment(q[0], at).0, Fragment(q[0], at).1] + q[1..], from, to)
  {
    var halves := Fragment(q[0], at);
    var r := [halves.0, halves.1] + q[1..];
    assert r[1..] == [halves.1] + q[1..] && r[1..][1..] == q[1..];
  }

  /** Every index bit that was stored is right; a segment below `una` has been sent before. */
  ghost predicate BitsRight(first: int, sent: seq<TxSeg>, unsent: seq<TxSeg>, una: int) {
    && (forall i :: 0 <= i < |sent| ==> BitRight(first, sent[i]))
    && (forall i :: 0 <= i < |unsent| && (unsent[i].indexBit || unsent[i].start < una) ==> BitRight(first, unsent[i]))
  }

  /** Sending the head leaves all bits right exactly when its own is. */
  lemma BitsAfterSend(first: int, sent: seq<TxSeg>, unsent: seq<TxSeg>, una: int, bit: bool)
    requires BitsRight(first, sent, unsent, una) && unsent != []
    ensures BitsRight(first, sent + [unsent[0].(indexBit := bit)], unsent[1..], una)
            <==> BitRight(first, unsent[0].(indexBit := bit))
  {
    hide BitRight;
    var r := sent + [unsent[0].(indexBit := bit)];
    assert r[|sent|] == unsent[0].(indexBit := bit);
    assert forall i :: 0 <= i < |sent| ==> r[i] == sent[i];
  }

  lemma BitsAfterRewind(first: int, sent: seq<TxSeg>, unsent: seq<TxSeg>, una: int)
    requires BitsRight(first, sent, unsent, una)
    ensures BitsRight(first, [], sent + unsent, una)
  {
    hide BitRight;
  }

  /** Acknowledged or not, whatever is sent next starts at `una` or above, or was sent before. */
  lemma BitsAfterAck(first: int, sent: seq<TxSeg>, unsent: seq<TxSeg>, una: int, nxt: int, to: int, k: nat, ack: int)
    requires Layout(sent, unsent, una, nxt, to) && una <= ack <= nxt && k <= |sent|
    requires BitsRight(first, sent, unsent, una)
    ensures BitsRight(first, sent[k..], unsent, ack)
  {
    hide BitRight;
    RowBounds(unsent, StartAt(unsent, 0, to), to);
    forall i | 0 <= i < |unsent| && unsent[i].start < ack
      ensures unsent[i].start < una
    {
      assert StartAt(unsent, 0, to) <= unsent[i].start;
    }
  }

  /** After a split all bits are right exactly when the copied one is: it may name the block before. */
  lemma BitsAfterSplit(first: int, sent: seq<TxSeg>, unsent: seq<TxSeg>, una: int, at: nat)
    requires BitsRight(first, sent, unsent, una) && unsent != [] && 0 < at < unsent[0].len < TWO_31
    requires unsent[0].start <= una && sent == [] ==> una < unsent[0].start + at
    requires sent != [] ==> una <= unsent[0].start
    ensures var halves := Fragment(unsent[0], at);
            BitsRight(first, sent, [halves.0, halves.1] + unsent[1..], una)
            <==> (unsent[0].indexBit ==> Epoch(unsent[0].start + at) == Epoch(unsent[0].start))
  {
    var halves := Fragment(unsent[0], at);
    var r := [halves.0, halves.1] + unsent[1..];
    if unsent[0].indexBit {
      FragmentBitIff(first, unsent[0], at);
    }
    hide BitRight;
    assert r[0] == halves.0 && r[1] == halves.1;
    assert forall i :: 2 <= i < |r| ==> r[i] == unsent[i - 1];
  }

  /** The sending half of the meta socket: write queue, send head and the high-order array. */
  class MetaSend {
    var words: SndWords
    var sndUna: int
    var sndNxt: int
    var writeSeq: int
    var sent: seq<TxSeg>      // the write queue before the send head
    var unsent: seq<TxSeg>    // the write queue from the send head on
    ghost const first: int

    /** The array is in step with `sndNxt`, and the index bits with the segments. */
    ghost predicate Valid()
      reads this
    {
      && Layout(sent, unsent, sndUna, sndNxt, writeSeq)
      && InStep(words, first, sndNxt)
      && BitsRight(first, sent, unsent, sndUna)
    }

    static ghost predicate InStep(w: SndWords, first: int, sndNxt: int) {
      Tracks(w, sndNxt) && w.index == SlotOf(first, Epoch(sndNxt))
    }

    constructor (idsn: int)
      ensures Valid() && sndUna == sndNxt == writeSeq == idsn && sent == unsent == []
      ensures words == SndWords([High32(idsn), (High32(idsn) - 1) % TWO_32], 0)
    {
      words := SndWords([High32(idsn), (High32(idsn) - 1) % TWO_32], 0);
      sndUna, sndNxt, writeSeq, sent, unsent := idsn, idsn, idsn, [], [];
      first := Epoch(idsn);
      HighPlusTwo(idsn);
    }

    /** The application appends a segment that has not been sent. */
    method Append(len: nat)
      requires Valid() && 0 < len < TWO_31
      modifies this`unsent, this`writeSeq
      ensures Valid() && unsent == old(unsent) + [TxSeg(old(writeSeq), len, false)]
      ensures writeSeq == old(writeSeq) + len
    {
      var seg := TxSeg(writeSeq, len, false);
      LayoutAppend(sent, unsent, sndUna, sndNxt, writeSeq, seg);
      LayoutReach(sent, unsent, sndUna, sndNxt, writeSeq);
      hide Layout, InStep, BitRight;
      unsent := unsent + [seg];
      writeSeq := writeSeq + len;
    }

    static lemma LayoutReach(sent: seq<TxSeg>, unsent: seq<TxSeg>, una: int, nxt: int, to: int)
      requires Layout(sent, unsent, una, nxt, to)
      ensures una <= to
    {
      RowBounds(unsent, StartAt(unsent, 0, to), to);
    }

    /**
     Sends the segment at the send head: store the index bit, check for the wrap, advance.  After a rewind the
     head may be partly acknowledged, so that it starts below `sndNxt`.  Array and bits stay right exactly when
     the sum that the wrap test sees lies in the block of the segment's end, and the bit stored - that of
     `sndNxt` - is not a wrong one for the segment's start.
     */
    method SendHead()
      requires Valid() && unsent != []
      requires unsent[0].End() < sndUna + TWO_31
      modifies this`words, this`sndNxt, this`sent, this`unsent
      ensures sndNxt == old(unsent)[0].End() && unsent == old(unsent)[1..]
      ensures sent == old(sent) + [old(unsent)[0].(indexBit := old(unsent)[0].indexBit || old(words).index == 1)]
      ensures words == AfterSend(old(words), old(sndNxt), old(unsent)[0].len)
      ensures Valid() <==>
              && Epoch(old(sndNxt) + old(unsent)[0].len) == Epoch(old(unsent)[0].End())
              && (old(words).index == 0 || Epoch(old(unsent)[0].start) == Epoch(old(sndNxt)))
      ensures old(unsent)[0].start == old(sndNxt) ==> Valid()
    {
      hide Layout, BitRight, AfterSend, InStep, Tracks, BitsRight;
      var seg := unsent[0];
      HeadOverNxt(sent, unsent, sndUna, sndNxt, writeSeq);
      SentBefore(first, sent, unsent, sndUna);
      ArrayAfterSend(words, first, sndNxt, seg.start, seg.len);
      BitAfterSend(words, first, sndNxt, seg);
      seg := seg.(indexBit := seg.indexBit || words.index == 1);
      LayoutSend(sent, unsent, sndUna, sndNxt, writeSeq, seg.indexBit);
      BitsAfterSend(first, sent, unsent, sndUna, seg.indexBit);
      sent, unsent := sent + [seg], unsent[1..];
      words := AfterSend(words, sndNxt, seg.len);
      sndNxt := seg.End();
    }

    static lemma SentBefore(first: int, sent: seq<TxSeg>, unsent: seq<TxSeg>, una: int)
      requires BitsRight(first, sent, unsent, una) && unsent != []
      ensures unsent[0].indexBit || unsent[0].start < una ==> BitRight(first, unsent[0])
    {
    }

    /** The array follows to the segment's end exactly when the wrap test's sum lies in the same block. */
    static lemma ArrayAfterSend(w: SndWords, first: int, sndNxt: int, start: int, len: nat)
      requires InStep(w, first, sndNxt) && start <= sndNxt < start + len && len < TWO_31
      ensures |w.high| == 2 && w.index < 2 && w.index == SlotOf(first, Epoch(sndNxt))
      ensures InStep(AfterSend(w, sndNxt, len), first, start + len) <==> Epoch(sndNxt + len) == Epoch(start + len)
    {
      ResendTracksIff(w, sndNxt, start, len);
      hide Tracks, AfterSend;
      SlotMoves(w, first, sndNxt, len);
    }

    /** The bit stored by a send is right unless a wrap lies between the segment's start and `sndNxt`. */
    static lemma BitAfterSend(w: SndWords, first: int, sndNxt: int, seg: TxSeg)
      requires w.index < 2 && w.index == SlotOf(first, Epoch(sndNxt))
      requires seg.start <= sndNxt < seg.End() && seg.len < TWO_31
      requires seg.indexBit || seg.start < sndNxt ==> BitRight(first, seg)
      ensures BitRight(first, seg.(indexBit := seg.indexBit || w.index == 1))
              <==> w.index == 0 || Epoch(seg.start) == Epoch(sndNxt)
    {
      EpochOfAdvance(seg.start, sndNxt);
      SlotAlternates(first, Epoch(seg.start));
    }

    static lemma SlotMoves(w: SndWords, first: int, sndNxt: int, inc: nat)
      requires Tracks(w, sndNxt) && inc < TWO_32 && w.index == SlotOf(first, Epoch(sndNxt))
      ensures AfterSend(w, sndNxt, inc).index == SlotOf(first, Epoch(sndNxt + inc))
    {
      EpochOfAdvance(sndNxt, sndNxt + inc);
      SlotAlternates(first, Epoch(sndNxt));
    }

    /**
     `mptcp_fragment` on the send head.  A head that was sent before a rewind has its index bit copied to the
     second half, and a partly acknowledged one may be cut at or below `sndUna`.
     */
    method SplitHead(at: nat)
      requires Valid() && unsent != [] && 0 < at < unsent[0].len
      modifies this`unsent
      ensures unsent == [Fragment(old(unsent)[0], at).0, Fragment(old(unsent)[0], at).1] + old(unsent)[1..]
      ensures Valid() <==>
              && (old(unsent)[0].indexBit ==> Epoch(old(unsent)[0].start + at) == Epoch(old(unsent)[0].start))
              && (sent == [] ==> sndUna < old(unsent)[0].start + at)
    {
      hide Layout, BitRight, InStep, BitsRight;
      var halves := Fragment(unsent[0], at);
      HeadOverNxt(sent, unsent, sndUna, sndNxt, writeSeq);
      LayoutSplit(sent, unsent, sndUna, sndNxt, writeSeq, at);
      if sent == [] ==> sndUna < unsent[0].start + at {
        BitsAfterSplit(first, sent, unsent, sndUna, at);
      }
      unsent := [halves.0, halves.1] + unsent[1..];
    }

    /** DATA_ACK: drops the fully acknowledged segments at the front of the sent part, and only those. */
    method Ack(una: int) returns (k: nat)
      requires Valid() && sndUna <= una <= sndNxt
      modifies this`sndUna, this`sent
      ensures Valid() && sndUna == una && k <= |old(sent)| && sent == old(sent)[k..]
      ensures forall i :: 0 <= i < |old(sent)| ==> (old(sent)[i].End() <= una <==> i < k)
    {
      SentEnds(sent, unsent, sndUna, sndNxt, writeSeq);
      assert sndNxt < sndUna + TWO_31;
      hide Layout, BitsRight, InStep;
      k := 0;
      while k < |sent| && !Before(una, sent[k].End())
        invariant k <= |sent| && sent == old(sent)
        invariant forall i :: 0 <= i < k ==> sent[i].End() <= una
      {
        k := k + 1;
      }
      LayoutAck(sent, unsent, sndUna, sndNxt, writeSeq, k, una);
      BitsAfterAck(first, sent, unsent, sndUna, sndNxt, writeSeq, k, una);
      sndUna := una;
      sent := sent[k..];
    }

    /** MP_FAIL: everything unacknowledged is sent again, from `sndUna`. */
    method MpFail()
      requires Valid()
      modifies this`words, this`sndNxt, this`sent, this`unsent
      ensures Valid() && sndNxt == sndUna && sent == [] && unsent == old(sent) + old(unsent)
      ensures words == AfterRewind(old(words), old(sndNxt), sndUna)
    {
      LayoutRewind(sent, unsent, sndUna, sndNxt, writeSeq);
      BitsAfterRewind(first, sent, unsent, sndUna);
      assert sndUna <= sndNxt < sndUna + TWO_31;
      hide Layout, BitsRight, BitRight;
      RewindInStep(words, first, sndNxt, sndUna);
      sent, unsent := [], sent + unsent;
      words := AfterRewind(words, sndNxt, sndUna);
      sndNxt := sndUna;
    }

    static lemma RewindInStep(w: SndWords, first: int, sndNxt: int, una: int)
      requires InStep(w, first, sndNxt) && una <= sndNxt < una + TWO_32
      ensures |w.high| == 2 && w.index < 2 && InStep(AfterRewind(w, sndNxt, una), first, una)
    {
      RewindKeepsTracking(w, sndNxt, una);
      EpochOfAdvance(una, sndNxt);
      SlotAlternates(first, Epoch(una));
      EpochSplit(una);
      EpochSplit(sndNxt);
      hide Tracks;
    }

    /** The high word written with a sent segment is its true one, whatever was sent since. */
    method HighWordOf(i: nat) returns (word: int)
      requires Valid() && i < |sent|
      ensures word == High32(sent[i].start)
    {
      SentEnds(sent, unsent, sndUna, sndNxt, writeSeq);
      hide Layout;
      StoredBitSelectsHighWord(words, first, sndNxt, sent[i]);
      word := HighOrderBits(words, sent[i]);
    }
  }

  /**
   A run that stores a wrong index bit: 100 bytes from 2^32 - 50, acknowledged up to 2^32 + 10, then MP_FAIL.
   The head is sent again with the index of the block it ends in, although it starts in the one before; the
   array itself stays in step.
   */
  method ResendWithWrongBit() returns (seg: TxSeg, words: SndWords, sndNxt: int)
    ensures Tracks(words, sndNxt) && seg == TxSeg(TWO_32 - 50, 100, true)
    ensures HighOrderBits(words, seg) == 1 && High32(seg.start) == 0
  {
    hide Layout, BitsRight, BitRight, MetaSend.InStep;
    var m := new MetaSend(TWO_32 - 50);
    m.Append(100);
    m.SendHead();
    var k := m.Ack(TWO_32 + 10);
    m.MpFail();
    m.SendHead();
    return m.sent[0], m.words, m.sndNxt;
  }

  /** The same with 100 bytes from 2^32 - 150, acknowledged up to 2^32 - 90: the array runs ahead. */
  method ResendOutOfStep() returns (words: SndWords, sndNxt: int)
    ensures |words.high| == 2 && words.index < 2 && words.high[words.index] == 1 && High32(sndNxt) == 0
  {
    hide Layout, BitsRight, BitRight, MetaSend.InStep;
    var m := new MetaSend(TWO_32 - 150);
    m.Append(100);
    m.SendHead();
    var k := m.Ack(TWO_32 - 90);
    m.MpFail();
    m.SendHead();
    return m.words, m.sndNxt;
  }

  /** Cutting a segment that was sent, ends in the next block and starts in slot 1: the copied bit is stale. */
  lemma FragmentCanBeStale()
    ensures var seg := TxSeg(TWO_32 - 10, 20, true);
            BitRight(-1, seg) && !BitRight(-1, Fragment(seg, 15).1)
  {
  }
}

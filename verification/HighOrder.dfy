/**
 The two-entry arrays that supply the high 32 bits of 64-bit data sequence numbers
 (`rcv_high_order`, `snd_high_order` of the multipath control block).
 */
module HighOrder {
  import opened SeqArith

  /** The receive array and its index follow the unbounded counter `n`: current word, then the next one. */
  ghost predicate RcvTracks(high: seq<int>, index: nat, n: int) {
    && |high| == 2 && index < 2
    && high[index] == High32(n)
    && high[1 - index] == High32(n + TWO_32)
  }

  /** The send array keeps the current word and the previous one. */
  ghost predicate SndTracks(high: seq<int>, index: nat, n: int) {
    && |high| == 2 && index < 2
    && high[index] == High32(n)
    && high[1 - index] == High32(n - TWO_32)
  }

  /** Number of 2^32 blocks before `n`. */
  function Epoch(n: int): int {
    n / TWO_32
  }

  lemma EpochSplit(n: int)
    ensures n == Epoch(n) * TWO_32 + Low32(n)
    ensures Low64(n) == High32(n) * TWO_32 + Low32(n)
    ensures Epoch(n + TWO_32) == Epoch(n) + 1 && Low32(n + TWO_32) == Low32(n)
    ensures Epoch(n - TWO_32) == Epoch(n) - 1 && Low32(n - TWO_32) == Low32(n)
    ensures High32(n + TWO_32) == (High32(n) + 1) % TWO_32
  {
    var e := Epoch(n);
    assert TWO_64 == TWO_32 * TWO_32;
    assert n == (e / TWO_32) * TWO_64 + (e % TWO_32) * TWO_32 + n % TWO_32;
  }

  lemma EpochOfAdvance(a: int, b: int)
    requires a <= b < a + TWO_32
    ensures Epoch(b) == Epoch(a) + (if Low32(a) > Low32(b) then 1 else 0)
  {
    EpochSplit(a);
    EpochSplit(b);
  }

  lemma HighPlusTwo(n: int)
    ensures (High32(n) + 2) % TWO_32 == High32(n + 2 * TWO_32)
    ensures (High32(n) - 2) % TWO_32 == High32(n - 2 * TWO_32)
    ensures (High32(n) - 1) % TWO_32 == High32(n - TWO_32)
  {
    assert (n + 2 * TWO_32) / TWO_32 == n / TWO_32 + 2;
    assert (n - 2 * TWO_32) / TWO_32 == n / TWO_32 - 2;
    assert (n - TWO_32) / TWO_32 == n / TWO_32 - 1;
  }

  lemma High32OfEpoch(a: int, b: int)
    requires Epoch(a) == Epoch(b)
    ensures High32(a) == High32(b)
    ensures High32(a + TWO_32) == High32(b + TWO_32) && High32(a - TWO_32) == High32(b - TWO_32)
  {
    EpochSplit(a);
    EpochSplit(b);
  }

  // ---------------------------------------------------------------- receive side

  /** Where a 64-bit number's high word was found. */
  datatype SlotFlag = Slot0 | Slot1 | NotInArray

  /** `mptcp_get_64_bit` */
  function Get64Bit(high: seq<int>, dataSeq: int): SlotFlag
    requires |high| == 2
  {
    if high[0] == High32(dataSeq) then Slot0
    else if high[1] == High32(dataSeq) then Slot1
    else NotInArray
  }

  /** `mptcp_get_data_seq_64` */
  function DataSeq64(high: seq<int>, index: nat, low: int): int
    requires |high| == 2 && index < 2
  {
    high[index] * TWO_32 + Low32(low)
  }

  /** The 64-bit number given to a mapping that carries a 32-bit data sequence number. */
  function Decode32(high: seq<int>, index: nat, rcvNxt: int, dataSeq: int): int
    requires |high| == 2 && index < 2
  {
    if After(dataSeq, rcvNxt) && Low32(dataSeq) < Low32(rcvNxt)
    then DataSeq64(high, 1 - index, dataSeq)
    else DataSeq64(high, index, dataSeq)
  }

  /** The 64-bit number given to a mapping that carries a 64-bit data sequence number. */
  function Decode64(high: seq<int>, dataSeq: int): int
    requires |high| == 2
  {
    match Get64Bit(high, dataSeq)
    case Slot0 => DataSeq64(high, 0, dataSeq)
    case Slot1 => DataSeq64(high, 1, dataSeq)
    case NotInArray => Low64(DataSeq64(high, 0, dataSeq) + 0xFFFF_FFFF + 0xFFFF_FFFF)
  }

  /** The left window edge as `mptcp_sequence` rebuilds it. */
  function RcvWup64(high: seq<int>, index: nat, rcvNxt: int, rcvWup: int): int
    requires |high| == 2 && index < 2
  {
    if Low32(rcvWup) > Low32(rcvNxt)
    then ((high[index] - 1) % TWO_32) * TWO_32 + Low32(rcvWup)
    else DataSeq64(high, index, rcvWup)
  }

  /** `mptcp_sequence`: does the mapping touch the receive window? */
  predicate InSequence(high: seq<int>, index: nat, rcvNxt: int, rcvWup: int, window: nat,
                       dataSeq: int, endDataSeq: int)
    requires |high| == 2 && index < 2
  {
    && !Before64(endDataSeq, RcvWup64(high, index, rcvNxt, rcvWup))
    && !After64(dataSeq, DataSeq64(high, index, rcvNxt) + window)
  }

  /** Reading the array at the current index gives the 64-bit form of the counter. */
  lemma CurrentIsCounter(high: seq<int>, index: nat, rcvNxt: int)
    requires RcvTracks(high, index, rcvNxt)
    ensures DataSeq64(high, index, rcvNxt) == Low64(rcvNxt)
  {
    EpochSplit(rcvNxt);
  }

  lemma WupIsTrue(high: seq<int>, index: nat, rcvNxt: int, rcvWup: int)
    requires RcvTracks(high, index, rcvNxt)
    requires rcvWup <= rcvNxt < rcvWup + TWO_32
    ensures RcvWup64(high, index, rcvNxt, rcvWup) == Low64(rcvWup)
  {
    EpochOfAdvance(rcvWup, rcvNxt);
    EpochSplit(rcvWup);
    HighPlusTwo(rcvNxt);
    if Low32(rcvWup) > Low32(rcvNxt) {
      High32OfEpoch(rcvWup, rcvNxt - TWO_32);
    } else {
      High32OfEpoch(rcvWup, rcvNxt);
    }
  }

  /**
   A 32-bit number less than 2^31 away from `rcvNxt` is decoded to its true 64-bit form, except when it
   precedes the last wrap of `rcvNxt`: then it comes out exactly 2^32 too high.
   */
  lemma Decode32Exact(high: seq<int>, index: nat, rcvNxt: int, n: int)
    requires RcvTracks(high, index, rcvNxt) && Near(n, rcvNxt)
    ensures Epoch(n) >= Epoch(rcvNxt) ==> Decode32(high, index, rcvNxt, n) == Low64(n)
    ensures Epoch(n) < Epoch(rcvNxt) ==> n < rcvNxt && Decode32(high, index, rcvNxt, n) == Low64(n + TWO_32)
  {
    EpochSplit(n);
    EpochSplit(rcvNxt);
    EpochSplit(n + TWO_32);
    if n >= rcvNxt {
      EpochOfAdvance(rcvNxt, n);
      if Epoch(n) == Epoch(rcvNxt) {
        High32OfEpoch(n, rcvNxt);
      } else {
        High32OfEpoch(n, rcvNxt + TWO_32);
      }
    } else {
      EpochOfAdvance(n, rcvNxt);
      if Epoch(n) == Epoch(rcvNxt) {
        High32OfEpoch(n, rcvNxt);
      } else {
        High32OfEpoch(n + TWO_32, rcvNxt);
      }
    }
  }

  /** `Before64` on 64-bit forms decides the order of numbers less than 2^63 apart. */
  lemma Before64OnForms(a: int, b: int, a64: int, b64: int)
    requires Low64(a64) == Low64(a) && Low64(b64) == Low64(b)
    requires -TWO_63 < a - b < TWO_63
    ensures Before64(a64, b64) <==> a < b
  {
    Before64SeesLowWords(a64, b64, a, b);
  }

  lemma LeftEdge(high: seq<int>, index: nat, rcvNxt: int, rcvWup: int, m: int, len: nat)
    requires RcvTracks(high, index, rcvNxt) && rcvWup <= rcvNxt < rcvWup + TWO_32
    requires -8 * TWO_32 < m - rcvNxt < 8 * TWO_32 && len < TWO_31
    ensures Before64(Low64(m) + len, RcvWup64(high, index, rcvNxt, rcvWup)) <==> m + len < rcvWup
  {
    hide Low64, Before64, RcvWup64, High32;
    WupIsTrue(high, index, rcvNxt, rcvWup);
    Low64Idempotent(rcvWup);
    Low64Add(m, len);
    Before64OnForms(m + len, rcvWup, Low64(m) + len, RcvWup64(high, index, rcvNxt, rcvWup));
  }

  lemma RightEdge(high: seq<int>, index: nat, rcvNxt: int, window: nat, m: int)
    requires RcvTracks(high, index, rcvNxt) && window < TWO_31
    requires -8 * TWO_32 < m - rcvNxt < 8 * TWO_32
    ensures After64(Low64(m), DataSeq64(high, index, rcvNxt) + window) <==> rcvNxt + window < m
  {
    hide Low64, Before64, DataSeq64, High32;
    CurrentIsCounter(high, index, rcvNxt);
    Low64Idempotent(m);
    Low64Add(rcvNxt, window);
    Before64OnForms(rcvNxt + window, m, DataSeq64(high, index, rcvNxt) + window, Low64(m));
  }

  /** The window check on the 64-bit form of a number within 2^35 of `rcvNxt` is the check on the number. */
  lemma InSequenceOnForms(high: seq<int>, index: nat, rcvNxt: int, rcvWup: int, window: nat, m: int, len: nat)
    requires RcvTracks(high, index, rcvNxt)
    requires -8 * TWO_32 < m - rcvNxt < 8 * TWO_32
    requires rcvWup <= rcvNxt < rcvWup + TWO_32
    requires window < TWO_31 && len < TWO_31
    ensures InSequence(high, index, rcvNxt, rcvWup, window, Low64(m), Low64(m) + len)
            <==> rcvWup <= m + len && m <= rcvNxt + window
  {
    hide Low64, Before64, DataSeq64, After64, RcvWup64, High32;
    LeftEdge(high, index, rcvNxt, rcvWup, m, len);
    RightEdge(high, index, rcvNxt, window, m);
  }

  /**
   The window check after decoding a 32-bit number accepts exactly the mappings that do not precede the
   last wrap, end at or after the left window edge and start at or before the right one.
   */
  lemma AcceptedExactly(high: seq<int>, index: nat, rcvNxt: int, rcvWup: int, window: nat, n: int, len: nat)
    requires RcvTracks(high, index, rcvNxt) && Near(n, rcvNxt)
    requires rcvWup <= rcvNxt < rcvWup + TWO_32
    requires window < TWO_31 && len < TWO_31
    ensures InSequence(high, index, rcvNxt, rcvWup, window,
                       Decode32(high, index, rcvNxt, n), Decode32(high, index, rcvNxt, n) + len)
            <==> Epoch(n) >= Epoch(rcvNxt) && rcvWup <= n + len && n <= rcvNxt + window
  {
    Decode32Exact(high, index, rcvNxt, n);
    if Epoch(n) >= Epoch(rcvNxt) {
      InSequenceOnForms(high, index, rcvNxt, rcvWup, window, n, len);
    } else {
      InSequenceOnForms(high, index, rcvNxt, rcvWup, window, n + TWO_32, len);
    }
  }

  /** The number that a 64-bit value outside the array is turned into. */
  ghost function OutsideNumber(index: nat, rcvNxt: int, n: int): int {
    (if index == 0 then Epoch(rcvNxt) else Epoch(rcvNxt) + 1) * TWO_32 + Low32(n) + 0x1_FFFF_FFFE
  }

  /** The 64-bit form of a number given by its block and its low word. */
  lemma FormOfBlock(e: int, low: int)
    requires 0 <= low < TWO_32
    ensures Low64(e * TWO_32 + low) == (e % TWO_32) * TWO_32 + low
    ensures Epoch(e * TWO_32 + low) == e
  {
    assert TWO_64 == TWO_32 * TWO_32;
    assert e * TWO_32 + low == (e / TWO_32) * TWO_64 + ((e % TWO_32) * TWO_32 + low);
    LowEqual64(e * TWO_32 + low, (e % TWO_32) * TWO_32 + low, e / TWO_32);
  }

  lemma SlotZeroWord(high: seq<int>, index: nat, rcvNxt: int)
    requires RcvTracks(high, index, rcvNxt)
    ensures high[0] == (if index == 0 then Epoch(rcvNxt) else Epoch(rcvNxt) + 1) % TWO_32
  {
    assert (rcvNxt + TWO_32) / TWO_32 == rcvNxt / TWO_32 + 1;
  }

  lemma OutsideDecode(high: seq<int>, index: nat, rcvNxt: int, n: int)
    requires RcvTracks(high, index, rcvNxt)
    requires Get64Bit(high, n) == NotInArray
    ensures Decode64(high, n) == Low64(OutsideNumber(index, rcvNxt, n))
  {
    hide RcvTracks, Low32, Low64;
    SlotZeroWord(high, index, rcvNxt);
    var e := if index == 0 then Epoch(rcvNxt) else Epoch(rcvNxt) + 1;
    FormOfBlock(e, Low32(n));
    Low64Add(e * TWO_32 + Low32(n), 0xFFFF_FFFF + 0xFFFF_FFFF);
  }

  /**
   A 64-bit number keeps its value exactly when its high word is in the array, that is, when it is the high
   word of the counter or the one after it.
   */
  lemma Decode64Exact(high: seq<int>, index: nat, rcvNxt: int, n: int)
    requires RcvTracks(high, index, rcvNxt)
    ensures Decode64(high, n) == Low64(n) <==> High32(n) in {High32(rcvNxt), High32(rcvNxt + TWO_32)}
  {
    if Get64Bit(high, n) == NotInArray {
      OutsideDecode(high, index, rcvNxt, n);
      OutsideChanges(index, rcvNxt, n);
    } else {
      EpochSplit(n);
    }
    assert index == 0 || index == 1;
  }

  /** The low word comes out two lower. */
  lemma OutsideChanges(index: nat, rcvNxt: int, n: int)
    ensures Low64(OutsideNumber(index, rcvNxt, n)) != Low64(n)
  {
    var x := OutsideNumber(index, rcvNxt, n);
    EpochSplit(n);
    EpochSplit(x);
    var e := if index == 0 then Epoch(rcvNxt) else Epoch(rcvNxt) + 1;
    assert x == Low32(n) - 2 + (e + 2) * TWO_32;
    LowEqual(x, Low32(n) - 2, e + 2);
  }

  lemma OutsideIsFar(index: nat, rcvNxt: int, n: int)
    requires index < 2
    ensures rcvNxt + TWO_31 <= OutsideNumber(index, rcvNxt, n) < rcvNxt + 4 * TWO_32
  {
    EpochSplit(rcvNxt);
  }

  /**
   Of the numbers near the counter those outside the array are the ones before the last wrap; they come out almost
   three or four blocks too high.
   */
  lemma OutsideNear(high: seq<int>, index: nat, rcvNxt: int, n: int)
    requires RcvTracks(high, index, rcvNxt) && Near(n, rcvNxt)
    ensures Get64Bit(high, n) == NotInArray <==> Epoch(n) < Epoch(rcvNxt)
    ensures Get64Bit(high, n) == NotInArray ==>
              n < rcvNxt && OutsideNumber(index, rcvNxt, n) == n + (if index == 0 then 3 else 4) * TWO_32 - 2
  {
    EpochSplit(n);
    EpochSplit(rcvNxt);
    assert index == 0 || index == 1;
    if n >= rcvNxt {
      EpochOfAdvance(rcvNxt, n);
      High32OfEpoch(n, if Epoch(n) == Epoch(rcvNxt) then rcvNxt else rcvNxt + TWO_32);
    } else {
      EpochOfAdvance(n, rcvNxt);
      if Epoch(n) == Epoch(rcvNxt) {
        High32OfEpoch(n, rcvNxt);
      } else {
        EarlierWord(Epoch(rcvNxt));
      }
    }
  }

  /** Three successive blocks have three different high words. */
  lemma EarlierWord(e: int)
    ensures (e - 1) % TWO_32 != e % TWO_32 && (e - 1) % TWO_32 != (e + 1) % TWO_32
  {
  }

  /** A 64-bit number flagged as outside the array fails the window check for every window below 2^31. */
  lemma OutsideAlwaysRejected(high: seq<int>, index: nat, rcvNxt: int, rcvWup: int, window: nat, n: int, len: nat)
    requires RcvTracks(high, index, rcvNxt)
    requires Get64Bit(high, n) == NotInArray
    requires window < TWO_31
    ensures !InSequence(high, index, rcvNxt, rcvWup, window, Decode64(high, n), Decode64(high, n) + len)
  {
    OutsideDecode(high, index, rcvNxt, n);
    OutsideIsFar(index, rcvNxt, n);
    RightEdge(high, index, rcvNxt, window, OutsideNumber(index, rcvNxt, n));
  }

  /** The receive array of a control block. */
  class RcvHighOrder {
    var high: seq<int>
    var index: nat

    /** Initial state for the peer's initial data sequence number. */
    constructor (idsn: int)
      ensures RcvTracks(high, index, idsn)
    {
      high := [High32(idsn), (High32(idsn) + 1) % TWO_32];
      index := 0;
      EpochSplit(idsn);
    }

    /** `mptcp_check_rcvseq_wrap` */
    method CheckRcvseqWrap(oldRcvNxt: int, rcvNxt: int)
      requires RcvTracks(high, index, oldRcvNxt)
      requires oldRcvNxt <= rcvNxt < oldRcvNxt + TWO_32
      modifies this
      ensures RcvTracks(high, index, rcvNxt)
    {
      EpochOfAdvance(oldRcvNxt, rcvNxt);
      if Low32(oldRcvNxt) > Low32(rcvNxt) {
        HighPlusTwo(oldRcvNxt);
        High32OfEpoch(rcvNxt, oldRcvNxt + TWO_32);
        high := high[index := (high[index] + 2) % TWO_32];
        index := if index == 1 then 0 else 1;
      } else {
        High32OfEpoch(rcvNxt, oldRcvNxt);
      }
    }
  }
}

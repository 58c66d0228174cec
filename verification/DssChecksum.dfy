/**
 The DSS checksum: one's-complement sums over a mapping's payload and pseudo-header, computed by the
 receiver packet by packet.
 */
module DssChecksum {
  import opened Common
  import opened SeqArith

  /** Sum of the 16-bit words of a byte string; with `odd` the first byte is the low half of a word. */
  function WordSum(s: Bytes, odd: bool): nat {
    if s == [] then 0
    else (if odd then s[0] else 256 * s[0]) + WordSum(s[1..], !odd)
  }

  lemma {:induction false} WordSumAppend(a: Bytes, b: Bytes, odd: bool)
    ensures WordSum(a + b, odd) == WordSum(a, odd) + WordSum(b, odd != (|a| % 2 == 1))
  {
    if a == [] {
      assert a + b == b;
    } else {
      WordSumAppend(a[1..], b, !odd);
      assert (a + b)[1..] == a[1..] + b;
    }
  }

  /** A 32-bit sum with the carries added back in. */
  function Wrap32(n: nat): (w: nat)
    ensures w < TWO_32
    decreases n
  {
    if n < TWO_32 then n else Wrap32(n / TWO_32 + n % TWO_32)
  }

  /** `csum_partial`: adds the words of a buffer to a 32-bit running sum. */
  function CsumPartial(buf: Bytes, sum: nat): (w: nat)
    ensures w < TWO_32
  {
    Wrap32(sum + WordSum(buf, false))
  }

  function Fold16(n: nat): (w: nat)
    ensures w <= 0xffff
    decreases n
  {
    if n <= 0xffff then n else Fold16(n / 0x1_0000 + n % 0x1_0000)
  }

  /** `csum_fold`: the complement of the sum folded to 16 bits. */
  function CsumFold(sum: nat): (w: nat)
    ensures w <= 0xffff
  {
    0xffff - Fold16(sum)
  }

  /** The one's-complement value of a sum (RFC 1071): zero only for zero, else in 1..0xffff. */
  function Ones(n: nat): (v: nat)
    ensures v <= 0xffff && (v == 0 <==> n == 0)
  {
    if n == 0 then 0 else (n - 1) % 0xffff + 1
  }

  predicate Congruent(a: nat, b: nat) {
    a % 0xffff == b % 0xffff
  }

  /** Sums with the same one's-complement value, whatever is added to both. */
  predicate Same(a: nat, b: nat) {
    a % 0xffff == b % 0xffff && (a == 0 <==> b == 0)
  }

  lemma SameAdd(a: nat, b: nat, k: nat)
    requires Same(a, b)
    ensures Same(a + k, b + k)
  {
    ModAdd(a, b, k);
  }

  lemma ModAdd(a: nat, b: nat, k: nat)
    requires a % 0xffff == b % 0xffff
    ensures (a + k) % 0xffff == (b + k) % 0xffff
  {
    ModOf(a, b, a / 0xffff - b / 0xffff);
    ModOf(a + k, b + k, a / 0xffff - b / 0xffff);
  }

  lemma ModOf(a: nat, b: nat, q: int)
    ensures a == b + q * 0xffff ==> a % 0xffff == b % 0xffff
  {
  }

  lemma SameOnes(a: nat, b: nat)
    ensures Same(a, b) <==> Ones(a) == Ones(b)
  {
    OnesMod(a);
    OnesMod(b);
  }

  lemma OnesMod(n: nat)
    ensures n > 0 ==> 1 <= Ones(n) <= 0xffff && Ones(n) % 0xffff == n % 0xffff
    ensures Ones(n) == 0xffff <==> n > 0 && n % 0xffff == 0
  {
    if n > 0 {
      ModOf(n, Ones(n), (n - 1) / 0xffff);
    }
  }

  lemma SameTrans(a: nat, b: nat, c: nat)
    requires Same(a, b) && Same(b, c)
    ensures Same(a, c)
  {
  }

  lemma {:induction false} Fold16IsOnes(n: nat)
    ensures Fold16(n) == Ones(n)
    decreases n
  {
    if n > 0xffff {
      var m := n / 0x1_0000 + n % 0x1_0000;
      Fold16IsOnes(m);
      ModOf(n, m, n / 0x1_0000);
      SameOnes(n, m);
    }
  }

  lemma {:induction false} Wrap32Same(n: nat)
    ensures Same(Wrap32(n), n)
    decreases n
  {
    if n >= TWO_32 {
      var m := n / TWO_32 + n % TWO_32;
      Wrap32Same(m);
      assert TWO_32 - 1 == 0x1_0001 * 0xffff;
      ModOf(n, m, (n / TWO_32) * 0x1_0001);
      SameTrans(Wrap32(n), m, n);
    }
  }

  /** Only the one's-complement value of a running sum matters for what is added later. */
  lemma PartialSame(sum: nat, total: nat, buf: Bytes)
    requires Same(sum, total)
    ensures Same(CsumPartial(buf, sum), total + WordSum(buf, false))
  {
    hide Same, Wrap32, WordSum;
    Wrap32Same(sum + WordSum(buf, false));
    SameAdd(sum, total, WordSum(buf, false));
    SameTrans(CsumPartial(buf, sum), sum + WordSum(buf, false), total + WordSum(buf, false));
  }

  // ------------------------------------------------------------ sender

  /**
   The checksum written by `mptcp_write_dss_mapping`: payload sum, then data number, subflow number and
   length with a zero checksum field, then the high-order word of the data number.
   */
  function SenderChecksum(payload: Bytes, header: Bytes, high: Bytes): nat
  {
    var csum := CsumPartial(payload, 0);
    var withHeader := CsumPartial(header + [0, 0], csum);
    CsumFold(CsumPartial(high, withHeader))
  }

  /** The sum the checksum stands for: payload and pseudo-header as one string of 16-bit words. */
  function Rfc1071Sum(payload: Bytes, header: Bytes, high: Bytes): nat {
    WordSum(payload, false) + WordSum(header, false) + WordSum(high, false)
  }

  lemma SenderChecksumIs(payload: Bytes, header: Bytes, high: Bytes)
    ensures SenderChecksum(payload, header, high) == 0xffff - Ones(Rfc1071Sum(payload, header + [0, 0], high))
  {
    hide WordSum, CsumPartial, Fold16, Ones;
    var a := CsumPartial(payload, 0);
    var b := CsumPartial(header + [0, 0], a);
    var c := CsumPartial(high, b);
    PartialSame(0, 0, payload);
    PartialSame(a, WordSum(payload, false), header + [0, 0]);
    PartialSame(b, WordSum(payload, false) + WordSum(header + [0, 0], false), high);
    Fold16IsOnes(c);
    SameOnes(c, Rfc1071Sum(payload, header + [0, 0], high));
  }

  // ------------------------------------------------------------ receiver

  /**
   A packet in the subflow receive queue; `dss` is the twelve bytes of its option, if it has one, from the low word of
   the data number on: a 64-bit number's high word is added as the stored one in any case.
   */
  datatype Packet = Packet(seqNo: int, data: Bytes, dss: Option<Bytes>) {
    function End(): int {
      seqNo + |data|
    }
  }

  /** The queue is some split of the subflow bytes from the mapping's start on into non-empty packets. */
  ghost predicate SplitOf(q: seq<Packet>, from: int, bytes: Bytes) {
    && q != [] && q[0].seqNo == from && q[|q| - 1].End() == from + |bytes|
    && (forall i :: 0 <= i < |q| - 1 ==> Joined(q, i))
    && (forall i :: 0 <= i < |q| ==> PieceOf(q[i], from, bytes))
    && (|q| > 1 ==> q[|q| - 1].data != [])
  }

  ghost predicate PieceOf(k: Packet, from: int, bytes: Bytes) {
    && from <= k.seqNo && k.End() <= from + |bytes|
    && k.data == bytes[k.seqNo - from..k.seqNo - from + |k.data|]
  }

  ghost predicate Joined(q: seq<Packet>, i: nat)
    requires i + 1 < |q|
  {
    q[i].data != [] && q[i].End() == q[i + 1].seqNo
  }

  /** How many bytes of a packet belong to the mapping that ends at `mapEnd`. */
  function Inside(k: Packet, mapEnd: int): (n: nat)
    ensures n <= |k.data|
  {
    if k.End() <= mapEnd then |k.data| else if k.seqNo <= mapEnd then mapEnd - k.seqNo else 0
  }

  /** How many packets the loop looks at: up to the first one behind the head that starts at `mapEnd` or later. */
  function Looked(q: seq<Packet>, mapEnd: int, i: nat): (n: nat)
    requires i <= |q|
    ensures i <= n <= |q|
    decreases |q| - i
  {
    if i == |q| || q[i].seqNo >= mapEnd then i else Looked(q, mapEnd, i + 1)
  }

  /** The bytes of the packets that belong to the mapping, one packet after the other, overlapping or not. */
  function Gather(q: seq<Packet>, mapEnd: int): Bytes {
    if q == [] then [] else Gather(q[..|q| - 1], mapEnd) + q[|q| - 1].data[..Inside(q[|q| - 1], mapEnd)]
  }

  /** The bytes that the loop adds up. */
  function Gathered(q: seq<Packet>, mapEnd: int): Bytes
    requires q != []
  {
    Gather(q[..Looked(q, mapEnd, 1)], mapEnd)
  }

  /** A receive queue at a mapping: close enough for 32-bit comparisons, and only the head may be without bytes. */
  ghost predicate AtMapping(q: seq<Packet>, mapEnd: int) {
    && q != [] && q[0].seqNo <= mapEnd
    && (forall i :: 0 <= i < |q| ==> Near(q[i].seqNo, mapEnd) && Near(q[i].End(), mapEnd))
    && (forall i :: 0 < i < |q| ==> q[i].data != [])
  }

  /** The first option among the packets, which is the only one that is summed. */
  function FirstDss(q: seq<Packet>): Option<Bytes> {
    if q == [] then None
    else
      var first := FirstDss(q[..|q| - 1]);
      if first.Some? then first else q[|q| - 1].dss
  }

  /** The option that the loop adds. */
  function DssOf(q: seq<Packet>, mapEnd: int): Option<Bytes>
    requires q != []
  {
    FirstDss(q[..Looked(q, mapEnd, 1)])
  }

  /** The sum over the bytes gathered and, if there was an option, the pseudo-header. */
  function SumOf(gathered: Bytes, dss: Option<Bytes>, high: Bytes): nat {
    if dss.Some? then Rfc1071Sum(gathered, dss.value, high) else WordSum(gathered, false)
  }

  /** One packet's payload, continuing a sum that stands in the middle of a word if `overflowed`. */
  function AddPacket(data: Bytes, len: nat, overflowed: bool, sum: nat): nat
    requires len <= |data| && (overflowed ==> len > 0)
  {
    if overflowed then CsumPartial(data[1..len], CsumPartial([0, 0, 0, data[0]], sum))
    else CsumPartial(data[..len], sum)
  }

  lemma LowHalfWord(b: Byte)
    ensures WordSum([0, 0, 0, b], false) == b
  {
    var w: Bytes := [0, 0, 0, b];
    assert w[1..] == [0, 0, b];
    assert w[1..][1..] == [0, b];
    assert w[1..][1..][1..] == [b];
    assert WordSum([b], true) == b;
    assert WordSum([0, b], false) == b;
    assert WordSum([0, 0, b], true) == b;
  }

  lemma AddPacketSame(data: Bytes, len: nat, overflowed: bool, sum: nat, total: nat)
    requires len <= |data| && (overflowed ==> len > 0)
    requires Same(sum, total)
    ensures Same(AddPacket(data, len, overflowed, sum), total + WordSum(data[..len], overflowed))
  {
    hide Same, CsumPartial;
    if overflowed {
      LowHalfWord(data[0]);
      PartialSame(sum, total, [0, 0, 0, data[0]]);
      PartialSame(CsumPartial([0, 0, 0, data[0]], sum), total + data[0], data[1..len]);
      assert data[..len][1..] == data[1..len];
    } else {
      PartialSame(sum, total, data[..len]);
    }
  }

  /**
   `mptcp_verif_dss_csum`: the verdict is that of the RFC 1071 sum over the bytes of the packets looked at - of odd
   lengths, overlapping, the last one possibly reaching beyond the mapping - and, if one of them carries an option,
   the pseudo-header of the first such.
   */
  method VerifDssCsum(q: seq<Packet>, mapSubseq: int, mapDataLen: nat, high: Bytes) returns (ok: bool)
    requires AtMapping(q, mapSubseq + mapDataLen)
    ensures var mapEnd := mapSubseq + mapDataLen;
            ok <==> Ones(SumOf(Gathered(q, mapEnd), DssOf(q, mapEnd), high)) == 0xffff
  {
    hide Summed, CsumFold, Ones, SumOf, Gather, FirstDss;
    var mapEnd := mapSubseq + mapDataLen;
    ghost var n := Looked(q, mapEnd, 1);
    var csum, overflowed, dssAdded := 0, false, false;
    SummedStart(high);
    GatherNone(mapEnd);
    assert q[..0] == [];
    var i := 0;
    var more := true;
    while more
      invariant 0 <= i <= n && (more <==> i < n) && (i > 0 ==> Looked(q, mapEnd, i) == n)
      invariant Summed(Gather(q[..i], mapEnd), FirstDss(q[..i]), high, csum, overflowed)
      invariant overflowed ==> i > 0
      invariant dssAdded == FirstDss(q[..i]).Some?
      decreases n - i
    {
      var tmp := q[i];
      GatherNext(q, mapEnd, i);
      assert i > 0 ==> q[i].seqNo < mapEnd;
      var len := if Before(mapEnd, tmp.End()) then mapEnd - tmp.seqNo else |tmp.data|;
      csum, overflowed, dssAdded := SumPacket(tmp, len, high, csum, overflowed, dssAdded, Gather(q[..i], mapEnd),
                                              FirstDss(q[..i]));
      i := i + 1;
      more := i < |q| && Before(q[i].seqNo, mapEnd);
    }
    FoldVerdict(Gather(q[..n], mapEnd), FirstDss(q[..n]), high, csum, overflowed);
    ok := CsumFold(csum) == 0;
  }

  lemma GatherNone(mapEnd: int)
    ensures Gather([], mapEnd) == [] && FirstDss([]) == None
  {
  }

  lemma GatherNext(q: seq<Packet>, mapEnd: int, i: nat)
    requires i < |q|
    ensures Gather(q[..i + 1], mapEnd) == Gather(q[..i], mapEnd) + q[i].data[..Inside(q[i], mapEnd)]
    ensures FirstDss(q[..i + 1]) == if FirstDss(q[..i]).Some? then FirstDss(q[..i]) else q[i].dss
  {
    assert q[..i + 1][..i] == q[..i];
  }

  lemma SummedStart(high: Bytes)
    ensures Summed([], None, high, 0, false)
  {
  }

  /** A queue that splits the subflow's bytes without overlap is summed up to exactly the mapping's payload. */
  lemma SplitGathersPayload(q: seq<Packet>, from: int, mapLen: nat, bytes: Bytes)
    requires SplitOf(q, from, bytes) && mapLen <= |bytes| < TWO_31 && (mapLen == 0 ==> |q| == 1)
    ensures AtMapping(q, from + mapLen) && Gathered(q, from + mapLen) == bytes[..mapLen]
  {
    forall i | 0 <= i < |q|
      ensures Near(q[i].seqNo, from + mapLen) && Near(q[i].End(), from + mapLen) && (i > 0 ==> q[i].data != [])
    {
      assert PieceOf(q[i], from, bytes) && (i < |q| - 1 ==> Joined(q, i));
    }
    var n := Looked(q, from + mapLen, 1);
    LookedEnds(q, from + mapLen, 1);
    GatherPrefix(q, from, mapLen, bytes, n);
    assert n < |q| ==> Joined(q, n - 1);
  }

  lemma {:induction false} LookedEnds(q: seq<Packet>, mapEnd: int, i: nat)
    requires i <= |q|
    ensures var n := Looked(q, mapEnd, i);
            (forall t :: i <= t < n ==> q[t].seqNo < mapEnd) && (n < |q| ==> q[n].seqNo >= mapEnd)
    decreases |q| - i
  {
    if i < |q| && q[i].seqNo < mapEnd {
      LookedEnds(q, mapEnd, i + 1);
    }
  }

  /** The first `i` packets of a split have all bytes up to their end, or to the mapping's. */
  lemma {:induction false} GatherPrefix(q: seq<Packet>, from: int, mapLen: nat, bytes: Bytes, i: nat)
    requires SplitOf(q, from, bytes) && mapLen <= |bytes| && 0 < i <= |q|
    requires forall t :: 0 < t < i ==> q[t].seqNo < from + mapLen
    ensures var done := q[i - 1].End() - from;
            0 <= done <= |bytes| && Gather(q[..i], from + mapLen) == bytes[..if done < mapLen then done else mapLen]
    decreases i
  {
    hide Gather, SplitOf;
    var k, mapEnd := q[i - 1], from + mapLen;
    GatherNext(q, mapEnd, i - 1);
    PieceAt(q, from, bytes, i - 1);
    PieceSlice(k, from, bytes, k.seqNo - from, Inside(k, mapEnd));
    PrefixGrows(bytes, k.seqNo - from, Inside(k, mapEnd));
    if i == 1 {
      assert q[..0] == [] && bytes[..0] == [];
      GatherNone(mapEnd);
    } else {
      GatherPrefix(q, from, mapLen, bytes, i - 1);
    }
  }

  lemma PieceAt(q: seq<Packet>, from: int, bytes: Bytes, i: nat)
    requires SplitOf(q, from, bytes) && i < |q|
    ensures PieceOf(q[i], from, bytes) && from <= q[i].seqNo && q[i].End() <= from + |bytes|
    ensures q[i].seqNo == if i == 0 then from else q[i - 1].End()
  {
    assert PieceOf(q[i], from, bytes);
    assert i > 0 ==> Joined(q, i - 1);
  }

  lemma PrefixGrows(bytes: Bytes, done: nat, len: nat)
    requires done + len <= |bytes|
    ensures bytes[..done + len] == bytes[..done] + bytes[done..done + len]
  {
  }

  lemma PieceSlice(k: Packet, from: int, bytes: Bytes, done: nat, n: nat)
    requires PieceOf(k, from, bytes) && k.seqNo == from + done && n <= |k.data|
    ensures done + n <= |bytes| && k.data[..n] == bytes[done..done + n]
  {
    var e := done + |k.data|;
    assert k.data == bytes[done..e];
    assert bytes[done..e][..n] == bytes[done..done + n];
  }

  lemma FoldVerdict(payload: Bytes, dss: Option<Bytes>, high: Bytes, csum: nat, overflowed: bool)
    requires Summed(payload, dss, high, csum, overflowed)
    ensures CsumFold(csum) == 0 <==> Ones(SumOf(payload, dss, high)) == 0xffff
  {
    hide SumOf, Ones, Fold16;
    Fold16IsOnes(csum);
    SameOnes(csum, SumOf(payload, dss, high));
  }

  /** The running sum stands for these payload bytes and, once there was an option, the pseudo-header. */
  ghost predicate Summed(payload: Bytes, dss: Option<Bytes>, high: Bytes, csum: nat, overflowed: bool) {
    && (overflowed <==> |payload| % 2 == 1)
    && Same(csum, SumOf(payload, dss, high))
  }

  /** One turn of the checksum loop. */
  method SumPacket(tmp: Packet, len: nat, high: Bytes, csum0: nat, overflowed0: bool, dssAdded0: bool,
                   ghost payload: Bytes, ghost dss: Option<Bytes>)
    returns (csum: nat, overflowed: bool, dssAdded: bool)
    requires len <= |tmp.data| && (overflowed0 ==> len > 0)
    requires Summed(payload, dss, high, csum0, overflowed0) && dssAdded0 == dss.Some?
    ensures Summed(payload + tmp.data[..len], if dss.Some? then dss else tmp.dss, high, csum, overflowed)
    ensures overflowed <==> |payload + tmp.data[..len]| % 2 == 1
    ensures dssAdded <==> dssAdded0 || tmp.dss.Some?
  {
    hide WordSum, CsumPartial, AddPacket, Same;
    AddPacketSame(tmp.data, len, overflowed0, csum0, SumOf(payload, dss, high));
    WordSumAppend(payload, tmp.data[..len], false);
    csum := AddPacket(tmp.data, len, overflowed0, csum0);
    overflowed := if overflowed0 then (len - 1) % 2 == 1 else len % 2 == 1;
    dssAdded := dssAdded0;
    if tmp.dss.Some? && !dssAdded {
      PartialSame(csum, WordSum(payload + tmp.data[..len], false), tmp.dss.value);
      csum := CsumPartial(tmp.dss.value, csum);
      PartialSame(csum, WordSum(payload + tmp.data[..len], false) + WordSum(tmp.dss.value, false), high);
      csum := CsumPartial(high, csum);
      dssAdded := true;
    }
  }

  // ------------------------------------------------------------ both ends

  /**
   A mapping checksummed by the sender over `payload` passes at a receiver that gathered `got` if and only if what
   it gathered and its high-order word add up, in one's-complement arithmetic, to the sender's - in particular
   whenever it gathered the payload and both hold the same word.  The last two bytes of the header are the
   mapping's length; a checksum is only written when that is not zero.
   */
  lemma ChecksumRoundTripIff(payload: Bytes, got: Bytes, header: Bytes, high: Bytes, rcvHigh: Bytes)
    requires |header| == 10 && (header[8] != 0 || header[9] != 0)
    ensures var dss := header + Be16(SenderChecksum(payload, header, high));
            Ones(Rfc1071Sum(got, dss, rcvHigh)) == 0xffff
            <==> Congruent(WordSum(got, false) + WordSum(rcvHigh, false),
                           WordSum(payload, false) + WordSum(high, false))
  {
    hide *;
    var c := SenderChecksum(payload, header, high);
    SenderChecksumIs(payload, header, high);
    HeaderSum(header, c);
    HeaderSum(header, 0);
    LengthCounts(header);
    SumParts(payload, header + Be16(0), high);
    SumParts(got, header + Be16(c), rcvHigh);
    BeZero();
    ComplementSum(WordSum(header, false), WordSum(payload, false) + WordSum(high, false),
                  WordSum(got, false) + WordSum(rcvHigh, false));
  }

  /**
   Packets that overlap, as the subflow's receive queue may hold them, have the overlap summed twice: true data
   is rejected.  The bytes 0, 1, 0, 2 come as 0, 1, 0 and, from the third on, 0, 2.
   */
  lemma OverlapRejected(header: Bytes, high: Bytes)
    requires |header| == 10 && (header[8] != 0 || header[9] != 0)
    ensures var dss := header + Be16(SenderChecksum([0, 1, 0, 2], header, high));
            var q := [Packet(0, [0, 1, 0], Some(dss)), Packet(2, [0, 2], None)];
            AtMapping(q, 4) && Ones(SumOf(Gathered(q, 4), DssOf(q, 4), high)) != 0xffff
  {
    var sent: Bytes, got: Bytes := [0, 1, 0, 2], [0, 1, 0, 0, 2];
    var dss := header + Be16(SenderChecksum(sent, header, high));
    var q := [Packet(0, [0, 1, 0], Some(dss)), Packet(2, [0, 2], None)];
    TwoGathered(q, 4);
    assert got == q[0].data + q[1].data;
    ChecksumRoundTripIff(sent, got, header, high, high);
    SumsOfOverlap();
    CongruentAdd(0x201, 3, WordSum(high, false));
  }

  lemma TwoGathered(q: seq<Packet>, mapEnd: int)
    requires |q| == 2 && q[1].seqNo < mapEnd && q[0].End() <= mapEnd && q[1].End() <= mapEnd
    ensures Looked(q, mapEnd, 1) == 2 && Gathered(q, mapEnd) == q[0].data + q[1].data
    ensures q[0].dss.Some? ==> DssOf(q, mapEnd) == q[0].dss
  {
    GatherNone(mapEnd);
    assert q[..0] == [] && q[..2] == q;
    GatherNext(q, mapEnd, 0);
    GatherNext(q, mapEnd, 1);
  }

  lemma SumsOfOverlap()
    ensures WordSum([0, 1, 0, 2], false) == 3 && WordSum([0, 1, 0, 0, 2], false) == 0x201
  {
    assert WordSum([2], false) == 0x200 && WordSum([2], true) == 2;
    assert WordSum([0, 2], true) == 0x200 && WordSum([0, 2], false) == 2;
    assert WordSum([0, 0, 2], false) == 0x200 && WordSum([1, 0, 2], true) == 3;
    assert WordSum([1, 0, 0, 2], true) == 0x201;
  }

  lemma CongruentAdd(a: nat, b: nat, k: nat)
    requires a < 0xffff && b < 0xffff && a != b
    ensures !Congruent(a + k, b + k)
  {
  }

  lemma BeZero()
    ensures Be16(0) == [0, 0]
  {
  }

  lemma SumParts(payload: Bytes, header: Bytes, high: Bytes)
    ensures Rfc1071Sum(payload, header, high) == WordSum(payload, false) + WordSum(header, false) + WordSum(high, false)
  {
  }

  lemma HeaderSum(header: Bytes, n: int)
    requires |header| == 10 && 0 <= n <= 0xffff
    ensures WordSum(header + Be16(n), false) == WordSum(header, false) + n
  {
    WordSumAppend(header, Be16(n), false);
    WordOfBe16(n);
  }

  lemma LengthCounts(header: Bytes)
    requires |header| == 10 && (header[8] != 0 || header[9] != 0)
    ensures WordSum(header, false) > 0
  {
    var len := 256 * (header[8] as int) + (header[9] as int);
    WordSumAppend(header[..8], header[8..], false);
    assert header == header[..8] + header[8..];
    WordOfBe16(len);
    assert header[8..] == Be16(len);
  }

  lemma WordOfBe16(n: int)
    requires 0 <= n <= 0xffff
    ensures WordSum(Be16(n), false) == n
  {
    assert Be16(n)[1..] == [n % 256];
    assert WordSum([n % 256], true) == n % 256;
  }

  /** Adding the complement of a sum gives 0xffff exactly when the other summand is congruent. */
  lemma ComplementSum(base: nat, h: nat, r: nat)
    requires base > 0
    ensures Ones(base + (0xffff - Ones(base + h)) + r) == 0xffff <==> Congruent(r, h)
  {
    var n := base + h;
    var x := base + (0xffff - Ones(n)) + r;
    OnesMod(x);
    OnesMod(n);
    var j := if n == 0 then 0 else (n - 1) / 0xffff;
    assert Ones(n) == n - j * 0xffff;
    DifferenceMod(x, r, h, j + 1);
  }

  lemma DifferenceMod(x: nat, r: nat, h: nat, k: int)
    requires x == r - h + k * 0xffff
    ensures x % 0xffff == 0 <==> r % 0xffff == h % 0xffff
  {
    var a, b := r / 0xffff, h / 0xffff;
    assert x == (r % 0xffff - h % 0xffff) + (a - b + k) * 0xffff;
  }
}

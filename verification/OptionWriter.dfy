/**
 The sending side of the options: the room reserved for them, the bytes written, the DSS mapping saved with a
 segment, and what the receiver learns from the whole.
 */
module OptionWriter {
  import opened Common
  import opened SeqArith
  import opened OptionCodec

  const MAX_TCP_OPTION_SPACE := 40
  const NOP_NOP: Half := [TCPOPT_NOP, TCPOPT_NOP]

  datatype PacketType = Syn | SynAck | Ack

  /** An address to announce, with the truncated HMAC that version 1 adds. */
  datatype Announce = V4Addr(id: Byte, addr: Word, mac: Key) | V6Addr(id: Byte, addr6: V6, mac: Key)

  /** `struct tcp_out_options`: which options to write, and their fields. */
  datatype OutOptions = OutOptions(
    typ: PacketType, mpCapable: bool, mpJoin: bool, removeAddr: bool, mpFail: bool, mpFclose: bool,
    dataAck: bool, mpPrio: bool,
    ver: nat, dssCsum: bool, senderKey: Key, receiverKey: Key,
    token: Word, nonce: Word, tmac: Key, joinLowPrio: bool, addrId: Byte,
    addAddr: Option<Announce>, removeAddrs: IdBits)

  /** What the writer reads of the sockets. */
  datatype Tp = Tp(ver: nat, senderMac: Mac, cutoff: int, rcvNxt: int, lowPrio: bool)

  /** What the writer reads of the segment: does it carry a mapping, is it a DATA_FIN, and the saved option. */
  datatype OutSkb = OutSkb(dataSeq: bool, fin: bool, dss: Bytes)

  predicate RemoveAny(ids: IdBits) {
    exists i :: 0 <= i < 16 && ids[i]
  }

  predicate OutOk(o: OutOptions) {
    && (o.mpCapable ==> o.ver < 16)
    && (o.removeAddr ==> RemoveAny(o.removeAddrs))
  }

  function Announced(a: Announce, ver: nat): Opt {
    var trunc := if ver < 1 then None else Some(a.mac);
    match a
    case V4Addr(id, addr, _) => AddAddr4(id, addr, trunc)
    case V6Addr(id, addr6, _) => AddAddr6(id, addr6, trunc)
  }

  function When(b: bool, o: Opt): seq<Opt> {
    if b then [o] else []
  }

  function CapableOpt(o: OutOptions): Opt {
    if o.typ == Ack then CapableAck(o.ver, o.dssCsum, o.senderKey, o.receiverKey)
    else CapableSyn(o.ver, o.dssCsum, o.senderKey)
  }

  function JoinOpt(o: OutOptions, tp: Tp): Opt {
    match o.typ
    case Syn => JoinSyn(o.joinLowPrio, o.addrId, o.token, o.nonce)
    case SynAck => JoinSynAck(o.joinLowPrio, o.addrId, o.tmac, o.nonce)
    case Ack => JoinAck(tp.senderMac)
  }

  /** The first four options in the order of `mptcp_options_write`. */
  function EmittedHead(o: OutOptions, tp: Tp): seq<Opt> {
    When(o.mpCapable, CapableOpt(o)) + When(o.mpJoin, JoinOpt(o, tp))
      + When(o.addAddr.Some?, AnnouncedOpt(o, tp)) + When(o.removeAddr, RemoveAddr(o.removeAddrs))
  }

  /** The other four. */
  function EmittedTail(o: OutOptions, tp: Tp, fin: bool, mapping: Option<WireMapping>): seq<Opt> {
    When(o.mpFail, Fail(tp.cutoff)) + When(o.mpFclose, FClose(o.receiverKey))
      + When(o.dataAck, Dss(fin, tp.rcvNxt, mapping)) + When(o.mpPrio, Prio(tp.lowPrio))
  }

  function Emitted(o: OutOptions, tp: Tp, fin: bool, mapping: Option<WireMapping>): seq<Opt> {
    EmittedHead(o, tp) + EmittedTail(o, tp, fin, mapping)
  }

  /** The announcement of an address; any option where there is none. */
  function AnnouncedOpt(o: OutOptions, tp: Tp): Opt {
    if o.addAddr.Some? then Announced(o.addAddr.value, tp.ver) else Prio(false)
  }

  predicate MappingOk(mapping: Option<WireMapping>) {
    mapping.Some? ==> mapping.value.len < 0x1_0000
  }

  ghost predicate AllOk(opts: seq<Opt>) {
    forall o :: o in opts ==> OptOk(o)
  }

  lemma {:induction false} EncodeAppend(a: seq<Opt>, b: seq<Opt>)
    requires AllOk(a) && AllOk(b)
    ensures AllOk(a + b) && EncodeAll(a + b) == EncodeAll(a) + EncodeAll(b)
  {
    hide Encode;
    if a == [] {
      assert a + b == b;
    } else {
      assert (a + b)[1..] == a[1..] + b;
      EncodeAppend(a[1..], b);
    }
  }

  lemma {:induction false} LearnAppend(a: seq<Opt>, b: seq<Opt>, m: Received, env: Env)
    requires AllOk(a) && AllOk(b)
    ensures AllOk(a + b) && LearnAll(a + b, m, env) == LearnAll(b, LearnAll(a, m, env), env)
  {
    hide Learn;
    if a == [] {
      assert a + b == b;
    } else {
      assert (a + b)[1..] == a[1..] + b;
      LearnAppend(a[1..], b, Learn(a[0], m, env), env);
    }
  }

  /** The mapping that `mptcp_write_dss_mapping` writes for a segment. */
  function MappingOf(seq32: int, end: int, subseq: int, emptyFin: bool, inf: bool, csumOn: bool,
                     csum: Half): (m: WireMapping)
    ensures m.len < 0x1_0000
  {
    var len := if inf then 0 else (end - seq32) % 0x1_0000;
    var sum: Half := if len > 0 then csum else NOP_NOP;
    WireMapping(seq32, if emptyFin then 0 else subseq, len,
            if csumOn then Some(sum) else None)
  }

  /**
   `mptcp_save_dss_data_seq`: twenty bytes, as the option will stand in the header.  They are the acknowledgement,
   the data number, the subflow number (0 on a DATA_FIN without data), the length, and the checksum or two NOPs.
   */
  method SaveDssDataSeq(fin: bool, rcvNxt: int, seq32: int, end: int, subseq: int, emptyFin: bool, inf: bool,
                        csumOn: bool, csum: Half) returns (dss: Bytes)
    ensures |dss| == 20
    ensures dss[0] == 30 && dss[1] == (if csumOn then 20 else 18) && dss[2] == 0x20 && dss[3] == if fin then 0x15 else 5
    ensures FromBe32(dss[4..]) == Low32(rcvNxt) && FromBe32(dss[8..]) == Low32(seq32)
    ensures FromBe32(dss[12..]) == if emptyFin then 0 else Low32(subseq)
    ensures FromBe16(dss[16..]) == if inf then 0 else (end - seq32) % 0x1_0000
    ensures dss[18..] == if csumOn && !inf && (end - seq32) % 0x1_0000 > 0 then csum else [1, 1]
    ensures Saved(dss, fin, rcvNxt, MappingOf(seq32, end, subseq, emptyFin, inf, csumOn, csum))
  {
    hide *;
    ghost var mp := MappingOf(seq32, end, subseq, emptyFin, inf, csumOn, csum);
    var len := if inf then 0 else (end - seq32) % 0x1_0000;
    dss := [TCPOPT_MPTCP, if csumOn then 20 else 18, 2 * 16, if fin then 0x15 else 5] + Be32(rcvNxt);
    dss := dss + Be32(seq32) + Be32(if emptyFin then 0 else subseq) + Be16(len);
    dss := dss + (if csumOn && len > 0 then csum else NOP_NOP);
    SavedFrom(dss, fin, rcvNxt, seq32, end, subseq, emptyFin, inf, csumOn, csum);
  }

  /** Written field by field, the option is the encoding of the mapping. */
  lemma SavedFrom(dss: Bytes, fin: bool, rcvNxt: int, seq32: int, end: int, subseq: int, emptyFin: bool, inf: bool,
                  csumOn: bool, csum: Half)
    requires var len := if inf then 0 else (end - seq32) % 0x1_0000;
             dss == [TCPOPT_MPTCP, if csumOn then 20 else 18, 2 * 16, if fin then 0x15 else 5] + Be32(rcvNxt)
                    + Be32(seq32) + Be32(if emptyFin then 0 else subseq) + Be16(len)
                    + (if csumOn && len > 0 then csum else NOP_NOP)
    ensures |dss| == 20
    ensures dss[0] == 30 && dss[1] == (if csumOn then 20 else 18) && dss[2] == 0x20 && dss[3] == if fin then 0x15 else 5
    ensures FromBe32(dss[4..]) == Low32(rcvNxt) && FromBe32(dss[8..]) == Low32(seq32)
    ensures FromBe32(dss[12..]) == if emptyFin then 0 else Low32(subseq)
    ensures FromBe16(dss[16..]) == if inf then 0 else (end - seq32) % 0x1_0000
    ensures dss[18..] == if csumOn && !inf && (end - seq32) % 0x1_0000 > 0 then csum else [1, 1]
    ensures Saved(dss, fin, rcvNxt, MappingOf(seq32, end, subseq, emptyFin, inf, csumOn, csum))
  {
    hide Be32, Be16, Nops, FromBe32, FromBe16;
    var mp := MappingOf(seq32, end, subseq, emptyFin, inf, csumOn, csum);
    var rest: Bytes := if csumOn && mp.len > 0 then csum else NOP_NOP;
    var head := [TCPOPT_MPTCP, 18 + 2 * Bit(csumOn), 2 * 16, DssFlags(fin, true)] + Be32(rcvNxt);
    assert dss == head + (Be32(mp.seq32) + Be32(mp.subseq) + Be16(mp.len) + rest);
    assert dss[18..] == rest;
    FieldsAt(dss, rcvNxt, mp);
    SavedAs(dss, fin, rcvNxt, mp, rest);
  }

  lemma SavedAs(dss: Bytes, fin: bool, ack: int, mp: WireMapping, rest: Half)
    requires mp.len < 0x1_0000 && rest == (if mp.csum.Some? then mp.csum.value else NOP_NOP)
    requires dss == [TCPOPT_MPTCP, 18 + 2 * Bit(mp.csum.Some?), 2 * 16, DssFlags(fin, true)] + Be32(ack)
                    + (Be32(mp.seq32) + Be32(mp.subseq) + Be16(mp.len) + rest)
    ensures Saved(dss, fin, ack, mp)
  {
    hide Be32, Be16, Nops, DssFlags;
    TwoNops();
    var head := [TCPOPT_MPTCP, 18 + 2 * Bit(mp.csum.Some?), 2 * 16, DssFlags(fin, true)] + Be32(ack);
    var body := Body(Dss(fin, ack, Some(mp)));
    var tail := if mp.csum.Some? then mp.csum.value else [];
    assert body == head + MappingBytes(mp) == head + (Be32(mp.seq32) + Be32(mp.subseq) + Be16(mp.len) + tail);
    assert dss == body + Nops(Padding(|body|));
  }

  /** The numbers of a saved option, read at their places. */
  lemma FieldsAt(dss: Bytes, ack: int, mp: WireMapping)
    requires |dss| == 20 && mp.len < 0x1_0000
    requires dss[4..] == Be32(ack) + (Be32(mp.seq32) + Be32(mp.subseq) + Be16(mp.len) + dss[18..])
    ensures FromBe32(dss[4..]) == Low32(ack) && FromBe32(dss[8..]) == Low32(mp.seq32)
    ensures FromBe32(dss[12..]) == Low32(mp.subseq) && FromBe16(dss[16..]) == mp.len
  {
    hide Be32, Be16, FromBe32, FromBe16;
    var t := Be32(mp.seq32) + Be32(mp.subseq) + Be16(mp.len) + dss[18..];
    assert dss[4..8] == dss[4..][..4] == Be32(ack);
    assert dss[8..] == dss[4..][4..] == t;
    AckAt(dss, ack);
    NumbersAt(t, dss[18..], mp);
    assert dss[12..] == t[4..] && dss[16..] == t[8..];
  }

  lemma NumbersAt(t: Bytes, rest: Bytes, mp: WireMapping)
    requires mp.len < 0x1_0000 && t == Be32(mp.seq32) + Be32(mp.subseq) + Be16(mp.len) + rest
    ensures FromBe32(t) == Low32(mp.seq32) && FromBe32(t[4..]) == Low32(mp.subseq) && FromBe16(t[8..]) == mp.len
  {
    hide Be32, Be16, FromBe32, FromBe16;
    MappingRoundTrip(mp.(csum := None), rest);
    assert t == MappingBytes(mp.(csum := None)) + rest;
  }

  lemma TwoNops()
    ensures Nops(2) == NOP_NOP && Nops(0) == []
  {
  }

  ghost predicate Saved(dss: Bytes, fin: bool, ack: int, mapping: WireMapping) {
    mapping.len < 0x1_0000 && dss == Encode(Dss(fin, ack, Some(mapping)))
  }

  lemma SavedShape(dss: Bytes, fin: bool, ack: int, mapping: WireMapping)
    requires Saved(dss, fin, ack, mapping)
    ensures |dss| == 20 && dss[2] / 16 == 2 && dss[3] == DssFlags(fin, true) && dss[4..8] == Be32(ack)
    ensures |MappingBytes(mapping)| + |Nops(Padding(8 + |MappingBytes(mapping)|))| == 12
    ensures dss[8..] == MappingBytes(mapping) + Nops(Padding(8 + |MappingBytes(mapping)|))
  {
    hide Be32, Nops, DssFlags, MappingBytes;
    MappingLength(mapping);
    var body := Body(Dss(fin, ack, Some(mapping)));
    assert |body| == 8 + |MappingBytes(mapping)|;
    assert dss == body + Nops(Padding(|body|));
  }

  /** `mptcp_write_dss_data_seq`: the saved option with the acknowledgement of the moment. */
  method WriteDssDataSeq(dss: Bytes, rcvNxt: int, ghost fin: bool, ghost ack: int, ghost mapping: WireMapping)
    returns (out: Bytes)
    requires Saved(dss, fin, ack, mapping)
    ensures Saved(out, fin, rcvNxt, mapping)
  {
    SavedShape(dss, fin, ack, mapping);
    hide Be32, Nops, DssFlags, MappingBytes;
    MappingLength(mapping);
    out := dss[..4] + Be32(rcvNxt) + dss[8..];
    ghost var head := [TCPOPT_MPTCP, 18 + 2 * Bit(mapping.csum.Some?), 2 * 16, DssFlags(fin, true)];
    ghost var pad := Nops(Padding(8 + |MappingBytes(mapping)|));
    assert Body(Dss(fin, ack, Some(mapping))) == head + Be32(ack) + MappingBytes(mapping);
    assert dss[..4] == head;
    ghost var body := Body(Dss(fin, rcvNxt, Some(mapping)));
    assert body == head + Be32(rcvNxt) + MappingBytes(mapping) && |body| == 8 + |MappingBytes(mapping)|;
    assert out == body + pad;
  }

  datatype Range = Range(seq32: nat, endSeq: nat)

  /** `mptcp_reconstruct_mapping`: the data range of a segment from the option saved with it. */
  function Reconstruct(dss: Bytes, dataSeq: bool): Option<Range>
    requires |dss| == 20 && AckLen(dss[3]) <= 4
  {
    if !dataSeq || !Flag(dss[3], 4) then None
    else
      var at := 4 + AckLen(dss[3]);
      var first := FromBe32(dss[at..]);
      Some(Range(first, Low32(FromBe16(dss[at + 8..]) + first)))
  }

  lemma Reconstructed(dss: Bytes, fin: bool, ack: int, mp: WireMapping)
    requires Saved(dss, fin, ack, mp)
    ensures |dss| == 20 && AckLen(dss[3]) <= 4
    ensures Reconstruct(dss, true) == Some(Range(Low32(mp.seq32), Low32(mp.len + Low32(mp.seq32))))
  {
    SavedShape(dss, fin, ack, mp);
    FlagsRead(fin, true);
    LengthsRead(fin, true, false);
    MappingRoundTrip(mp, Nops(Padding(8 + |MappingBytes(mp)|)));
    hide Be32, Be16, Nops, DssFlags, MappingBytes, FromBe32, FromBe16, Flag, AckLen, Saved;
    assert dss[8..][0..] == dss[8..];
    assert dss[16..] == dss[8..][8..];
  }

  /**
   Reconstruction gives back the range the option was saved for exactly when the length fits in 16 bits; an
   infinite mapping keeps only the start.
   */
  lemma ReconstructIff(dss: Bytes, fin: bool, ack: int, seq32: int, end: int, subseq: int, emptyFin: bool, inf: bool,
                       csumOn: bool, csum: Half)
    requires Saved(dss, fin, ack, MappingOf(seq32, end, subseq, emptyFin, inf, csumOn, csum))
    ensures |dss| == 20 && AckLen(dss[3]) <= 4
    ensures Reconstruct(dss, true) == Some(Range(Low32(seq32), Low32(end)))
       <==> Low32(end - seq32) < (if inf then 1 else 0x1_0000)
    ensures Reconstruct(dss, true).Some? && Reconstruct(dss, true).value.seq32 == Low32(seq32)
  {
    var mp := MappingOf(seq32, end, subseq, emptyFin, inf, csumOn, csum);
    hide Saved, Reconstruct, AckLen;
    Reconstructed(dss, fin, ack, mp);
    RangeEnd(seq32, end, mp.len);
    Low16OfLow32(end - seq32);
  }

  /** A segment of 2^16 bytes: the option saved with it gives back an empty range. */
  method LongSegmentForgotten() returns (dss: Bytes)
    ensures |dss| == 20 && AckLen(dss[3]) <= 4 && Reconstruct(dss, true) != Some(Range(0, 0x1_0000))
  {
    hide Encode, Reconstruct;
    dss := SaveDssDataSeq(false, 0, 0, 0x1_0000, 0, false, false, false, NOP_NOP);
    ReconstructIff(dss, false, 0, 0, 0x1_0000, 0, false, false, false, NOP_NOP);
  }

  lemma Low16OfLow32(x: int)
    ensures Low32(x) % 0x1_0000 == x % 0x1_0000
  {
    assert x == TWO_32 * (x / TWO_32) + Low32(x);
  }

  lemma RangeEnd(first: int, end: int, len: nat)
    requires len < 0x1_0000
    ensures Low32(len + Low32(first)) == Low32(end) <==> Low32(end - first) == len
  {
  }

  /** The bytes an option takes in the header. */
  function Length(o: Opt): nat {
    match o
    case CapableSyn(_, _, _) => 12
    case CapableAck(_, _, _, _) => 20
    case JoinSyn(_, _, _, _) => 12
    case JoinSynAck(_, _, _, _) => 16
    case JoinAck(_) => 24
    case AddAddr4(_, _, trunc) => if trunc.None? then 8 else 16
    case AddAddr6(_, _, trunc) => if trunc.None? then 20 else 28
    case RemoveAddr(ids) => RemoveLength(ids)
    case Fail(_) => 12
    case FClose(_) => 12
    case Dss(_, _, mapping) => if mapping.None? then 8 else 20
    case Prio(_) => 4
  }

  /** `mptcp_sub_len_remove_addr_align` */
  function RemoveLength(ids: IdBits): nat {
    3 + |SetBits(ids, 0)| + Padding(3 + |SetBits(ids, 0)|)
  }

  lemma EncodedLength(o: Opt)
    requires OptOk(o)
    ensures |Encode(o)| == Length(o)
  {
    hide Be32, Be64, Be16, SetBits, Nops;
    if o.Dss? && o.mapping.Some? {
      MappingLength(o.mapping.value);
    }
  }

  function TotalLength(opts: seq<Opt>): nat {
    if opts == [] then 0 else Length(opts[0]) + TotalLength(opts[1..])
  }

  lemma {:induction false} EncodedTotal(opts: seq<Opt>)
    requires AllOk(opts)
    ensures |EncodeAll(opts)| == TotalLength(opts)
  {
    hide Encode, Length;
    if opts != [] {
      EncodedLength(opts[0]);
      EncodedTotal(opts[1..]);
    }
  }

  lemma {:induction false} TotalAppend(a: seq<Opt>, b: seq<Opt>)
    ensures TotalLength(a + b) == TotalLength(a) + TotalLength(b)
  {
    hide Length;
    if a == [] {
      assert a + b == b;
    } else {
      assert (a + b)[1..] == a[1..] + b;
      TotalAppend(a[1..], b);
    }
  }

  function If(b: bool, n: nat): nat {
    if b then n else 0
  }

  function AnnounceLength(a: Option<Announce>, ver: nat): nat {
    if a.None? then 0
    else if a.value.V4Addr? then (if ver < 1 then 8 else 16)
    else if ver < 1 then 20 else 28
  }

  /** The room for a set of options, flag by flag. */
  function ReservedHead(o: OutOptions, tp: Tp): nat {
    If(o.mpCapable, Length(CapableOpt(o))) + If(o.mpJoin, Length(JoinOpt(o, tp))) + AnnounceLength(o.addAddr, tp.ver)
      + If(o.removeAddr, RemoveLength(o.removeAddrs))
  }

  function ReservedTail(o: OutOptions, mapped: bool): nat {
    If(o.mpFail, 12) + If(o.mpFclose, 12) + If(o.dataAck, if mapped then 20 else 8) + If(o.mpPrio, 4)
  }

  function Reserved(o: OutOptions, tp: Tp, mapped: bool): nat {
    ReservedHead(o, tp) + ReservedTail(o, mapped)
  }

  lemma WhenLength(b: bool, o: Opt)
    ensures TotalLength(When(b, o)) == If(b, Length(o))
  {
    hide Length;
  }

  lemma TotalOfFour(a: seq<Opt>, b: seq<Opt>, c: seq<Opt>, d: seq<Opt>)
    ensures TotalLength(a + b + c + d) == TotalLength(a) + TotalLength(b) + TotalLength(c) + TotalLength(d)
  {
    hide TotalLength;
    TotalAppend(a, b);
    TotalAppend(a + b, c);
    TotalAppend(a + b + c, d);
  }

  lemma HeadLength(o: OutOptions, tp: Tp)
    ensures TotalLength(EmittedHead(o, tp)) == ReservedHead(o, tp)
  {
    hide TotalLength, When, CapableOpt, JoinOpt, RemoveLength, AnnounceLength, Announced, AnnouncedOpt, If;
    TotalOfFour(When(o.mpCapable, CapableOpt(o)), When(o.mpJoin, JoinOpt(o, tp)),
                When(o.addAddr.Some?, AnnouncedOpt(o, tp)), When(o.removeAddr, RemoveAddr(o.removeAddrs)));
    WhenLength(o.mpCapable, CapableOpt(o));
    WhenLength(o.mpJoin, JoinOpt(o, tp));
    WhenLength(o.addAddr.Some?, AnnouncedOpt(o, tp));
    AnnouncedLength(o, tp);
    WhenLength(o.removeAddr, RemoveAddr(o.removeAddrs));
    assert Length(RemoveAddr(o.removeAddrs)) == RemoveLength(o.removeAddrs);
  }

  lemma TailLength(o: OutOptions, tp: Tp, fin: bool, mapping: Option<WireMapping>)
    ensures TotalLength(EmittedTail(o, tp, fin, mapping)) == ReservedTail(o, mapping.Some?)
  {
    hide TotalLength, When, If;
    TotalOfFour(When(o.mpFail, Fail(tp.cutoff)), When(o.mpFclose, FClose(o.receiverKey)),
                When(o.dataAck, Dss(fin, tp.rcvNxt, mapping)), When(o.mpPrio, Prio(tp.lowPrio)));
    WhenLength(o.mpFail, Fail(tp.cutoff));
    WhenLength(o.mpFclose, FClose(o.receiverKey));
    WhenLength(o.dataAck, Dss(fin, tp.rcvNxt, mapping));
    WhenLength(o.mpPrio, Prio(tp.lowPrio));
    assert Length(Fail(tp.cutoff)) == 12 && Length(FClose(o.receiverKey)) == 12 && Length(Prio(tp.lowPrio)) == 4;
    assert Length(Dss(fin, tp.rcvNxt, mapping)) == if mapping.Some? then 20 else 8;
  }

  lemma EmittedLength(o: OutOptions, tp: Tp, fin: bool, mapping: Option<WireMapping>)
    ensures TotalLength(Emitted(o, tp, fin, mapping)) == Reserved(o, tp, mapping.Some?)
  {
    hide TotalLength, EmittedHead, EmittedTail, ReservedHead, ReservedTail;
    HeadLength(o, tp);
    TailLength(o, tp, fin, mapping);
    TotalAppend(EmittedHead(o, tp), EmittedTail(o, tp, fin, mapping));
  }

  // What each flag adds to the room reserved.

  lemma AddFail(o: OutOptions, tp: Tp, mapped: bool)
    requires !o.mpFail
    ensures Reserved(o.(mpFail := true), tp, mapped) == Reserved(o, tp, mapped) + 12
  {
    hide Length, RemoveLength, AnnounceLength;
  }

  lemma AddFclose(o: OutOptions, tp: Tp, mapped: bool, key: Key)
    requires !o.mpFclose && !o.mpCapable
    ensures Reserved(o.(mpFclose := true, receiverKey := key), tp, mapped) == Reserved(o, tp, mapped) + 12
  {
    hide Length, RemoveLength, AnnounceLength;
    assert JoinOpt(o.(mpFclose := true, receiverKey := key), tp) == JoinOpt(o, tp);
  }

  lemma AddCapable(o: OutOptions, tp: Tp, mapped: bool, ver: nat, sender: Key, receiver: Key, csum: bool)
    requires !o.mpCapable && o.typ == Ack
    ensures Reserved(o.(mpCapable := true, ver := ver, senderKey := sender, receiverKey := receiver,
              dssCsum := csum), tp, mapped)
         == Reserved(o, tp, mapped) + 20
  {
    hide RemoveLength, AnnounceLength;
    var n := o.(mpCapable := true, ver := ver, senderKey := sender, receiverKey := receiver, dssCsum := csum);
    assert JoinOpt(n, tp) == JoinOpt(o, tp) && Length(CapableOpt(n)) == 20;
  }

  lemma AddJoin(o: OutOptions, tp: Tp, mapped: bool)
    requires !o.mpJoin && o.typ == Ack
    ensures Reserved(o.(mpJoin := true), tp, mapped) == Reserved(o, tp, mapped) + 24
  {
    hide RemoveLength, AnnounceLength;
    var n := o.(mpJoin := true);
    assert CapableOpt(n) == CapableOpt(o) && Length(JoinOpt(n, tp)) == 24;
  }

  /** The options with what `addr_signal` of the path manager asks for. */
  function Signalled(o: OutOptions, a: Option<Announce>, take: bool, ids: IdBits): OutOptions {
    o.(addAddr := a, removeAddr := take, removeAddrs := ids)
  }

  lemma AddSignal(o: OutOptions, tp: Tp, mapped: bool, a: Option<Announce>, take: bool, ids: IdBits)
    requires o.addAddr.None? && !o.removeAddr
    ensures Reserved(Signalled(o, a, take, ids), tp, mapped)
         == Reserved(o, tp, mapped) + AnnounceLength(a, tp.ver) + If(take, RemoveLength(ids))
  {
    hide Length, RemoveLength;
    var n := Signalled(o, a, take, ids);
    assert CapableOpt(n) == CapableOpt(o) && JoinOpt(n, tp) == JoinOpt(o, tp);
  }

  lemma AddDataAck(o: OutOptions, tp: Tp, mapped: bool)
    requires !o.dataAck
    ensures Reserved(o.(dataAck := true), tp, mapped) == Reserved(o, tp, mapped) + (if mapped then 20 else 8)
  {
    hide Length, RemoveLength, AnnounceLength;
    var n := o.(dataAck := true);
    assert CapableOpt(n) == CapableOpt(o) && JoinOpt(n, tp) == JoinOpt(o, tp);
  }

  lemma AddPrio(o: OutOptions, tp: Tp, mapped: bool)
    requires !o.mpPrio
    ensures Reserved(o.(mpPrio := true), tp, mapped) == Reserved(o, tp, mapped) + 4
  {
    hide Length, RemoveLength, AnnounceLength;
    var n := o.(mpPrio := true);
    assert CapableOpt(n) == CapableOpt(o) && JoinOpt(n, tp) == JoinOpt(o, tp);
  }

  lemma NothingReserved(tp: Tp, mapped: bool)
    ensures Reserved(NO_OPTIONS, tp, mapped) == 0
  {
  }

  lemma AnnouncedLength(o: OutOptions, tp: Tp)
    ensures If(o.addAddr.Some?, Length(AnnouncedOpt(o, tp))) == AnnounceLength(o.addAddr, tp.ver)
  {
  }

  const NO_OPTIONS: OutOptions :=
    OutOptions(Ack, false, false, false, false, false, false, false, 0, false,
               [0, 0, 0, 0, 0, 0, 0, 0], [0, 0, 0, 0, 0, 0, 0, 0], [0, 0, 0, 0], [0, 0, 0, 0],
               [0, 0, 0, 0, 0, 0, 0, 0], false, 0, None, seq(16, _ => false))

  /** `MAX_TCP_OPTION_SPACE - size` in unsigned arithmetic. */
  function Left(size: nat): nat {
    Low32(MAX_TCP_OPTION_SPACE - size)
  }

  /** Within the header the difference is what is left. */
  lemma LeftIs(size: nat)
    ensures size <= MAX_TCP_OPTION_SPACE ==> Left(size) == MAX_TCP_OPTION_SPACE - size
  {
  }

  /** The parts of a subflow and its connection that decide which options a segment gets. */
  class Subsock {
    var sendMpFail: bool
    var sendMpFclose: bool
    var includeMpc: bool
    var preEstablished: bool
    var addrSignal: bool
    var sendMpPrio: bool
    var addAddrs: nat            // announcements still to be sent
    var removeAddrs: IdBits
    var ver: nat
    var dssCsum: bool
    var locKey: Key
    var remKey: Key

    constructor ()
      ensures ver == 0 && addAddrs == 0 && !addrSignal && !includeMpc && !preEstablished && !sendMpFclose
    {
      sendMpFail, sendMpFclose, includeMpc := false, false, false;
      preEstablished, addrSignal, sendMpPrio := false, false, false;
      addAddrs, removeAddrs, ver, dssCsum := 0, seq(16, _ => false), 0, false;
      locKey, remKey := [0, 0, 0, 0, 0, 0, 0, 0], [0, 0, 0, 0, 0, 0, 0, 0];
    }

    predicate Fits(size: nat, v0: nat, v1: nat)
      reads this`ver
    {
      Left(size) >= if ver == 0 then v0 else v1
    }

    /** Which address is announced: the first that fits, IPv4 before IPv6. */
    function Announced(size: nat, v4: Option<Announce>, v6: Option<Announce>): Option<Announce>
      reads this`addAddrs, this`ver
    {
      if addAddrs == 0 then None
      else if v4.Some? && Fits(size, 8, 16) then v4
      else if v6.Some? && Fits(size, 20, 28) then v6
      else None
    }

    /** What `full_mesh_addr_signal` adds to the size: the announced address, and the removed ones if they still fit. */
    function SignalLength(size: nat, v4: Option<Announce>, v6: Option<Announce>): nat
      reads this`addAddrs, this`removeAddrs, this`ver
    {
      var a := AnnounceLength(Announced(size, v4, v6), ver);
      a + If(RemoveAny(removeAddrs) && Left(size + a) >= RemoveLength(removeAddrs), RemoveLength(removeAddrs))
    }

    /** The room of the options that are added without a look at what is left, before the acknowledgement. */
    function EarlyLength(infinite: bool): nat
      reads this
    {
      If(sendMpFail, 12) + (if sendMpFclose then 12 else if infinite then 0
                            else If(includeMpc, 20) + If(preEstablished, 24))
    }

    /** The room of the acknowledgement, and the mapping, once it is settled whether MP_CAPABLE goes along. */
    function AckRoom(mapped: bool): nat
      reads this`includeMpc, this`preEstablished
    {
      if includeMpc || preEstablished then 0 else if mapped then 20 else 8
    }

    /** The room of the acknowledgement, and the mapping; MP_CAPABLE is sent once, and then does not keep it away. */
    function AckLength(sending: bool, mapped: bool): nat
      reads this
    {
      if (includeMpc && !sending) || preEstablished then 0 else if mapped then 20 else 8
    }

    /**
     The size that is reached whatever is left: the early options, the addresses if they come before the
     acknowledgement (version 1, no data), and the acknowledgement unless an IPv6 address ends the list.
     */
    function ForcedSize(size: nat, sending: bool, mapped: bool, infinite: bool, v4: Option<Announce>,
                        v6: Option<Announce>): nat
      reads this
    {
      var early := size + EarlyLength(infinite);
      if sendMpFclose || infinite then early
      else ForcedRest(early, AckLength(sending, mapped), sending && !mapped, v4, v6)
    }

    /** The last two of them, for an acknowledgement that takes `ack` bytes. */
    function ForcedRest(early: nat, ack: nat, plain: bool, v4: Option<Announce>, v6: Option<Announce>): nat
      reads this`addrSignal, this`ver, this`addAddrs, this`removeAddrs
    {
      if addrSignal && ver >= 1 && plain then
        var a := Announced(early, v4, v6);
        early + SignalLength(early, v4, v6) + (if a.Some? && a.value.V6Addr? then 0 else ack)
      else early + ack
    }

    /** The first part of `full_mesh_addr_signal`: at most one address that fits is announced. */
    method PickAnnounce(size: nat, sending: bool, v4: Option<Announce>, v6: Option<Announce>)
      returns (a: Option<Announce>, newSize: nat)
      requires (v4.Some? ==> v4.value.V4Addr?) && (v6.Some? ==> v6.value.V6Addr?)
      modifies this`addAddrs
      ensures newSize == size + AnnounceLength(a, ver) && a == old(Announced(size, v4, v6))
      ensures old(addAddrs) > 0 ==>
                a == if v4.Some? && Left(size) >= (if ver == 0 then 8 else 16) then v4
                     else if v6.Some? && Left(size) >= (if ver == 0 then 20 else 28) then v6 else None
      ensures size <= MAX_TCP_OPTION_SPACE ==> newSize <= MAX_TCP_OPTION_SPACE
      ensures a.Some? ==> old(addAddrs) > 0 && (a == v4 || a == v6)
      ensures a.Some? && sending ==> addAddrs == old(addAddrs) - 1
    {
      LeftIs(size);
      hide Left;
      a, newSize := None, size;
      if addAddrs > 0 {
        if v4.Some? && Fits(size, 8, 16) {
          a := v4;
        } else if v6.Some? && Fits(size, 20, 28) {
          a := v6;
        }
        newSize := size + AnnounceLength(a, ver);
        if sending && (a.Some? || (v4.None? && v6.None?)) {
          addAddrs := addAddrs - 1;
        }
      }
    }

    /** Its second part: all removed addresses at once, if they fit. */
    method PickRemove(size: nat, sending: bool) returns (take: bool, ids: IdBits, newSize: nat)
      modifies this`removeAddrs
      ensures newSize == size + If(take, RemoveLength(ids))
      ensures take == old(RemoveAny(removeAddrs) && Left(size) >= RemoveLength(removeAddrs))
      ensures size <= MAX_TCP_OPTION_SPACE ==> newSize <= MAX_TCP_OPTION_SPACE
      ensures take ==> RemoveAny(ids) && ids == old(removeAddrs) && (sending ==> !RemoveAny(removeAddrs))
      ensures !take ==> removeAddrs == old(removeAddrs)
    {
      LeftIs(size);
      hide Left, RemoveLength, SetBits;
      take, ids, newSize := RemoveAny(removeAddrs) && Left(size) >= RemoveLength(removeAddrs), removeAddrs, size;
      if take {
        newSize := size + RemoveLength(ids);
        if sending {
          removeAddrs := seq(16, _ => false);
        }
      }
    }

    /** `full_mesh_addr_signal`; `v4` and `v6` are the first addresses not yet announced, if any and of use. */
    method AddrSignal(size: nat, sending: bool, v4: Option<Announce>, v6: Option<Announce>)
      returns (a: Option<Announce>, take: bool, ids: IdBits, newSize: nat)
      requires (v4.Some? ==> v4.value.V4Addr?) && (v6.Some? ==> v6.value.V6Addr?)
      modifies this`addrSignal, this`addAddrs, this`removeAddrs
      ensures newSize == size + AnnounceLength(a, ver) + If(take, RemoveLength(ids))
      ensures a == old(Announced(size, v4, v6)) && newSize == size + old(SignalLength(size, v4, v6))
      ensures old(addAddrs) > 0 ==>
                a == if v4.Some? && Left(size) >= (if ver == 0 then 8 else 16) then v4
                     else if v6.Some? && Left(size) >= (if ver == 0 then 20 else 28) then v6 else None
      ensures take <==>
                && old(RemoveAny(removeAddrs))
                && Left(size + AnnounceLength(a, ver)) >= RemoveLength(old(removeAddrs))
      ensures size <= MAX_TCP_OPTION_SPACE ==> newSize <= MAX_TCP_OPTION_SPACE
      ensures take ==> RemoveAny(ids) && ids == old(removeAddrs) && (sending ==> !RemoveAny(removeAddrs))
      ensures a.Some? ==> old(addAddrs) > 0 && (a == v4 || a == v6)
      ensures addrSignal == (addAddrs > 0 || RemoveAny(removeAddrs))
    {
      hide RemoveLength, AnnounceLength, RemoveAny, Left, Announced;
      a, newSize := PickAnnounce(size, sending, v4, v6);
      take, ids, newSize := PickRemove(newSize, sending);
      addrSignal := addAddrs > 0 || RemoveAny(removeAddrs);
    }

    /** The options before the acknowledgement; `last` when none may follow. */
    method EarlyOptions(sending: bool, size: nat, infinite: bool, ghost tp: Tp, ghost mapped: bool)
      returns (opts: OutOptions, newSize: nat, last: bool)
      requires ver < 16
      modifies this`includeMpc
      ensures newSize == size + Reserved(opts, tp, mapped)
      ensures OutOk(opts) && opts.typ == Ack && opts.addAddr.None? && !opts.removeAddr && !opts.dataAck && !opts.mpPrio
      ensures !(opts.mpCapable && opts.mpFclose)
      ensures opts.mpFail == sendMpFail && opts.mpFclose == sendMpFclose
      ensures opts.mpCapable ==>
                && opts.ver == ver && opts.dssCsum == dssCsum
                && opts.senderKey == locKey && opts.receiverKey == remKey
      ensures opts.mpFclose ==> opts.receiverKey == remKey
      ensures opts.mpCapable == (old(includeMpc) && !last) && opts.mpJoin == (preEstablished && !last)
      ensures last == (sendMpFclose || infinite) && newSize == size + old(EarlyLength(infinite))
      ensures !last ==> includeMpc == (old(includeMpc) && !sending)
    {
      hide Reserved, RemoveAny;
      opts, newSize, last := NO_OPTIONS, size, false;
      NothingReserved(tp, mapped);
      if sendMpFail {
        AddFail(opts, tp, mapped);
        opts, newSize := opts.(mpFail := true), newSize + 12;
      }
      if sendMpFclose {
        AddFclose(opts, tp, mapped, remKey);
        return opts.(mpFclose := true, receiverKey := remKey), newSize + 12, true;
      }
      if infinite {
        return opts, newSize, true;
      }
      if includeMpc {
        AddCapable(opts, tp, mapped, ver, locKey, remKey, dssCsum);
        opts := opts.(mpCapable := true, ver := ver, senderKey := locKey, receiverKey := remKey, dssCsum := dssCsum);
        newSize := newSize + 20;
        if sending {
          includeMpc := false;
        }
      }
      if preEstablished {
        AddJoin(opts, tp, mapped);
        opts, newSize := opts.(mpJoin := true), newSize + 24;
      }
    }

    /** One call of the path manager within `mptcp_established_options`. */
    method SignalOptions(opts: OutOptions, size: nat, sending: bool, v4: Option<Announce>, v6: Option<Announce>,
                         ghost tp: Tp, ghost mapped: bool)
      returns (out: OutOptions, newSize: nat)
      requires OutOk(opts) && opts.addAddr.None? && !opts.removeAddr && tp.ver == ver
      requires (v4.Some? ==> v4.value.V4Addr?) && (v6.Some? ==> v6.value.V6Addr?)
      modifies this`addrSignal, this`addAddrs, this`removeAddrs
      ensures OutOk(out) && SameEarly(opts, out) && out.dataAck == opts.dataAck && !out.mpPrio == !opts.mpPrio
      ensures newSize - size == Reserved(out, tp, mapped) - Reserved(opts, tp, mapped)
      ensures out.removeAddr ==> out.removeAddrs == old(removeAddrs)
      ensures out.addAddr == old(Announced(size, v4, v6)) && newSize == size + old(SignalLength(size, v4, v6))
      ensures size <= MAX_TCP_OPTION_SPACE ==> newSize <= MAX_TCP_OPTION_SPACE
    {
      hide RemoveLength, AnnounceLength, RemoveAny, If, Reserved, Announced, SignalLength;
      var a, take, ids;
      a, take, ids, newSize := AddrSignal(size, sending, v4, v6);
      AddSignal(opts, tp, mapped, a, take, ids);
      out := Signalled(opts, a, take, ids);
    }

    /** The acknowledgement; a data segment, or the question for its size, needs room for a mapping too. */
    method AckOption(opts: OutOptions, size: nat, skb: Option<OutSkb>, ghost tp: Tp, ghost mapped: bool)
      returns (out: OutOptions, newSize: nat)
      requires OutOk(opts) && !opts.dataAck && (mapped <==> (skb.None? || skb.value.dataSeq))
      ensures OutOk(out) && SameEarly(opts, out)
      ensures out.addAddr == opts.addAddr && out.removeAddr == opts.removeAddr && out.removeAddrs == opts.removeAddrs
      ensures out.mpPrio == opts.mpPrio && out.dataAck == !(includeMpc || preEstablished)
      ensures newSize - size == Reserved(out, tp, mapped) - Reserved(opts, tp, mapped)
      ensures newSize == size + AckRoom(mapped)
    {
      hide Reserved, RemoveAny;
      out, newSize := opts, size;
      if !includeMpc && !preEstablished {
        AddDataAck(opts, tp, mapped);
        out := opts.(dataAck := true);
        newSize := size + (if skb.Some? && !skb.value.dataSeq then 4 else 16) + 4;
      }
    }

    method PrioOption(opts: OutOptions, size: nat, sending: bool, ghost tp: Tp, ghost mapped: bool)
      returns (out: OutOptions, newSize: nat)
      requires OutOk(opts) && !opts.mpPrio
      modifies this`sendMpPrio
      ensures OutOk(out) && SameEarly(opts, out)
      ensures out.removeAddr == opts.removeAddr && out.removeAddrs == opts.removeAddrs
      ensures out.addAddr == opts.addAddr && out.dataAck == opts.dataAck
      ensures out.mpPrio == (old(sendMpPrio) && Left(size) >= 4)
      ensures newSize - size == Reserved(out, tp, mapped) - Reserved(opts, tp, mapped)
      ensures newSize == size + If(out.mpPrio, 4)
      ensures size <= MAX_TCP_OPTION_SPACE ==> newSize <= MAX_TCP_OPTION_SPACE
    {
      LeftIs(size);
      hide Left, Reserved, RemoveAny;
      out, newSize := opts, size;
      if sendMpPrio && Left(size) >= 4 {
        AddPrio(opts, tp, mapped);
        out, newSize := opts.(mpPrio := true), size + 4;
        if sending {
          sendMpPrio := false;
        }
      }
    }

    /** On a connection of version 0 the addresses come behind the acknowledgement. */
    method LateSignal(opts: OutOptions, size: nat, sending: bool, v4: Option<Announce>, v6: Option<Announce>,
                      ghost tp: Tp, ghost mapped: bool)
      returns (out: OutOptions, newSize: nat)
      requires OutOk(opts) && !opts.mpPrio && tp.ver == ver && (ver < 1 ==> opts.addAddr.None? && !opts.removeAddr)
      requires (v4.Some? ==> v4.value.V4Addr?) && (v6.Some? ==> v6.value.V6Addr?)
      modifies this`addrSignal, this`addAddrs, this`removeAddrs
      ensures OutOk(out) && SameEarly(opts, out) && !out.mpPrio && out.dataAck == opts.dataAck
      ensures newSize - size == Reserved(out, tp, mapped) - Reserved(opts, tp, mapped)
      ensures if old(addrSignal) && ver < 1 then
                && (out.removeAddr ==> out.removeAddrs == old(removeAddrs))
                && out.addAddr == old(Announced(size, v4, v6)) && newSize == size + old(SignalLength(size, v4, v6))
              else out == opts && newSize == size
      ensures newSize <= MAX_TCP_OPTION_SPACE <==> size <= MAX_TCP_OPTION_SPACE
    {
      hide Reserved, RemoveAny, OutOk, Announced, SignalLength, Left;
      out, newSize := opts, size;
      if addrSignal && ver < 1 {
        out, newSize := SignalOptions(opts, size, sending, v4, v6, tp, mapped);
      }
    }

    /** The acknowledgement, and whatever may stand with it. */
    method LateOptions(opts: OutOptions, size: nat, skb: Option<OutSkb>, v4: Option<Announce>, v6: Option<Announce>,
                       ghost tp: Tp, ghost mapped: bool)
      returns (out: OutOptions, newSize: nat)
      requires OutOk(opts) && !opts.dataAck && !opts.mpPrio && tp.ver == ver
      requires ver < 1 ==> opts.addAddr.None? && !opts.removeAddr
      requires (v4.Some? ==> v4.value.V4Addr?) && (v6.Some? ==> v6.value.V6Addr?)
      requires mapped <==> (skb.None? || skb.value.dataSeq)
      modifies this`addrSignal, this`addAddrs, this`removeAddrs, this`sendMpPrio
      ensures OutOk(out) && SameEarly(opts, out)
      ensures newSize - size == Reserved(out, tp, mapped) - Reserved(opts, tp, mapped)
      ensures ver < 1 && out.removeAddr ==> out.removeAddrs == old(removeAddrs)
      ensures ver >= 1 ==> out.removeAddr == opts.removeAddr && out.removeAddrs == opts.removeAddrs
      ensures newSize <= MAX_TCP_OPTION_SPACE <==>
              size + AckRoom(mapped) <= MAX_TCP_OPTION_SPACE
      ensures var acked := size + AckRoom(mapped);
              var signal := old(addrSignal) && ver < 1;
              var signalled := acked + if signal then old(SignalLength(acked, v4, v6)) else 0;
              && out.addAddr == (if signal then old(Announced(acked, v4, v6)) else opts.addAddr)
              && out.mpPrio == (old(sendMpPrio) && Left(signalled) >= 4)
              && out.dataAck == !(includeMpc || preEstablished)
              && newSize == signalled + If(out.mpPrio, 4)
    {
      hide Reserved, RemoveAny, SameEarly, OutOk, Announced, SignalLength, Left;
      var acked, signalled;
      acked, newSize := AckOption(opts, size, skb, tp, mapped);
      signalled, newSize := LateSignal(acked, newSize, skb.Some?, v4, v6, tp, mapped);
      SameEarlyChain(opts, acked, signalled);
      out, newSize := PrioOption(signalled, newSize, skb.Some?, tp, mapped);
      SameEarlyChain(opts, signalled, out);
    }

    /** What follows the early options: the addresses of version 1, if no data has to be mapped, and the late ones. */
    method RestOptions(opts: OutOptions, size: nat, skb: Option<OutSkb>, v4: Option<Announce>, v6: Option<Announce>,
                       ghost tp: Tp, ghost mapped: bool)
      returns (out: OutOptions, newSize: nat)
      requires OutOk(opts) && !opts.dataAck && !opts.mpPrio && tp.ver == ver && opts.addAddr.None? && !opts.removeAddr
      requires (v4.Some? ==> v4.value.V4Addr?) && (v6.Some? ==> v6.value.V6Addr?)
      requires mapped <==> (skb.None? || skb.value.dataSeq)
      modifies this`addrSignal, this`addAddrs, this`removeAddrs, this`sendMpPrio
      ensures OutOk(out) && SameEarly(opts, out)
      ensures newSize - size == Reserved(out, tp, mapped) - Reserved(opts, tp, mapped)
      ensures out.removeAddr ==> out.removeAddrs == old(removeAddrs)
      ensures mapped || ver < 1 || !old(addrSignal) ==> out.dataAck == !(includeMpc || preEstablished)
      ensures out.addAddr == if !old(addrSignal) then None
                             else if ver < 1 then old(Announced(size + AckRoom(mapped), v4, v6))
                             else if skb.Some? && !mapped then old(Announced(size, v4, v6)) else None
      ensures newSize <= MAX_TCP_OPTION_SPACE <==>
              old(ForcedRest(size, AckRoom(mapped), skb.Some? && !mapped, v4, v6)) <= MAX_TCP_OPTION_SPACE
    {
      hide Reserved, RemoveAny, SameEarly, OutOk, Announced, SignalLength, Left;
      SameEarlyChain(opts, opts, opts);
      out, newSize := opts, size;
      if addrSignal && ver >= 1 && skb.Some? && !skb.value.dataSeq {
        out, newSize := SignalOptions(opts, size, true, v4, v6, tp, mapped);
        if out.addAddr.Some? && out.addAddr.value.V6Addr? {
          return;
        }
      }
      var before := out;
      out, newSize := LateOptions(before, newSize, skb, v4, v6, tp, mapped);
      SameEarlyChain(opts, before, out);
    }

    /**
     `mptcp_established_options`: the room reserved is exactly what the writer will take.  Without a segment the
     caller asks for the size a data segment would need.
     */
    method EstablishedOptions(skb: Option<OutSkb>, size: nat, infinite: bool,
                              v4: Option<Announce>, v6: Option<Announce>,
                              ghost tp: Tp, ghost fin: bool, ghost mapping: Option<WireMapping>)
      returns (opts: OutOptions, newSize: nat)
      requires ver < 16 && tp.ver == ver
      requires (v4.Some? ==> v4.value.V4Addr?) && (v6.Some? ==> v6.value.V6Addr?)
      requires mapping.Some? <==> (skb.None? || skb.value.dataSeq)
      modifies this`includeMpc, this`addrSignal, this`addAddrs, this`removeAddrs, this`sendMpPrio
      ensures OutOk(opts) && opts.typ == Ack
      ensures newSize == size + TotalLength(Emitted(opts, tp, fin, mapping))
      ensures !(opts.mpCapable && opts.mpFclose)
      ensures opts.mpFail == old(sendMpFail) && opts.mpFclose == old(sendMpFclose)
      ensures opts.mpCapable ==>
                && opts.ver == ver && opts.dssCsum == dssCsum
                && opts.senderKey == locKey && opts.receiverKey == remKey
      ensures opts.mpFclose ==> opts.receiverKey == remKey
      ensures opts.mpCapable == (old(includeMpc) && !old(sendMpFclose) && !infinite)
      ensures opts.mpJoin == (preEstablished && !old(sendMpFclose) && !infinite)
      ensures mapping.Some? || ver < 1 || !old(addrSignal) ==>
                opts.dataAck == (!old(sendMpFclose) && !infinite && !preEstablished
                                 && (old(includeMpc) ==> skb.Some?))
      ensures opts.removeAddr ==> opts.removeAddrs == old(removeAddrs)
      ensures var early := size + old(EarlyLength(infinite));
              var mapped := mapping.Some?;
              opts.addAddr ==
                if old(sendMpFclose) || infinite || !old(addrSignal) then None
                else if ver < 1 then old(Announced(early + AckLength(skb.Some?, mapped), v4, v6))
                else if skb.Some? && !mapped then old(Announced(early, v4, v6)) else None
      ensures newSize <= MAX_TCP_OPTION_SPACE <==>
              old(ForcedSize(size, skb.Some?, mapping.Some?, infinite, v4, v6)) <= MAX_TCP_OPTION_SPACE
    {
      hide Reserved, TotalLength, Emitted, RemoveAny, OutOk, Announced, SignalLength, EarlyLength, ForcedRest;
      var last;
      opts, newSize, last := EarlyOptions(skb.Some?, size, infinite, tp, mapping.Some?);
      if !last {
        opts, newSize := RestOptions(opts, newSize, skb, v4, v6, tp, mapping.Some?);
      }
      EmittedLength(opts, tp, fin, mapping);
    }
  }

  /**
   A header that is too long: twelve bytes of other options, MP_FAIL and a mapped segment make 44, and because the
   difference wraps MP_PRIO is added as well.
   */
  method FailWithDataTooLong() returns (newSize: nat)
    ensures newSize == 48 > MAX_TCP_OPTION_SPACE
  {
    hide Reserved, TotalLength, Emitted, RemoveLength, AnnounceLength, RemoveAny, OutOk, Announced;
    var sub := new Subsock();
    sub.sendMpFail, sub.sendMpPrio := true, true;
    var opts, last;
    ghost var tp := Tp(0, seq(20, _ => 0), 0, 0, false);
    opts, newSize, last := sub.EarlyOptions(true, 12, false, tp, true);
    opts, newSize := sub.LateOptions(opts, newSize, None, None, None, tp, true);
  }

  /** The options settled before any address or acknowledgement. */
  predicate SameEarly(o: OutOptions, n: OutOptions) {
    n == o.(addAddr := n.addAddr, removeAddr := n.removeAddr, removeAddrs := n.removeAddrs,
            dataAck := n.dataAck, mpPrio := n.mpPrio)
  }

  lemma SameEarlyChain(a: OutOptions, b: OutOptions, c: OutOptions)
    requires SameEarly(a, b)
    ensures SameEarly(b, b) && (SameEarly(b, c) ==> SameEarly(a, c))
  {
  }

  /** `mptcp_options_write`: the options go into the header at a pointer that moves on. */
  class HeaderWriter {
    const mem: array<Byte>
    var ptr: nat

    constructor (mem: array<Byte>)
      ensures this.mem == mem && ptr == 0
    {
      this.mem, ptr := mem, 0;
    }

    method Put(bytes: Bytes)
      requires ptr + |bytes| <= mem.Length
      modifies this`ptr, mem
      ensures ptr == old(ptr) + |bytes|
      ensures mem[..old(ptr)] == old(mem[..ptr]) && mem[old(ptr)..ptr] == bytes
      ensures mem[ptr..] == old(mem[ptr + |bytes|..])
    {
      for i := 0 to |bytes|
        invariant ptr == old(ptr)
        invariant forall k :: 0 <= k < mem.Length ==>
                    mem[k] == if ptr <= k < ptr + i then bytes[k - ptr] else old(mem[k])
      {
        mem[ptr + i] := bytes[i];
      }
      ptr := ptr + |bytes|;
    }

    method PutBehind(bytes: Bytes, ghost start: nat)
      requires start <= ptr && ptr + |bytes| <= mem.Length
      modifies this`ptr, mem
      ensures ptr == old(ptr) + |bytes|
      ensures mem[..start] == old(mem[..start]) && mem[start..ptr] == old(mem[start..ptr]) + bytes
    {
      ghost var p := ptr;
      Put(bytes);
      assert mem[start..p] == mem[..p][start..];
      assert mem[start..ptr] == mem[start..p] + mem[p..ptr];
      assert mem[..start] == mem[..p][..start];
    }

    /** Puts the bytes of an option behind those of the options `done` that start at `start`. */
    method PutWhen(flag: bool, bytes: Bytes, ghost o: Opt, ghost done: seq<Opt>, ghost start: nat)
      requires start <= ptr <= mem.Length && AllOk(done) && mem[start..ptr] == EncodeAll(done)
      requires flag ==> OptOk(o) && bytes == Encode(o) && ptr + Length(o) <= mem.Length
      modifies this`ptr, mem
      ensures ptr == old(ptr) + If(flag, Length(o)) <= mem.Length
      ensures AllOk(done + When(flag, o)) && mem[start..ptr] == EncodeAll(done + When(flag, o))
      ensures mem[..start] == old(mem[..start])
    {
      hide Encode, Length, EncodeAll;
      if flag {
        EncodedLength(o);
        EncodeOne(o);
        EncodeAppend(done, [o]);
        PutBehind(bytes, start);
      } else {
        assert done + [] == done;
      }
    }

    /** One byte for each set bit of the removed addresses. */
    method ListIds(ids: IdBits) returns (list: Bytes)
      ensures list == SetBits(ids, 0)
    {
      hide SetBits;
      list := [];
      SetBitsEnd(ids);
      for i := 0 to 16
        invariant list + SetBits(ids, i) == SetBits(ids, 0)
      {
        SetBitsStep(ids, i);
        if ids[i] {
          list := list + [i];
        }
      }
    }

    /** The list, then NOPs up to the next word. */
    method RemoveAddrBytes(ids: IdBits) returns (bytes: Bytes)
      requires RemoveAny(ids)
      ensures OptOk(RemoveAddr(ids)) && bytes == Encode(RemoveAddr(ids))
    {
      hide Nops, SetBits;
      var list := ListIds(ids);
      bytes := [TCPOPT_MPTCP, 3 + |list|, 4 * 16] + list;
      assert bytes == RemoveBytes(ids) == Body(RemoveAddr(ids));
      bytes := bytes + Nops(Padding(|bytes|));
    }

    method WriteHead(o: OutOptions, tp: Tp)
      requires OutOk(o) && ptr + ReservedHead(o, tp) <= mem.Length
      modifies this`ptr, mem
      ensures ptr == old(ptr) + ReservedHead(o, tp) <= mem.Length
      ensures AllOk(EmittedHead(o, tp)) && mem[old(ptr)..ptr] == EncodeAll(EmittedHead(o, tp))
      ensures mem[..old(ptr)] == old(mem[..ptr])
    {
      hide Encode, Length, EncodeAll, RemoveLength, AnnounceLength, When, CapableOpt, JoinOpt, AnnouncedOpt, RemoveAny;
      ghost var start := ptr;
      ghost var done: seq<Opt> := [];
      NoOptions();
      AnnouncedLength(o, tp);
      HeadOk(o, tp);
      assert mem[start..ptr] == [];
      PutWhen(o.mpCapable, if o.mpCapable then Encode(CapableOpt(o)) else [], CapableOpt(o), done, start);
      done := done + When(o.mpCapable, CapableOpt(o));
      PutWhen(o.mpJoin, if o.mpJoin then Encode(JoinOpt(o, tp)) else [], JoinOpt(o, tp), done, start);
      done := done + When(o.mpJoin, JoinOpt(o, tp));
      PutWhen(o.addAddr.Some?, Encode(AnnouncedOpt(o, tp)), AnnouncedOpt(o, tp), done, start);
      done := done + When(o.addAddr.Some?, AnnouncedOpt(o, tp));
      var removed: Bytes := [];
      if o.removeAddr {
        removed := RemoveAddrBytes(o.removeAddrs);
      }
      PutWhen(o.removeAddr, removed, RemoveAddr(o.removeAddrs), done, start);
      done := done + When(o.removeAddr, RemoveAddr(o.removeAddrs));
      assert done == EmittedHead(o, tp);
    }

    /** The bytes of the acknowledgement: fresh for a segment without a mapping, else the saved ones. */
    method DssOption(tp: Tp, skb: OutSkb, ghost saved: int, ghost mapping: Option<WireMapping>) returns (bytes: Bytes)
      requires mapping.Some? <==> skb.dataSeq
      requires skb.dataSeq ==> Saved(skb.dss, skb.fin, saved, mapping.value)
      ensures OptOk(Dss(skb.fin, tp.rcvNxt, mapping)) && bytes == Encode(Dss(skb.fin, tp.rcvNxt, mapping))
    {
      hide Encode;
      if skb.dataSeq {
        bytes := WriteDssDataSeq(skb.dss, tp.rcvNxt, skb.fin, saved, mapping.value);
      } else {
        bytes := Encode(Dss(skb.fin, tp.rcvNxt, None));
      }
    }

    method WriteTail(o: OutOptions, tp: Tp, skb: OutSkb, ghost saved: int, ghost mapping: Option<WireMapping>)
      requires ptr + ReservedTail(o, mapping.Some?) <= mem.Length
      requires mapping.Some? <==> skb.dataSeq
      requires skb.dataSeq ==> Saved(skb.dss, skb.fin, saved, mapping.value)
      modifies this`ptr, mem
      ensures ptr == old(ptr) + ReservedTail(o, mapping.Some?) <= mem.Length
      ensures AllOk(EmittedTail(o, tp, skb.fin, mapping))
      ensures mem[old(ptr)..ptr] == EncodeAll(EmittedTail(o, tp, skb.fin, mapping))
      ensures mem[..old(ptr)] == old(mem[..ptr])
    {
      hide Encode, EncodeAll, When, Length, OptOk, Saved;
      ghost var start := ptr;
      ghost var done: seq<Opt> := [];
      NoOptions();
      TailLengths(o, tp, skb.fin, mapping);
      assert mem[start..ptr] == [];
      PutWhen(o.mpFail, Encode(Fail(tp.cutoff)), Fail(tp.cutoff), done, start);
      done := done + When(o.mpFail, Fail(tp.cutoff));
      PutWhen(o.mpFclose, Encode(FClose(o.receiverKey)), FClose(o.receiverKey), done, start);
      done := done + When(o.mpFclose, FClose(o.receiverKey));
      var dss := DssOption(tp, skb, saved, mapping);
      PutWhen(o.dataAck, dss, Dss(skb.fin, tp.rcvNxt, mapping), done, start);
      done := done + When(o.dataAck, Dss(skb.fin, tp.rcvNxt, mapping));
      PutWhen(o.mpPrio, Encode(Prio(tp.lowPrio)), Prio(tp.lowPrio), done, start);
      done := done + When(o.mpPrio, Prio(tp.lowPrio));
      assert done == EmittedTail(o, tp, skb.fin, mapping);
    }

    /** `mptcp_options_write`: the bytes written are the encodings one after the other, and as many as were reserved. */
    method OptionsWrite(o: OutOptions, tp: Tp, skb: OutSkb, ghost saved: int, ghost mapping: Option<WireMapping>)
      requires OutOk(o) && ptr + TotalLength(Emitted(o, tp, skb.fin, mapping)) <= mem.Length
      requires mapping.Some? <==> skb.dataSeq
      requires skb.dataSeq ==> Saved(skb.dss, skb.fin, saved, mapping.value)
      modifies this`ptr, mem
      ensures AllOk(Emitted(o, tp, skb.fin, mapping))
      ensures ptr == old(ptr) + TotalLength(Emitted(o, tp, skb.fin, mapping)) <= mem.Length
      ensures mem[old(ptr)..ptr] == EncodeAll(Emitted(o, tp, skb.fin, mapping))
      ensures mem[..old(ptr)] == old(mem[..ptr])
    {
      hide EncodeAll, TotalLength, EmittedHead, EmittedTail, ReservedHead, ReservedTail, OutOk;
      EmittedLength(o, tp, skb.fin, mapping);
      ghost var start := ptr;
      WriteHead(o, tp);
      ghost var middle := ptr;
      ghost var head := mem[start..middle];
      WriteTail(o, tp, skb, saved, mapping);
      EncodeAppend(EmittedHead(o, tp), EmittedTail(o, tp, skb.fin, mapping));
      assert mem[start..middle] == mem[..middle][start..] == head;
      assert mem[start..ptr] == mem[start..middle] + mem[middle..ptr];
      assert mem[..start] == mem[..middle][..start];
    }
  }

  lemma SetBitsStep(ids: IdBits, n: nat)
    requires n < 16
    ensures SetBits(ids, n) == (if ids[n] then [n] else []) + SetBits(ids, n + 1)
  {
  }

  lemma SetBitsEnd(ids: IdBits)
    ensures SetBits(ids, 16) == []
  {
  }

  lemma HeadOk(o: OutOptions, tp: Tp)
    requires OutOk(o)
    ensures o.mpCapable ==> OptOk(CapableOpt(o))
    ensures OptOk(JoinOpt(o, tp)) && OptOk(AnnouncedOpt(o, tp))
    ensures Length(RemoveAddr(o.removeAddrs)) == RemoveLength(o.removeAddrs)
    ensures o.removeAddr ==> RemoveAny(o.removeAddrs)
  {
    hide RemoveLength;
  }

  lemma TailLengths(o: OutOptions, tp: Tp, fin: bool, mapping: Option<WireMapping>)
    ensures Length(Fail(tp.cutoff)) == 12 && Length(FClose(o.receiverKey)) == 12 && Length(Prio(tp.lowPrio)) == 4
    ensures Length(Dss(fin, tp.rcvNxt, mapping)) == if mapping.Some? then 20 else 8
    ensures OptOk(Fail(tp.cutoff)) && OptOk(FClose(o.receiverKey)) && OptOk(Prio(tp.lowPrio))
    ensures MappingOk(mapping) ==> OptOk(Dss(fin, tp.rcvNxt, mapping))
  {
  }

  lemma EncodeOne(o: Opt)
    requires OptOk(o)
    ensures EncodeAll([o]) == Encode(o)
  {
    hide Encode;
  }

  lemma NoOptions()
    ensures EncodeAll([]) == [] && TotalLength([]) == 0
  {
  }

  /** What a receiver knows of the handshake after the first four options. */
  function HandshakeRead(o: OutOptions, tp: Tp, h: Handshake, env: Env): Handshake {
    var first, third := o.mpJoin && o.typ == Syn, o.mpJoin && o.typ == Ack;
    h.(sawMpc := h.sawMpc || o.mpCapable || o.mpJoin,
       dssCsum := if o.mpCapable then env.sysctlCsum || o.dssCsum else h.dssCsum,
       ver := if o.mpCapable then o.ver else h.ver,
       receiverKey := if o.mpCapable && o.typ == Ack then o.receiverKey else h.receiverKey,
       isMpJoin := h.isMpJoin || first,
       joinAck := h.joinAck || third,
       recvMac := if third then tp.senderMac else h.recvMac,
       remId := if o.mpJoin && o.typ != Ack then o.addrId else h.remId,
       recvNonce := if o.mpJoin && o.typ != Ack then o.nonce else h.recvNonce,
       remToken := if first then o.token else h.remToken,
       recvTmac := if o.mpJoin && o.typ == SynAck then o.tmac else h.recvTmac)
  }

  /** ... of the addresses: the first announcement and the first removal are kept. */
  function AddrsRead(o: OutOptions, tp: Tp, a: Addrs, env: Env): Addrs
    requires OutOk(o)
  {
    var announced := o.addAddr.Some? && env.ver.Some? && (env.ver.value >= 1) == (tp.ver >= 1);
    a.(sawAddAddr := a.sawAddAddr || announced,
       moreAddAddr := a.moreAddAddr || (a.sawAddAddr && announced),
       addAddr := if announced && !a.sawAddAddr then Body(AnnouncedOpt(o, tp)) else a.addAddr,
       sawRemAddr := a.sawRemAddr || o.removeAddr,
       moreRemAddr := a.moreRemAddr || (a.sawRemAddr && o.removeAddr),
       remAddr := if o.removeAddr && !a.sawRemAddr then RemoveBytes(o.removeAddrs) else a.remAddr)
  }

  /** ... of the signals: where two options share a field, the later one stands. */
  function SignalsRead(o: OutOptions, tp: Tp, g: Signals): Signals {
    g.(senderKey := if o.mpFclose then o.receiverKey else if o.mpCapable then o.senderKey else g.senderKey,
       lowPrio := if o.mpPrio then tp.lowPrio else if o.mpJoin && o.typ != Ack then o.joinLowPrio else g.lowPrio,
       sawLowPrio := if o.mpPrio then 1 else g.sawLowPrio,
       mpFail := g.mpFail || o.mpFail,
       mpFclose := g.mpFclose || o.mpFclose)
  }

  /** ... and of the data. */
  function DataRead(o: OutOptions, tp: Tp, fin: bool, mapping: Option<WireMapping>, d: Data): Data {
    if !o.dataAck then d
    else
      var e := d.(flagAck := true, dataAck := Low32(tp.rcvNxt));
      if mapping.None? then e.(dss := [])
      else
        var mp := mapping.value;
        e.(dss := MappingBytes(mp), flagSeq := true, dataSeq := Low32(mp.seq32), dataLen := mp.len,
           flagCsum := d.flagCsum || mp.csum.Some?, flagFin := d.flagFin || fin)
  }

  function HeadRead(o: OutOptions, tp: Tp, m: Received, env: Env): Received
    requires OutOk(o)
  {
    Received(HandshakeRead(o, tp, m.hs, env),
             m.sig.(senderKey := if o.mpCapable then o.senderKey else m.sig.senderKey,
                    lowPrio := if o.mpJoin && o.typ != Ack then o.joinLowPrio else m.sig.lowPrio),
             m.data, AddrsRead(o, tp, m.addrs, env))
  }

  function AllRead(o: OutOptions, tp: Tp, fin: bool, mapping: Option<WireMapping>, m: Received, env: Env): Received
    requires OutOk(o)
  {
    Received(HandshakeRead(o, tp, m.hs, env), SignalsRead(o, tp, m.sig), DataRead(o, tp, fin, mapping, m.data),
             AddrsRead(o, tp, m.addrs, env))
  }

  lemma LearnWhen(b: bool, o: Opt, m: Received, env: Env)
    requires b ==> OptOk(o)
    ensures AllOk(When(b, o)) && LearnAll(When(b, o), m, env) == if b then Learn(o, m, env) else m
  {
    hide Learn;
    if b {
      assert LearnAll([o][1..], Learn(o, m, env), env) == Learn(o, m, env);
    }
  }

  lemma LearnFour(a: seq<Opt>, b: seq<Opt>, c: seq<Opt>, d: seq<Opt>, m: Received, env: Env)
    requires AllOk(a) && AllOk(b) && AllOk(c) && AllOk(d)
    ensures AllOk(a + b + c + d)
    ensures LearnAll(a + b + c + d, m, env) == LearnAll(d, LearnAll(c, LearnAll(b, LearnAll(a, m, env), env), env), env)
  {
    hide LearnAll;
    LearnAppend(a, b, m, env);
    LearnAppend(a + b, c, m, env);
    LearnAppend(a + b + c, d, m, env);
  }

  function TailSteps(o: OutOptions, tp: Tp, fin: bool, mapping: Option<WireMapping>, m: Received): Received {
    var g1 := if o.mpFail then LearnFail(m.sig) else m.sig;
    var g2 := if o.mpFclose then LearnFclose(o.receiverKey, g1) else g1;
    var g3 := if o.mpPrio then LearnPrio(tp.lowPrio, g2) else g2;
    m.(sig := g3, data := if o.dataAck then LearnDss(fin, tp.rcvNxt, mapping, m.data) else m.data)
  }

  lemma TailStepsRead(o: OutOptions, tp: Tp, fin: bool, mapping: Option<WireMapping>, m: Received, env: Env)
    requires OutOk(o)
    ensures TailSteps(o, tp, fin, mapping, HeadRead(o, tp, m, env)) == AllRead(o, tp, fin, mapping, m, env)
  {
    hide MappingBytes, Low32, HandshakeRead, AddrsRead, OutOk;
  }

  lemma TailLearned(o: OutOptions, tp: Tp, fin: bool, mapping: Option<WireMapping>, m: Received, env: Env)
    requires MappingOk(mapping)
    ensures AllOk(EmittedTail(o, tp, fin, mapping))
    ensures LearnAll(EmittedTail(o, tp, fin, mapping), m, env) == TailSteps(o, tp, fin, mapping, m)
  {
    hide LearnAll, When, LearnFail, LearnFclose, LearnDss, LearnPrio;
    var f, k, d, p := Fail(tp.cutoff), FClose(o.receiverKey), Dss(fin, tp.rcvNxt, mapping), Prio(tp.lowPrio);
    var m1 := if o.mpFail then m.(sig := LearnFail(m.sig)) else m;
    var m2 := if o.mpFclose then m1.(sig := LearnFclose(o.receiverKey, m1.sig)) else m1;
    var m3 := if o.dataAck then m2.(data := LearnDss(fin, tp.rcvNxt, mapping, m2.data)) else m2;
    LearnWhen(o.mpFail, f, m, env);
    LearnWhen(o.mpFclose, k, m1, env);
    LearnWhen(o.dataAck, d, m2, env);
    LearnWhen(o.mpPrio, p, m3, env);
    LearnFour(When(o.mpFail, f), When(o.mpFclose, k), When(o.dataAck, d), When(o.mpPrio, p), m, env);
  }

  function HeadSteps(o: OutOptions, tp: Tp, m: Received, env: Env): Received
    requires OutOk(o)
  {
    var m1 := if o.mpCapable then Learn(CapableOpt(o), m, env) else m;
    var m2 := if o.mpJoin then Learn(JoinOpt(o, tp), m1, env) else m1;
    var m3 := if o.addAddr.Some? then Learn(AnnouncedOpt(o, tp), m2, env) else m2;
    if o.removeAddr then Learn(RemoveAddr(o.removeAddrs), m3, env) else m3
  }

  lemma LearnCapableOpt(o: OutOptions, m: Received, env: Env)
    requires o.ver < 16
    ensures Learn(CapableOpt(o), m, env)
         == LearnCapable(o.ver, o.dssCsum, o.senderKey, if o.typ == Ack then Some(o.receiverKey) else None, m, env)
  {
    hide LearnCapable;
  }

  lemma LearnAnnouncedOpt(o: OutOptions, tp: Tp, m: Received, env: Env)
    requires o.addAddr.Some?
    ensures OptOk(AnnouncedOpt(o, tp))
    ensures Learn(AnnouncedOpt(o, tp), m, env)
         == m.(addrs := LearnAddr(Body(AnnouncedOpt(o, tp)), tp.ver >= 1, m.addrs, env))
  {
    hide LearnAddr, Body;
  }

  function JoinSteps(o: OutOptions, tp: Tp, m: Received): Received {
    match o.typ
    case Syn => LearnJoinSyn(o.joinLowPrio, o.addrId, o.token, o.nonce, m)
    case SynAck => LearnJoinSynAck(o.joinLowPrio, o.addrId, o.tmac, o.nonce, m)
    case Ack => LearnJoinAck(tp.senderMac, m)
  }

  lemma LearnJoinOpt(o: OutOptions, tp: Tp, m: Received, env: Env)
    ensures Learn(JoinOpt(o, tp), m, env) == JoinSteps(o, tp, m)
  {
    hide LearnJoinSyn, LearnJoinSynAck, LearnJoinAck;
  }

  /** The handshake options leave data and addresses alone, and set what they carry. */
  lemma HandshakeSteps(o: OutOptions, tp: Tp, m: Received, env: Env)
    ensures var receiver := if o.typ == Ack then Some(o.receiverKey) else None;
            var m1 := if o.mpCapable then LearnCapable(o.ver, o.dssCsum, o.senderKey, receiver, m, env) else m;
            var m2 := if o.mpJoin then JoinSteps(o, tp, m1) else m1;
            && m2.hs == HandshakeRead(o, tp, m.hs, env) && m2.data == m.data && m2.addrs == m.addrs
            && m2.sig == m.sig.(senderKey := if o.mpCapable then o.senderKey else m.sig.senderKey,
                                lowPrio := if o.mpJoin && o.typ != Ack then o.joinLowPrio else m.sig.lowPrio)
  {
  }

  lemma AddrSteps(o: OutOptions, tp: Tp, a: Addrs, env: Env)
    requires OutOk(o)
    ensures var a1 := if o.addAddr.Some? then LearnAddr(Body(AnnouncedOpt(o, tp)), tp.ver >= 1, a, env) else a;
            (if o.removeAddr then LearnRemove(RemoveBytes(o.removeAddrs), a1) else a1) == AddrsRead(o, tp, a, env)
  {
    hide Body, RemoveBytes, AnnouncedOpt;
  }

  lemma LearnRemoveOpt(ids: IdBits, m: Received, env: Env)
    requires RemoveAny(ids)
    ensures Learn(RemoveAddr(ids), m, env) == m.(addrs := LearnRemove(RemoveBytes(ids), m.addrs))
  {
    hide LearnRemove, RemoveBytes;
  }

  lemma HeadStepsRead(o: OutOptions, tp: Tp, m: Received, env: Env)
    requires OutOk(o)
    ensures HeadSteps(o, tp, m, env) == HeadRead(o, tp, m, env)
  {
    hide Learn, LearnCapable, JoinSteps, LearnAddr, LearnRemove, HandshakeRead, AddrsRead, Body, RemoveBytes,
         CapableOpt, JoinOpt, AnnouncedOpt, RemoveAny;
    HeadOk(o, tp);
    HandshakeSteps(o, tp, m, env);
    AddrSteps(o, tp, m.addrs, env);
    var m1 := if o.mpCapable then Learn(CapableOpt(o), m, env) else m;
    if o.mpCapable {
      LearnCapableOpt(o, m, env);
    }
    LearnJoinOpt(o, tp, m1, env);
    var m2 := if o.mpJoin then Learn(JoinOpt(o, tp), m1, env) else m1;
    var m3 := if o.addAddr.Some? then Learn(AnnouncedOpt(o, tp), m2, env) else m2;
    if o.addAddr.Some? {
      LearnAnnouncedOpt(o, tp, m2, env);
    }
    if o.removeAddr {
      LearnRemoveOpt(o.removeAddrs, m3, env);
    }
  }

  lemma HeadLearned(o: OutOptions, tp: Tp, m: Received, env: Env)
    requires OutOk(o)
    ensures AllOk(EmittedHead(o, tp))
    ensures LearnAll(EmittedHead(o, tp), m, env) == HeadSteps(o, tp, m, env)
  {
    hide LearnAll, Learn, When, CapableOpt, JoinOpt, AnnouncedOpt;
    HeadOk(o, tp);
    var c, j, a, r := CapableOpt(o), JoinOpt(o, tp), AnnouncedOpt(o, tp), RemoveAddr(o.removeAddrs);
    var m1 := if o.mpCapable then Learn(c, m, env) else m;
    var m2 := if o.mpJoin then Learn(j, m1, env) else m1;
    var m3 := if o.addAddr.Some? then Learn(a, m2, env) else m2;
    LearnWhen(o.mpCapable, c, m, env);
    LearnWhen(o.mpJoin, j, m1, env);
    LearnWhen(o.addAddr.Some?, a, m2, env);
    LearnWhen(o.removeAddr, r, m3, env);
    LearnFour(When(o.mpCapable, c), When(o.mpJoin, j), When(o.addAddr.Some?, a), When(o.removeAddr, r), m, env);
  }

  /** Whatever combination of options a header carries, the receiver reads every field of it back. */
  lemma ReceiverLearns(o: OutOptions, tp: Tp, fin: bool, mapping: Option<WireMapping>, rest: Bytes, m: Received,
                       env: Env)
    requires OutOk(o) && MappingOk(mapping)
    ensures AllOk(Emitted(o, tp, fin, mapping))
    ensures Walk(EncodeAll(Emitted(o, tp, fin, mapping)) + rest, m, env)
         == Walk(rest, AllRead(o, tp, fin, mapping, m, env), env)
  {
    hide EncodeAll, LearnAll, EmittedHead, EmittedTail, HeadRead, AllRead, HeadSteps, TailSteps, Walk;
    HeadLearned(o, tp, m, env);
    HeadStepsRead(o, tp, m, env);
    var n := HeadRead(o, tp, m, env);
    TailLearned(o, tp, fin, mapping, n, env);
    TailStepsRead(o, tp, fin, mapping, m, env);
    LearnAppend(EmittedHead(o, tp), EmittedTail(o, tp, fin, mapping), m, env);
    RoundTrip(Emitted(o, tp, fin, mapping), rest, m, env);
  }
}

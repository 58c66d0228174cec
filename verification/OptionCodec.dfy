/**
 The MPTCP options of RFC 6824, sections 3.1 to 3.6: their bytes as the writer puts them into the TCP header, and
 the walker and parser that read them back.
 */
module OptionCodec {
  import opened Common
  import opened SeqArith

  type Key = k: Bytes | |k| == 8 witness [0, 0, 0, 0, 0, 0, 0, 0]
  type Word = w: Bytes | |w| == 4 witness [0, 0, 0, 0]
  type Mac = m: Bytes | |m| == 20 witness seq(20, _ => 0)
  type V6 = a: Bytes | |a| == 16 witness seq(16, _ => 0)

  const TCPOPT_EOL: Byte := 0
  const TCPOPT_NOP: Byte := 1
  const TCPOPT_MPTCP: Byte := 30

  /** One address id per set bit of the `u16` of removed addresses. */
  type IdBits = b: seq<bool> | |b| == 16 witness seq(16, _ => false)

  datatype WireMapping = WireMapping(seq32: int, subseq: int, len: nat, csum: Option<Half>)

  /** What the writer can put into a header. */
  datatype Opt =
    | CapableSyn(ver: nat, csum: bool, sender: Key)
    | CapableAck(ver: nat, csum: bool, sender: Key, receiver: Key)
    | JoinSyn(lowPrio: bool, addrId: Byte, token: Word, nonce: Word)
    | JoinSynAck(lowPrio: bool, addrId: Byte, tmac: Key, nonce: Word)
    | JoinAck(mac: Mac)
    | AddAddr4(addrId: Byte, addr: Word, trunc: Option<Key>)
    | AddAddr6(addrId: Byte, addr6: V6, trunc: Option<Key>)
    | RemoveAddr(ids: IdBits)
    | Fail(cutoff: int)
    | FClose(key: Key)
    | Dss(fin: bool, ack: int, mapping: Option<WireMapping>)
    | Prio(lowPrio: bool)

  predicate OptOk(o: Opt) {
    match o
    case CapableSyn(ver, _, _) => ver < 16
    case CapableAck(ver, _, _, _) => ver < 16
    case RemoveAddr(ids) => exists i :: 0 <= i < 16 && ids[i]
    case Dss(_, _, Some(m)) => m.len < 0x1_0000
    case _ => true
  }

  function Bit(b: bool): nat {
    if b then 1 else 0
  }

  function Be32(x: int): Word {
    [x / 0x100_0000 % 0x100, x / 0x1_0000 % 0x100, x / 0x100 % 0x100, x % 0x100]
  }

  function Be64(x: int): Key {
    Be32(x / TWO_32) + Be32(x)
  }

  function FromBe16(s: Bytes): nat
    requires |s| >= 2
  {
    var a: nat, b: nat := s[0], s[1];
    a * 0x100 + b
  }

  function FromBe32(s: Bytes): nat
    requires |s| >= 4
  {
    var a: nat, b: nat, c: nat, d: nat := s[0], s[1], s[2], s[3];
    a * 0x100_0000 + b * 0x1_0000 + c * 0x100 + d
  }

  lemma Be16RoundTrip(x: nat)
    requires x < 0x1_0000
    ensures FromBe16(Be16(x)) == x
  {
  }

  lemma Be32RoundTrip(x: int)
    ensures FromBe32(Be32(x)) == Low32(x)
  {
    var a, b, c := x / 0x100, x / 0x1_0000, x / 0x100_0000;
    assert x == 0x100 * a + x % 0x100;
    assert a / 0x100 == b && b / 0x100 == c;
    assert a == 0x100 * b + a % 0x100 && b == 0x100 * c + b % 0x100;
    var d := c / 0x100;
    assert c == 0x100 * d + c % 0x100;
    assert x == TWO_32 * d + FromBe32(Be32(x));
  }

  /** The positions of the set bits from position `n` on, in increasing order. */
  function SetBits(ids: IdBits, n: nat): (s: Bytes)
    requires n <= 16
    ensures |s| <= 16 - n
    decreases 16 - n
  {
    if n == 16 then [] else (if ids[n] then [n] else []) + SetBits(ids, n + 1)
  }

  lemma {:induction false} SetBitsExact(ids: IdBits, n: nat, x: Byte)
    requires n <= 16
    ensures x in SetBits(ids, n) <==> n <= x < 16 && ids[x]
    ensures forall i, j :: 0 <= i < j < |SetBits(ids, n)| ==> SetBits(ids, n)[i] < SetBits(ids, n)[j]
    ensures forall i :: 0 <= i < |SetBits(ids, n)| ==> SetBits(ids, n)[i] >= n
    decreases 16 - n
  {
    if n < 16 {
      SetBitsExact(ids, n + 1, x);
    }
  }

  function Nops(n: nat): (s: Bytes)
    ensures |s| == n
  {
    seq(n, _ => TCPOPT_NOP)
  }

  /** Up to the next multiple of four. */
  function Padding(n: nat): nat {
    (4 - n % 4) % 4
  }

  function DssFlags(fin: bool, mapped: bool): Byte {
    1 + 4 * Bit(mapped) + 16 * Bit(fin)
  }

  /** The bits A, a, M, m and F of a DSS option. */
  predicate Flag(flags: Byte, bit: nat)
    requires bit in {1, 2, 4, 8, 16}
  {
    flags / bit % 2 == 1
  }

  function AckLen(flags: Byte): nat {
    if !Flag(flags, 1) then 0 else if Flag(flags, 2) then 8 else 4
  }

  function MapLen(flags: Byte, csum: bool): nat {
    if !Flag(flags, 4) then 0 else 10 + 4 * Bit(Flag(flags, 8)) + 2 * Bit(csum)
  }

  /** `mptcp_sub_len_dss` */
  function DssLen(flags: Byte, csum: bool): nat {
    4 + AckLen(flags) + MapLen(flags, csum)
  }

  function MappingBytes(m: WireMapping): Bytes {
    Be32(m.seq32) + Be32(m.subseq) + Be16(m.len) + (if m.csum.Some? then m.csum.value else [])
  }

  function CapableBytes(ver: nat, csum: bool, keys: Bytes): (s: Bytes)
    requires ver < 16 && |keys| < 200
  {
    [TCPOPT_MPTCP, 4 + |keys|, ver, 1 + 128 * Bit(csum)] + keys
  }

  function JoinBytes(low: bool, id: Byte, rest: Bytes): (s: Bytes)
    requires |rest| < 200
  {
    [TCPOPT_MPTCP, 4 + |rest|, 16 + Bit(low), id] + rest
  }

  function AddAddrBytes(ipver: nat, id: Byte, rest: Bytes): (s: Bytes)
    requires ipver < 16 && |rest| < 200
  {
    [TCPOPT_MPTCP, 4 + |rest|, 3 * 16 + ipver, id] + rest
  }

  function RemoveBytes(ids: IdBits): Bytes {
    [TCPOPT_MPTCP, 3 + |SetBits(ids, 0)|, 4 * 16] + SetBits(ids, 0)
  }

  function DssBytes(fin: bool, ack: int, mapping: Option<WireMapping>): Bytes
    requires mapping.Some? ==> mapping.value.len < 0x1_0000
  {
    if mapping.None? then [TCPOPT_MPTCP, 8, 2 * 16, DssFlags(fin, false)] + Be32(ack)
    else [TCPOPT_MPTCP, 18 + 2 * Bit(mapping.value.csum.Some?), 2 * 16, DssFlags(fin, true)]
           + Be32(ack) + MappingBytes(mapping.value)
  }

  /** The option proper, without the padding that follows it. */
  function Body(o: Opt): (s: Bytes)
    requires OptOk(o)
  {
    match o
    case CapableSyn(ver, csum, sender) => CapableBytes(ver, csum, sender)
    case CapableAck(ver, csum, sender, receiver) => CapableBytes(ver, csum, sender + receiver)
    case JoinSyn(low, id, token, nonce) => JoinBytes(low, id, token + nonce)
    case JoinSynAck(low, id, tmac, nonce) => JoinBytes(low, id, tmac + nonce)
    case JoinAck(mac) => JoinBytes(false, 0, mac)
    case AddAddr4(id, addr, trunc) => AddAddrBytes(4, id, addr + (if trunc.Some? then trunc.value else []))
    case AddAddr6(id, addr, trunc) => AddAddrBytes(6, id, addr + (if trunc.Some? then trunc.value else []))
    case RemoveAddr(ids) => RemoveBytes(ids)
    case Fail(cutoff) => [TCPOPT_MPTCP, 12, 6 * 16, 0] + Be64(cutoff)
    case FClose(key) => [TCPOPT_MPTCP, 12, 7 * 16, 0] + key
    case Dss(fin, ack, mapping) => DssBytes(fin, ack, mapping)
    case Prio(low) => [TCPOPT_MPTCP, 3, 5 * 16 + Bit(low)]
  }

  function Encode(o: Opt): (s: Bytes)
    requires OptOk(o)
  {
    Body(o) + Nops(Padding(|Body(o)|))
  }

  lemma {:induction false} SomeBit(ids: IdBits, n: nat, k: nat)
    requires n <= k < 16 && ids[k]
    ensures |SetBits(ids, n)| > 0
    decreases 16 - n
  {
    if !ids[n] {
      SomeBit(ids, n + 1, k);
    }
  }

  lemma BodyShape(o: Opt)
    requires OptOk(o)
    ensures |Body(o)| >= 3 && Body(o)[0] == TCPOPT_MPTCP && Body(o)[1] == |Body(o)|
  {
  }

  /** What the handshake options say. */
  datatype Handshake = Handshake(
    sawMpc: bool, dssCsum: bool, dropMe: bool, isMpJoin: bool, joinAck: bool, ver: nat, receiverKey: Key,
    remId: Byte, remToken: Word, recvNonce: Word, recvTmac: Key, recvMac: Mac)

  /** What several options may say. */
  datatype Signals = Signals(senderKey: Key, lowPrio: bool, sawLowPrio: nat, prioAddrId: Byte,
                             mpFail: bool, mpFclose: bool)

  /** What the DSS option says; `dss` is the option from `dss_off` on. */
  datatype Data = Data(
    dataAck: nat, dataSeq: nat, dataLen: nat,
    flagAck: bool, flagSeq: bool, flagSeq64: bool, flagCsum: bool, flagFin: bool, dss: Bytes)

  /** The options at `add_addr_ptr` and `rem_addr_ptr`, and whether there were more of them. */
  datatype Addrs = Addrs(sawAddAddr: bool, moreAddAddr: bool, addAddr: Bytes,
                         sawRemAddr: bool, moreRemAddr: bool, remAddr: Bytes)

  /** What the receiver collects from one segment: `mptcp_options_received`, and the flags of the segment. */
  datatype Received = Received(hs: Handshake, sig: Signals, data: Data, addrs: Addrs)

  /** `sysctl_mptcp_checksum`, and the version of the connection where a `tcp_sock` is at hand. */
  datatype Env = Env(sysctlCsum: bool, ver: Option<nat>)

  function ParseCapable(s: Bytes, m: Received, env: Env): Received
    requires |s| >= 3
  {
    if |s| != 12 && |s| != 20 then m
    else if s[3] / 64 % 2 == 1 then m.(hs := m.hs.(dropMe := true))
    else if s[3] % 2 == 0 then m
    else
      var h := m.hs.(sawMpc := true, dssCsum := env.sysctlCsum || s[3] / 128 == 1, ver := s[2] % 16);
      m.(hs := if |s| == 20 then h.(receiverKey := s[12..20]) else h, sig := m.sig.(senderKey := s[4..12]))
  }

  function ParseJoin(s: Bytes, m: Received): Received
    requires |s| >= 3
  {
    if |s| == 12 then
      m.(hs := m.hs.(isMpJoin := true, sawMpc := true, remId := s[3], remToken := s[4..8], recvNonce := s[8..12]),
         sig := m.sig.(lowPrio := s[2] % 2 == 1))
    else if |s| == 16 then
      m.(hs := m.hs.(sawMpc := true, remId := s[3], recvTmac := s[4..12], recvNonce := s[12..16]),
         sig := m.sig.(lowPrio := s[2] % 2 == 1))
    else if |s| == 24 then
      m.(hs := m.hs.(sawMpc := true, joinAck := true, recvMac := s[4..24]))
    else m
  }

  /** The mapping part of a DSS option; `s` is the option from `dss_off` on. */
  function ParseMapping(s: Bytes, wide: bool, csum: bool, fin: bool, m: Data): Data
    requires |s| >= (if wide then 14 else 10)
  {
    var at := if wide then 4 else 0;
    m.(dataSeq := FromBe32(s[at..]), dataLen := FromBe16(s[at + 8..]), flagSeq := true,
       flagSeq64 := m.flagSeq64 || wide, flagCsum := m.flagCsum || csum, flagFin := m.flagFin || fin)
  }

  function ParseDss(s: Bytes, m: Data): Data
    requires |s| >= 3
  {
    if |s| < 4 || (|s| != DssLen(s[3], false) && |s| != DssLen(s[3], true)) then m
    else
      var f, ackLen := s[3], AckLen(s[3]);
      var r := (if ackLen == 0 then m else m.(flagAck := true, dataAck := FromBe32(s[ackLen..])))
               .(dss := s[4 + ackLen..]);
      if Flag(f, 4) then ParseMapping(r.dss, Flag(f, 8), |s| == DssLen(f, true), Flag(f, 16), r) else r
  }

  /** `is_valid_addropt_opsize` */
  predicate ValidAddSize(ver: nat, ipver: nat, size: nat) {
    if ipver == 6 then (if ver < 1 then size == 20 || size == 22 else size == 28 || size == 30)
    else ipver == 4 && (if ver < 1 then size == 8 || size == 10 else size == 16 || size == 18)
  }

  function ParseAddAddr(s: Bytes, m: Addrs, env: Env): Addrs
    requires |s| >= 3
  {
    if env.ver.None? || !ValidAddSize(env.ver.value, s[2] % 16, |s|) then m
    else if m.sawAddAddr then m.(moreAddAddr := true)
    else m.(sawAddAddr := true, addAddr := s)
  }

  function ParseRemoveAddr(s: Bytes, m: Addrs): Addrs {
    if |s| < 4 then m
    else if m.sawRemAddr then m.(moreRemAddr := true)
    else m.(sawRemAddr := true, remAddr := s)
  }

  function ParsePrio(s: Bytes, m: Signals): Signals
    requires |s| >= 3
  {
    if |s| == 3 then m.(sawLowPrio := 1, lowPrio := s[2] % 2 == 1)
    else if |s| == 4 then m.(sawLowPrio := 2, lowPrio := s[2] % 2 == 1, prioAddrId := s[3])
    else m
  }

  function ParseFclose(s: Bytes, m: Signals): Signals {
    if |s| == 12 then m.(mpFclose := true, senderKey := s[4..12]) else m
  }

  /** `mptcp_parse_options`; an option of two bytes fails every size test whatever follows it. */
  function ParseOne(s: Bytes, m: Received, env: Env): Received {
    if |s| < 3 then m
    else match s[2] / 16
      case 0 => ParseCapable(s, m, env)
      case 1 => ParseJoin(s, m)
      case 2 => m.(data := ParseDss(s, m.data))
      case 3 => m.(addrs := ParseAddAddr(s, m.addrs, env))
      case 4 => m.(addrs := ParseRemoveAddr(s, m.addrs))
      case 5 => m.(sig := ParsePrio(s, m.sig))
      case 6 => if |s| == 12 then m.(sig := m.sig.(mpFail := true)) else m
      case 7 => m.(sig := ParseFclose(s, m.sig))
      case _ => m
  }

  /** The options of a header from here on, read one after the other. */
  function Walk(s: Bytes, m: Received, env: Env): Received {
    if |s| == 0 || s[0] == TCPOPT_EOL then m
    else if s[0] == TCPOPT_NOP then Walk(s[1..], m, env)
    else if |s| < 2 || s[1] < 2 || s[1] > |s| then m
    else
      var opt, rest := s[..s[1]], s[s[1]..];
      Walk(rest, if s[0] == TCPOPT_MPTCP then ParseOne(opt, m, env) else m, env)
  }

  /** The size test of an option's own branch; `sub` is its third byte and `flags` its fourth. */
  predicate SizeFits(sub: Byte, flags: Byte, size: nat, env: Env) {
    match sub / 16
    case 0 => size == 12 || size == 20
    case 1 => size == 12 || size == 16 || size == 24
    case 2 => size == DssLen(flags, false) || size == DssLen(flags, true)
    case 3 => env.ver.Some? && ValidAddSize(env.ver.value, sub % 16, size)
    case 4 => size >= 4
    case 5 => size == 3 || size == 4
    case 6 => size == 12
    case 7 => size == 12
    case _ => false
  }

  /**
   `mptcp_parse_options` at memory `s`: the third byte, and on a DSS the fourth, are looked at before the size of
   the option is compared with anything.
   */
  function ParseAt(s: Bytes, size: nat, m: Received, env: Env): Received
    requires 2 <= size && size + 2 <= |s|
  {
    if SizeFits(s[2], s[3], size, env) then ParseOne(s[..size], m, env) else m
  }

  /** What lies behind an option does not matter, although it is looked at. */
  lemma ParseAtIsParseOne(s: Bytes, size: nat, m: Received, env: Env)
    requires 2 <= size && size + 2 <= |s|
    ensures ParseAt(s, size, m, env) == ParseOne(s[..size], m, env)
  {
    if size > 2 {
      assert s[..size][2] == s[2];
      assert size > 3 ==> s[..size][3] == s[3];
      if !SizeFits(s[2], s[3], size, env) {
        var sub := s[2] / 16;
        assert sub == 3 ==> ParseAddAddr(s[..size], m.addrs, env) == m.addrs;
      }
    }
  }

  /** How many bytes of `s` the walker looks at, if the header ends after `left` of them. */
  function Reach(s: Bytes, left: nat): (n: nat)
    requires left + 2 <= |s|
    ensures n <= left + 2
    decreases left
  {
    if left == 0 then 0
    else if s[0] == TCPOPT_EOL then 1
    else if s[0] == TCPOPT_NOP then 1 + Reach(s[1..], left - 1)
    else if s[1] < 2 || s[1] > left then 2
    else
      var here := if s[0] != TCPOPT_MPTCP then 2 else if s[2] / 16 == 2 then 4 else 3;
      var onward := s[1] + Reach(s[s[1]..], left - s[1]);
      if here > onward then here else onward
  }

  /**
   `tcp_parse_mptcp_options`: the walker with its moving pointer, over a header of `length` bytes and whatever
   lies behind it in memory.  What it makes of the header does not depend on that; `reach` is how far it looks.
   */
  method ParseOptions(memory: array<Byte>, length: nat, start: Received, env: Env)
    returns (m: Received, ghost reach: nat)
    requires length + 2 <= memory.Length
    ensures m == Walk(memory[..length], start, env)
    ensures reach == Reach(memory[..], length)
  {
    hide ParseOne, ParseAt, Reach, Walk;
    ghost var mem := memory[..];
    m, reach := start, 0;
    var ptr, left := 0, length;
    assert mem[0..] == mem;
    while left > 0
      invariant 0 <= ptr && 0 <= left && ptr + left == length
      invariant Walk(mem[ptr..length], m, env) == Walk(mem[..length], start, env)
      invariant ptr <= reach && Reach(mem, length) == Max(reach, ptr + Reach(mem[ptr..], left))
    {
      var opcode := memory[ptr];
      WalkTurn(mem[ptr..], left, m, env);
      assert mem[ptr..][..left] == mem[ptr..length];
      reach := Max(reach, ptr + 1);
      if opcode == TCPOPT_EOL {
        return;
      }
      if opcode == TCPOPT_NOP {
        assert mem[ptr..][1..] == mem[ptr + 1..] && mem[ptr..][1..left] == mem[ptr + 1..length];
        ptr, left := ptr + 1, left - 1;
      } else {
        var size := memory[ptr + 1];
        reach := Max(reach, ptr + 2);
        if size < 2 || size > left {
          return;
        }
        assert mem[ptr..][size..] == mem[ptr + size..] && mem[ptr..][size..left] == mem[ptr + size..length];
        if opcode == TCPOPT_MPTCP {
          assert memory[ptr..] == mem[ptr..];
          reach := Max(reach, ptr + if memory[ptr + 2] / 16 == 2 then 4 else 3);
          m := ParseAt(memory[ptr..], size, m, env);
        }
        ptr, left := ptr + size, left - size;
        reach := Max(reach, ptr);
      }
    }
    ReachNothing(mem[ptr..]);
    WalkNothing(m, env);
    assert mem[ptr..length] == [];
  }

  function Max(a: int, b: int): int {
    if a > b then a else b
  }

  lemma ReachNothing(s: Bytes)
    requires |s| >= 2
    ensures Reach(s, 0) == 0
  {
  }

  lemma WalkNothing(m: Received, env: Env)
    ensures Walk([], m, env) == m
  {
  }

  /** One turn of the walker on memory `s`, of which `left` bytes belong to the header. */
  lemma WalkTurn(s: Bytes, left: nat, m: Received, env: Env)
    requires 0 < left && left + 2 <= |s|
    ensures var h := s[..left];
            if s[0] == TCPOPT_EOL then Walk(h, m, env) == m && Reach(s, left) == 1
            else if s[0] == TCPOPT_NOP then
              && Walk(h, m, env) == Walk(s[1..left], m, env) && Reach(s, left) == 1 + Reach(s[1..], left - 1)
            else if s[1] < 2 || s[1] > left then Walk(h, m, env) == m && Reach(s, left) == 2
            else
              && Walk(h, m, env)
                 == Walk(s[s[1]..left], if s[0] == TCPOPT_MPTCP then ParseAt(s, s[1], m, env) else m, env)
              && Reach(s, left) == Max(if s[0] != TCPOPT_MPTCP then 2 else if s[2] / 16 == 2 then 4 else 3,
                                       s[1] + Reach(s[s[1]..], left - s[1]))
  {
    hide ParseOne, ParseAt;
    var h := s[..left];
    if s[0] == TCPOPT_EOL {
    } else if s[0] == TCPOPT_NOP {
      assert h[1..] == s[1..left];
    } else if left < 2 || s[1] < 2 || s[1] > left {
    } else {
      assert h[s[1]..] == s[s[1]..left] && h[..s[1]] == s[..s[1]];
      ParseAtIsParseOne(s, s[1], m, env);
    }
  }

  /** The walker comes to position `n` of a header. */
  predicate Visits(h: Bytes, n: nat) {
    n == 0 ||
    (h != [] && h[0] != TCPOPT_EOL &&
     if h[0] == TCPOPT_NOP then Visits(h[1..], n - 1)
     else |h| >= 2 && 2 <= h[1] <= |h| && h[1] <= n && Visits(h[h[1]..], n - h[1]))
  }

  /** The header ends before the bytes that the walker looks at here: the size, the subtype, or the DSS flags. */
  predicate CutShort(t: Bytes) {
    || (|t| == 1 && t[0] != TCPOPT_EOL && t[0] != TCPOPT_NOP)
    || (|t| == 2 && t[0] == TCPOPT_MPTCP && t[1] == 2)
    || (|t| == 3 && t[0] == TCPOPT_MPTCP && 2 <= t[1] <= 3 && t[2] / 16 == 2)
  }

  ghost predicate EndsShort(h: Bytes) {
    exists n :: 0 <= n < |h| && Visits(h, n) && CutShort(h[n..])
  }

  /** The walker looks behind the header exactly when it comes to an option that is cut short like that. */
  lemma {:induction false} LooksBehindIff(s: Bytes, left: nat)
    requires left + 2 <= |s|
    ensures Reach(s, left) > left <==> EndsShort(s[..left])
    decreases left
  {
    if left > 0 {
      var h := s[..left];
      var size := if s[0] == TCPOPT_NOP then 1 else s[1] as int;
      if s[0] == TCPOPT_NOP || (s[0] != TCPOPT_EOL && 2 <= size <= left) {
        hide EndsShort;
        LooksBehindIff(s[size..], left - size);
        assert s[size..][..left - size] == h[size..];
        SkipTo(h, size);
      } else {
        LastVisit(h);
      }
    }
  }

  /** Where the walk ends at the first option, only that one can be cut short. */
  lemma LastVisit(h: Bytes)
    requires h != [] && h[0] != TCPOPT_NOP && (h[0] == TCPOPT_EOL || |h| < 2 || h[1] < 2 || h[1] > |h|)
    ensures EndsShort(h) <==> CutShort(h)
  {
    hide CutShort;
    assert Visits(h, 0) && h[0..] == h;
    assert forall n :: 0 < n < |h| ==> !Visits(h, n);
  }

  /** Positions behind the first option are the positions of the rest. */
  lemma SkipTo(h: Bytes, size: nat)
    requires 0 < size <= |h| && h[0] != TCPOPT_EOL
    requires if h[0] == TCPOPT_NOP then size == 1 else |h| >= 2 && size == h[1] >= 2
    ensures EndsShort(h) <==> CutShort(h) || EndsShort(h[size..])
  {
    hide CutShort, Visits;
    var t := h[size..];
    VisitsNext(h, size, 0);
    assert h[0..] == h;
    if EndsShort(h) {
      var n :| 0 <= n < |h| && Visits(h, n) && CutShort(h[n..]);
      VisitsNext(h, size, n);
      assert n >= size ==> h[n..] == t[n - size..];
    }
    if EndsShort(t) {
      var n :| 0 <= n < |t| && Visits(t, n) && CutShort(t[n..]);
      VisitsNext(h, size, n + size);
      assert h[n + size..] == t[n..];
    }
  }

  lemma VisitsNext(h: Bytes, size: nat, n: nat)
    requires 0 < size <= |h| && h[0] != TCPOPT_EOL
    requires if h[0] == TCPOPT_NOP then size == 1 else |h| >= 2 && size == h[1] >= 2
    ensures Visits(h, n) <==> n == 0 || (n >= size && Visits(h[size..], n - size))
  {
  }

  /** A header of four bytes whose last one is the kind of an MPTCP option: one byte more is looked at. */
  lemma LoneKindLooksBehind(a: Byte, b: Byte)
    ensures Reach([TCPOPT_NOP, TCPOPT_NOP, TCPOPT_NOP, TCPOPT_MPTCP, a, b], 4) == 5
  {
    var s: Bytes := [TCPOPT_NOP, TCPOPT_NOP, TCPOPT_NOP, TCPOPT_MPTCP, a, b];
    assert s[1..][1..][1..] == [TCPOPT_MPTCP, a, b];
    assert Reach([TCPOPT_MPTCP, a, b], 1) == 2;
  }

  function LearnCapable(ver: nat, csum: bool, sender: Key, receiver: Option<Key>, m: Received, env: Env): Received {
    m.(hs := m.hs.(sawMpc := true, dssCsum := env.sysctlCsum || csum, ver := ver,
                   receiverKey := if receiver.Some? then receiver.value else m.hs.receiverKey),
       sig := m.sig.(senderKey := sender))
  }

  function LearnJoinSyn(low: bool, id: Byte, token: Word, nonce: Word, m: Received): Received {
    m.(hs := m.hs.(isMpJoin := true, sawMpc := true, remId := id, remToken := token, recvNonce := nonce),
       sig := m.sig.(lowPrio := low))
  }

  function LearnJoinSynAck(low: bool, id: Byte, tmac: Key, nonce: Word, m: Received): Received {
    m.(hs := m.hs.(sawMpc := true, remId := id, recvTmac := tmac, recvNonce := nonce), sig := m.sig.(lowPrio := low))
  }

  function LearnJoinAck(mac: Mac, m: Received): Received {
    m.(hs := m.hs.(sawMpc := true, joinAck := true, recvMac := mac))
  }

  function LearnRemove(opt: Bytes, m: Addrs): Addrs {
    if m.sawRemAddr then m.(moreRemAddr := true) else m.(sawRemAddr := true, remAddr := opt)
  }

  function LearnFail(m: Signals): Signals {
    m.(mpFail := true)
  }

  function LearnFclose(key: Key, m: Signals): Signals {
    m.(mpFclose := true, senderKey := key)
  }

  function LearnPrio(low: bool, m: Signals): Signals {
    m.(sawLowPrio := 1, lowPrio := low)
  }

  /** Version 1 announces an address with a truncated HMAC, version 0 without; the first announcement is kept. */
  function LearnAddr(opt: Bytes, withMac: bool, m: Addrs, env: Env): Addrs {
    if env.ver.None? || (env.ver.value >= 1) != withMac then m
    else if m.sawAddAddr then m.(moreAddAddr := true)
    else m.(sawAddAddr := true, addAddr := opt)
  }

  /** What the receiver should learn from an option. */
  function Learn(o: Opt, m: Received, env: Env): Received
    requires OptOk(o)
  {
    match o
    case CapableSyn(ver, csum, sender) => LearnCapable(ver, csum, sender, None, m, env)
    case CapableAck(ver, csum, sender, receiver) => LearnCapable(ver, csum, sender, Some(receiver), m, env)
    case JoinSyn(low, id, token, nonce) => LearnJoinSyn(low, id, token, nonce, m)
    case JoinSynAck(low, id, tmac, nonce) => LearnJoinSynAck(low, id, tmac, nonce, m)
    case JoinAck(mac) => LearnJoinAck(mac, m)
    case AddAddr4(_, _, trunc) => m.(addrs := LearnAddr(Body(o), trunc.Some?, m.addrs, env))
    case AddAddr6(_, _, trunc) => m.(addrs := LearnAddr(Body(o), trunc.Some?, m.addrs, env))
    case RemoveAddr(_) => m.(addrs := LearnRemove(Body(o), m.addrs))
    case Fail(_) => m.(sig := LearnFail(m.sig))
    case FClose(key) => m.(sig := LearnFclose(key, m.sig))
    case Dss(fin, ack, mapping) => m.(data := LearnDss(fin, ack, mapping, m.data))
    case Prio(low) => m.(sig := LearnPrio(low, m.sig))
  }

  function LearnDss(fin: bool, ack: int, mapping: Option<WireMapping>, m: Data): Data {
    var r := m.(flagAck := true, dataAck := Low32(ack),
                dss := if mapping.Some? then MappingBytes(mapping.value) else []);
    if mapping.None? then r
    else r.(flagSeq := true, dataSeq := Low32(mapping.value.seq32), dataLen := mapping.value.len,
            flagCsum := r.flagCsum || mapping.value.csum.Some?, flagFin := r.flagFin || fin)
  }

  lemma CapableSynRoundTrip(ver: nat, csum: bool, sender: Key, m: Received, env: Env)
    requires ver < 16
    ensures ParseOne(CapableBytes(ver, csum, sender), m, env) == LearnCapable(ver, csum, sender, None, m, env)
  {
    var s := CapableBytes(ver, csum, sender);
    assert |s| == 12 && s[2] == ver && s[3] == 1 + 128 * Bit(csum);
    assert s[4..12] == sender;
  }

  lemma CapableAckRoundTrip(ver: nat, csum: bool, sender: Key, receiver: Key, m: Received, env: Env)
    requires ver < 16
    ensures ParseOne(CapableBytes(ver, csum, sender + receiver), m, env)
         == LearnCapable(ver, csum, sender, Some(receiver), m, env)
  {
    var s := CapableBytes(ver, csum, sender + receiver);
    assert |s| == 20 && s[2] == ver && s[3] == 1 + 128 * Bit(csum);
    assert s[4..12] == sender && s[12..20] == receiver;
  }

  lemma JoinSynRoundTrip(low: bool, id: Byte, token: Word, nonce: Word, m: Received, env: Env)
    ensures ParseOne(JoinBytes(low, id, token + nonce), m, env)
         == LearnJoinSyn(low, id, token, nonce, m)
  {
    var s := JoinBytes(low, id, token + nonce);
    assert |s| == 12 && s[4..8] == token && s[8..12] == nonce;
  }

  lemma JoinSynAckRoundTrip(low: bool, id: Byte, tmac: Key, nonce: Word, m: Received, env: Env)
    ensures ParseOne(JoinBytes(low, id, tmac + nonce), m, env)
         == LearnJoinSynAck(low, id, tmac, nonce, m)
  {
    var s := JoinBytes(low, id, tmac + nonce);
    assert |s| == 16 && s[4..12] == tmac && s[12..16] == nonce;
  }

  lemma JoinAckRoundTrip(mac: Mac, m: Received, env: Env)
    ensures ParseOne(JoinBytes(false, 0, mac), m, env) == LearnJoinAck(mac, m)
  {
    var s := JoinBytes(false, 0, mac);
    assert |s| == 24 && s[4..24] == mac;
  }

  lemma AddAddrRoundTrip(ipver: nat, id: Byte, rest: Bytes, withMac: bool, m: Received, env: Env)
    requires ipver == 4 || ipver == 6
    requires |rest| == (if ipver == 4 then 4 else 16) + 8 * Bit(withMac)
    ensures ParseOne(AddAddrBytes(ipver, id, rest), m, env) 
         == m.(addrs := LearnAddr(AddAddrBytes(ipver, id, rest), withMac, m.addrs, env))
  {
    var s := AddAddrBytes(ipver, id, rest);
    assert |s| == 4 + |rest| && s[2] % 16 == ipver;
  }

  lemma FcloseRoundTrip(key: Key, m: Received, env: Env)
    ensures ParseOne([TCPOPT_MPTCP, 12, 7 * 16, 0] + key, m, env) == m.(sig := LearnFclose(key, m.sig))
  {
    assert ([TCPOPT_MPTCP, 12, 7 * 16, 0] + key)[4..12] == key;
  }

  lemma MappingRoundTrip(mp: WireMapping, rest: Bytes)
    requires mp.len < 0x1_0000
    ensures var s := MappingBytes(mp) + rest;
            FromBe32(s) == Low32(mp.seq32) && FromBe32(s[4..]) == Low32(mp.subseq) && FromBe16(s[8..]) == mp.len
  {
    var s := MappingBytes(mp) + rest;
    Be32RoundTrip(mp.seq32);
    Be32RoundTrip(mp.subseq);
    Be16RoundTrip(mp.len);
    assert s[0..4] == Be32(mp.seq32) && s[4..8] == Be32(mp.subseq) && s[8..10] == Be16(mp.len);
    hide Be32, Be16;
    assert s[0] == s[0..4][0] && s[1] == s[0..4][1] && s[2] == s[0..4][2] && s[3] == s[0..4][3];
    assert s[4] == s[4..8][0] && s[5] == s[4..8][1] && s[6] == s[4..8][2] && s[7] == s[4..8][3];
    assert s[8] == s[8..10][0] && s[9] == s[8..10][1];
  }

  lemma FlagsRead(fin: bool, mapped: bool)
    ensures var f := DssFlags(fin, mapped);
            Flag(f, 1) && !Flag(f, 2) && Flag(f, 4) == mapped && !Flag(f, 8) && Flag(f, 16) == fin
  {
  }

  lemma LengthsRead(fin: bool, mapped: bool, csum: bool)
    ensures var f := DssFlags(fin, mapped);
            AckLen(f) == 4 && MapLen(f, csum) == (if mapped then 10 + 2 * Bit(csum) else 0)
  {
    FlagsRead(fin, mapped);
    hide DssFlags, Flag;
  }

  lemma ParsedMapping(mp: WireMapping, fin: bool, m: Data)
    requires mp.len < 0x1_0000
    ensures |MappingBytes(mp)| == 10 + 2 * Bit(mp.csum.Some?)
    ensures ParseMapping(MappingBytes(mp), false, mp.csum.Some?, fin, m)
         == m.(dataSeq := Low32(mp.seq32), dataLen := mp.len, flagSeq := true,
               flagCsum := m.flagCsum || mp.csum.Some?, flagFin := m.flagFin || fin)
  {
    MappingLength(mp);
    MappingRoundTrip(mp, []);
    hide MappingBytes, Be32, Be16, FromBe32, FromBe16;
    assert MappingBytes(mp) + [] == MappingBytes(mp);
    assert MappingBytes(mp)[0..] == MappingBytes(mp);
  }

  lemma PlainDss(fin: bool, ack: int, m: Data)
    ensures ParseDss(DssBytes(fin, ack, None), m) == m.(flagAck := true, dataAck := Low32(ack), dss := [])
  {
    var s := DssBytes(fin, ack, None);
    hide Be32, FromBe32, Flag, DssFlags, AckLen, MapLen;
    FlagsRead(fin, false);
    LengthsRead(fin, false, false);
    AckAt(s, ack);
    assert s[8..] == [];
  }

  lemma MappedDss(fin: bool, ack: int, mp: WireMapping, m: Data)
    requires mp.len < 0x1_0000
    ensures ParseDss(DssBytes(fin, ack, Some(mp)), m)
         == ParseMapping(MappingBytes(mp), false, mp.csum.Some?, fin,
                         m.(flagAck := true, dataAck := Low32(ack), dss := MappingBytes(mp)))
  {
    var s := DssBytes(fin, ack, Some(mp));
    MappingLength(mp);
    hide Be32, FromBe32, Flag, DssFlags, AckLen, MapLen, MappingBytes, ParseMapping, FromBe16;
    FlagsRead(fin, true);
    LengthsRead(fin, true, false);
    LengthsRead(fin, true, true);
    assert |s| == 8 + |MappingBytes(mp)| == DssLen(s[3], mp.csum.Some?);
    AckAt(s, ack);
    assert s[8..] == MappingBytes(mp);
  }

  /**
   A DSS option with a 64-bit data number, which this sender never writes but a peer may: the low word of the number
   is kept, with the flag that there is a high one in front of it, and length, DATA_FIN and checksum flag are read.
   */
  lemma WideDssRead(fin: bool, ack: int, dataSeq: int, subseq: int, len: nat, csum: Option<Half>, m: Data)
    requires len < 0x1_0000
    ensures var wide := Be64(dataSeq) + Be32(subseq) + Be16(len) + (if csum.Some? then csum.value else []);
            var s := [TCPOPT_MPTCP, 22 + 2 * Bit(csum.Some?), 2 * 16, if fin then 0x1d else 0x0d] + Be32(ack) + wide;
            ParseDss(s, m) == m.(flagAck := true, dataAck := Low32(ack), dss := wide, flagSeq := true,
                                 dataSeq := Low32(dataSeq), dataLen := len, flagSeq64 := true,
                                 flagCsum := m.flagCsum || csum.Some?, flagFin := m.flagFin || fin)
    ensures FromBe32(Be64(dataSeq)) == High32(dataSeq)
  {
    var tail: Bytes := if csum.Some? then csum.value else [];
    var wide := Be64(dataSeq) + Be32(subseq) + Be16(len) + tail;
    var s := [TCPOPT_MPTCP, 22 + 2 * Bit(csum.Some?), 2 * 16, if fin then 0x1d else 0x0d] + Be32(ack) + wide;
    var start := m.(flagAck := true, dataAck := Low32(ack), dss := wide);
    hide Be32, Be16, Be64, FromBe32, FromBe16, Flag, AckLen, DssLen, ParseMapping, ParseDss;
    WideFlags(fin, csum.Some?);
    WideMapping(dataSeq, subseq, len, tail, csum.Some?, fin, start);
    assert s[4..8] == Be32(ack) && s[8..] == wide;
    ParseWide(s, ack, csum.Some?, m);
  }

  lemma ParseWide(s: Bytes, ack: int, csum: bool, m: Data)
    requires |s| == (if csum then 24 else 22) && s[3] in {0x0d, 0x1d} && s[4..8] == Be32(ack)
    ensures ParseDss(s, m) == ParseMapping(s[8..], true, csum, s[3] == 0x1d,
                                           m.(flagAck := true, dataAck := Low32(ack), dss := s[8..]))
  {
    WideFlags(s[3] == 0x1d, csum);
    hide Be32, FromBe32, FromBe16, Flag, AckLen, DssLen, ParseMapping;
    AckAt(s, ack);
  }

  lemma WideMapping(dataSeq: int, subseq: int, len: nat, tail: Bytes, csum: bool, fin: bool, m: Data)
    requires len < 0x1_0000
    ensures var wide := Be64(dataSeq) + Be32(subseq) + Be16(len) + tail;
            ParseMapping(wide, true, csum, fin, m)
              == m.(dataSeq := Low32(dataSeq), dataLen := len, flagSeq := true, flagSeq64 := true,
                    flagCsum := m.flagCsum || csum, flagFin := m.flagFin || fin)
    ensures FromBe32(Be64(dataSeq)) == High32(dataSeq)
  {
    hide Be32, Be16, FromBe32, FromBe16;
    var wide := Be64(dataSeq) + Be32(subseq) + Be16(len) + tail;
    var low := WireMapping(dataSeq, subseq, len, None);
    MappingRoundTrip(low, tail);
    assert wide[4..] == MappingBytes(low) + tail;
    assert wide[12..] == wide[4..][8..];
    WordAt(Be64(dataSeq), dataSeq / TWO_32);
  }

  lemma WordAt(s: Bytes, x: int)
    requires |s| >= 4 && s[..4] == Be32(x)
    ensures FromBe32(s) == Low32(x)
  {
    Be32RoundTrip(x);
    assert s[0] == s[..4][0] && s[1] == s[..4][1] && s[2] == s[..4][2] && s[3] == s[..4][3];
  }

  lemma WideFlags(fin: bool, csum: bool)
    ensures var f: Byte := if fin then 0x1d else 0x0d;
            && Flag(f, 4) && Flag(f, 8) && Flag(f, 16) == fin && AckLen(f) == 4
            && DssLen(f, false) == 22 && DssLen(f, true) == 24
  {
  }

  lemma DssRoundTrip(fin: bool, ack: int, mapping: Option<WireMapping>, m: Received, env: Env)
    requires mapping.Some? ==> mapping.value.len < 0x1_0000
    ensures ParseOne(DssBytes(fin, ack, mapping), m, env) == m.(data := LearnDss(fin, ack, mapping, m.data))
  {
    hide Be32, Be16, MappingBytes, ParseMapping, ParseDss;
    if mapping.Some? {
      MappedDss(fin, ack, mapping.value, m.data);
      var d := m.data.(flagAck := true, dataAck := Low32(ack), dss := MappingBytes(mapping.value));
      ParsedMapping(mapping.value, fin, d);
    } else {
      PlainDss(fin, ack, m.data);
    }
  }

  lemma RemoveShape(ids: IdBits)
    requires OptOk(RemoveAddr(ids))
    ensures |RemoveBytes(ids)| >= 4 && RemoveBytes(ids)[2] == 64
  {
    var k :| 0 <= k < 16 && ids[k];
    SomeBit(ids, 0, k);
    hide SetBits;
  }

  lemma ParseFour(s: Bytes, m: Received, env: Env)
    requires |s| >= 3 && s[2] == 64
    ensures ParseOne(s, m, env) == m.(addrs := ParseRemoveAddr(s, m.addrs))
  {
  }

  lemma RemoveRoundTrip(ids: IdBits, m: Received, env: Env)
    requires OptOk(RemoveAddr(ids))
    ensures ParseOne(RemoveBytes(ids), m, env) == m.(addrs := LearnRemove(RemoveBytes(ids), m.addrs))
  {
    hide SetBits, ParseOne, ParseCapable, ParseJoin, ParseDss, ParseAddAddr, ParsePrio, ParseFclose;
    RemoveShape(ids);
    ParseFour(RemoveBytes(ids), m, env);
  }

  lemma FailRoundTrip(cutoff: int, m: Received, env: Env)
    ensures ParseOne([TCPOPT_MPTCP, 12, 6 * 16, 0] + Be64(cutoff), m, env) == m.(sig := LearnFail(m.sig))
  {
  }

  lemma PrioRoundTrip(low: bool, m: Received, env: Env)
    ensures ParseOne([TCPOPT_MPTCP, 3, 5 * 16 + Bit(low)], m, env) == m.(sig := LearnPrio(low, m.sig))
  {
  }

  lemma MappingLength(mp: WireMapping)
    requires mp.len < 0x1_0000
    ensures |MappingBytes(mp)| == 10 + 2 * Bit(mp.csum.Some?)
  {
  }

  lemma AckAt(s: Bytes, ack: int)
    requires |s| >= 8 && s[4..8] == Be32(ack)
    ensures FromBe32(s[4..]) == Low32(ack)
  {
    Be32RoundTrip(ack);
    assert s[4] == s[4..8][0] && s[5] == s[4..8][1] && s[6] == s[4..8][2] && s[7] == s[4..8][3];
  }

  /** An option, read back, tells the receiver what it should learn. */
  lemma OptionRoundTrip(o: Opt, m: Received, env: Env)
    requires OptOk(o)
    ensures ParseOne(Body(o), m, env) == Learn(o, m, env)
  {
    hide ParseOne, LearnCapable, LearnJoinSyn, LearnJoinSynAck, LearnJoinAck, LearnAddr, LearnRemove, LearnFclose,
         LearnDss, Be64, CapableBytes, JoinBytes, AddAddrBytes, DssBytes, RemoveBytes;
    match o
    case CapableSyn(ver, csum, sender) => CapableSynRoundTrip(ver, csum, sender, m, env);
    case CapableAck(ver, csum, sender, receiver) => CapableAckRoundTrip(ver, csum, sender, receiver, m, env);
    case JoinSyn(low, id, token, nonce) => JoinSynRoundTrip(low, id, token, nonce, m, env);
    case JoinSynAck(low, id, tmac, nonce) => JoinSynAckRoundTrip(low, id, tmac, nonce, m, env);
    case JoinAck(mac) => JoinAckRoundTrip(mac, m, env);
    case AddAddr4(id, addr, trunc) =>
      AddAddrRoundTrip(4, id, addr + (if trunc.Some? then trunc.value else []), trunc.Some?, m, env);
    case AddAddr6(id, addr, trunc) =>
      AddAddrRoundTrip(6, id, addr + (if trunc.Some? then trunc.value else []), trunc.Some?, m, env);
    case RemoveAddr(ids) => RemoveRoundTrip(ids, m, env);
    case Fail(cutoff) => FailRoundTrip(cutoff, m, env);
    case FClose(key) => FcloseRoundTrip(key, m, env);
    case Dss(fin, ack, mapping) => DssRoundTrip(fin, ack, mapping, m, env);
    case Prio(low) => PrioRoundTrip(low, m, env);
  }

  /** The walker hands an option to the parser and goes on behind it. */
  lemma WalkOption(body: Bytes, rest: Bytes, m: Received, env: Env)
    requires |body| >= 2 && body[0] == TCPOPT_MPTCP && body[1] == |body|
    ensures Walk(body + rest, m, env) == Walk(rest, ParseOne(body, m, env), env)
  {
    hide ParseOne;
    var s := body + rest;
    assert s[..s[1]] == body && s[s[1]..] == rest;
  }

  /** Options of other kinds are stepped over. */
  lemma WalkForeign(body: Bytes, rest: Bytes, m: Received, env: Env)
    requires |body| >= 2 && body[0] != TCPOPT_MPTCP && body[0] > 1 && body[1] == |body|
    ensures Walk(body + rest, m, env) == Walk(rest, m, env)
  {
    hide ParseOne;
    var s := body + rest;
    assert s[..s[1]] == body && s[s[1]..] == rest;
  }

  lemma {:induction false} WalkNops(n: nat, rest: Bytes, m: Received, env: Env)
    ensures Walk(Nops(n) + rest, m, env) == Walk(rest, m, env)
  {
    if n == 0 {
      assert Nops(0) + rest == rest;
    } else {
      assert (Nops(n) + rest)[1..] == Nops(n - 1) + rest;
      WalkNops(n - 1, rest, m, env);
    }
  }

  function EncodeAll(opts: seq<Opt>): Bytes
    requires forall o :: o in opts ==> OptOk(o)
  {
    if opts == [] then [] else Encode(opts[0]) + EncodeAll(opts[1..])
  }

  function LearnAll(opts: seq<Opt>, m: Received, env: Env): Received
    requires forall o :: o in opts ==> OptOk(o)
  {
    if opts == [] then m else LearnAll(opts[1..], Learn(opts[0], m, env), env)
  }

  /** Any sequence of options, followed by anything: the receiver learns each of them in turn. */
  lemma {:induction false} RoundTrip(opts: seq<Opt>, rest: Bytes, m: Received, env: Env)
    requires forall o :: o in opts ==> OptOk(o)
    ensures Walk(EncodeAll(opts) + rest, m, env) == Walk(rest, LearnAll(opts, m, env), env)
  {
    hide Walk, Learn, Body;
    if opts == [] {
      assert EncodeAll(opts) + rest == rest;
    } else {
      var o, tail := opts[0], EncodeAll(opts[1..]) + rest;
      var pad := Nops(Padding(|Body(o)|));
      assert EncodeAll(opts) + rest == Body(o) + (pad + tail);
      BodyShape(o);
      WalkOption(Body(o), pad + tail, m, env);
      OptionRoundTrip(o, m, env);
      WalkNops(|pad|, tail, Learn(o, m, env), env);
      RoundTrip(opts[1..], rest, Learn(o, m, env), env);
    }
  }

  /** `mptcp_handle_rem_addr`: the ids read behind the header of the option. */
  method HandleRemAddr(opt: Bytes) returns (ids: seq<Byte>)
    requires |opt| >= 4 && opt[1] == |opt|
    ensures ids == opt[3..]
  {
    ids := [];
    for i := 0 to opt[1] - 3
      invariant ids == opt[3..3 + i]
    {
      ids := ids + [opt[3 + i]];
    }
  }

  /** The list of removed addresses is exactly the set bits. */
  lemma RemovedExactly(ids: IdBits, x: Byte)
    ensures x in Body(RemoveAddr(ids))[3..] <==> x < 16 && ids[x]
    requires OptOk(RemoveAddr(ids))
  {
    SetBitsExact(ids, 0, x);
    assert Body(RemoveAddr(ids))[3..] == SetBits(ids, 0);
  }

  /** What `mptcp_handle_add_addr` reads of an announced address: the id, the address, and the HMAC behind it. */
  lemma AnnouncementReadBack(ipver: nat, id: Byte, addr: Bytes, mac: Bytes)
    requires ipver < 16 && |addr| + |mac| < 200
    ensures var s := AddAddrBytes(ipver, id, addr + mac);
            s[2] % 16 == ipver && s[3] == id && s[4..4 + |addr|] == addr && s[4 + |addr|..] == mac
  {
  }
}

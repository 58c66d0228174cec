/**
 From the sender's segment to the receiver's mapping: the option saved with a segment, put into the header later,
 walked and parsed, names the mapping under which the segment was recorded on its subflow.
 */
module WireMappings {
  import opened Common
  import opened SeqArith
  import opened DataStream
  import opened Mappings
  import Codec = OptionCodec
  import Writer = OptionWriter

  /**
   A received DSS option with its numbers made absolute: the subflow number counts from the initial number `isn`
   of the peer, and each is the number next to a known one whose low word fits.
   */
  function Absolute(d: Codec.Data, isn: int, dataNear: int, subNear: int): Dss
    requires |d.dss| >= 8
  {
    var sub := Codec.FromBe32(d.dss[4..]) + isn;
    Dss(Unwrap(dataNear, d.dataSeq), d.flagSeq64, Unwrap(subNear, sub), d.dataLen, d.flagFin)
  }

  /** What the walker makes of a header that holds a saved option and then anything. */
  lemma WalkSaved(dss: Bytes, rest: Bytes, fin: bool, ack: int, mp: Codec.WireMapping, m: Codec.Received,
                  env: Codec.Env)
    requires Writer.Saved(dss, fin, ack, mp)
    ensures Codec.Walk(dss + rest, m, env)
         == Codec.Walk(rest, m.(data := Codec.LearnDss(fin, ack, Some(mp), m.data)), env)
  {
    var o := Codec.Dss(fin, ack, Some(mp));
    assert Codec.EncodeAll([o]) == Codec.Encode(o) + [];
    Codec.RoundTrip([o], rest, m, env);
    assert Codec.LearnAll([o], m, env) == Codec.Learn(o, m, env) by {
      assert [o][1..] == [];
    }
    assert dss + [] == dss;
  }

  /** The two subflow numbers differ by a multiple of 2^32. */
  lemma SubflowNumber(sub: int, isn: int)
    ensures Low32(Low32(sub - isn) + isn) == Low32(sub)
  {
    LowEqual(Low32(sub - isn) + isn, sub, -((sub - isn) / TWO_32));
  }

  /**
   Sending and reading back.  A segment of a subflow is mapped at the write position; its option is saved then,
   written into a header with the acknowledgement of the moment, and read.  Whatever the acknowledgements, the
   checksum and the number of times the sequence numbers have wrapped, the receiver is told that very mapping.
   */
  method MappingArrives(tx: SubTx, dataSeq: int, payload: seq<Cell>, fin: bool, isn: int, csumOn: bool, csum: Half,
                        savedAck: int, sentAck: int, m: Codec.Received, env: Codec.Env, dataNear: int, subNear: int)
    returns (header: Bytes)
    requires 0 < |payload| + (if fin then 1 else 0) <= MAX_MAPPING
    requires !m.data.flagFin && !m.data.flagSeq64
    requires Near(dataNear, dataSeq) && Near(subNear, tx.WriteSeq())
    ensures |header| == 20
    ensures var d := Codec.Walk(header, m, env).data;
            && |d.dss| >= 8 && d.flagSeq && d.flagAck && d.dataAck == Low32(sentAck)
            && DssNames(Absolute(d, isn, dataNear, subNear), Entail(tx, dataSeq, payload, fin).maps[|tx.maps|])
            && !Absolute(d, isn, dataNear, subNear).seq64
  {
    hide Writer.Saved, Codec.Walk, Codec.MappingBytes, Codec.FromBe32, Codec.FromBe16, Codec.Be32, Unwrap, Low32;
    var end := dataSeq + |payload| + if fin then 1 else 0;
    var emptyFin := fin && payload == [];
    var dss := Writer.SaveDssDataSeq(fin, savedAck, dataSeq, end, tx.WriteSeq() - isn, emptyFin, false, csumOn, csum);
    ghost var mp := Writer.MappingOf(dataSeq, end, tx.WriteSeq() - isn, emptyFin, false, csumOn, csum);
    header := Writer.WriteDssDataSeq(dss, sentAck, fin, savedAck, mp);
    Writer.SavedShape(header, fin, sentAck, mp);
    assert header + [] == header;
    WalkSaved(header, [], fin, sentAck, mp, m, env);
    NothingBehind(m.(data := Codec.LearnDss(fin, sentAck, Some(mp), m.data)), env);
    Codec.MappingRoundTrip(mp, []);
    Codec.MappingLength(mp);
    assert Codec.MappingBytes(mp) + [] == Codec.MappingBytes(mp);
    Numbers(dataSeq, dataNear);
    SubflowNumber(tx.WriteSeq(), isn);
    UnwrapUnique(subNear, tx.WriteSeq(), Low32(tx.WriteSeq() - isn) + isn);
  }

  lemma NothingBehind(m: Codec.Received, env: Codec.Env)
    ensures Codec.Walk([], m, env) == m
  {
  }

  lemma Numbers(n: int, near: int)
    requires Near(near, n)
    ensures Unwrap(near, Low32(n)) == n
  {
    LowEqual(Low32(n), n, -(n / TWO_32));
    UnwrapUnique(near, n, Low32(n));
  }
}

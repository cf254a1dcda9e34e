/** Reading a record back: a buffer that is consumed from the front, field after field. */
module RecordDecoder {
  import opened Words
  import opened WireFormat
  import opened RecordFields

  class ByteBuffer {
    var data: Bytes

    constructor ()
      ensures data == []
    {
      data := [];
    }

    method Append(chunk: Bytes)
      modifies this
      ensures data == old(data) + chunk
    {
      data := data + chunk;
    }

    method Clear()
      modifies this
      ensures data == []
    {
      data := [];
    }

    method GetU8() returns (v: Byte)
      requires data != []
      modifies this
      ensures old(data) == [v] + data
    {
      v := data[0];
      data := data[1..];
    }

    method GetU16Le() returns (v: U16)
      requires |data| >= 2
      modifies this
      ensures old(data) == Le(2, v) + data
    {
      v := From16(data[..2]);
      data := data[2..];
    }

    method GetU32Le() returns (v: U32)
      requires |data| >= 4
      modifies this
      ensures old(data) == Le(4, v) + data
    {
      v := From32(data[..4]);
      data := data[4..];
    }

    method GetU64Le() returns (v: U64)
      requires |data| >= 8
      modifies this
      ensures old(data) == Le(8, v) + data
    {
      v := From64(data[..8]);
      data := data[8..];
    }

    method CopyToSlice(n: nat) returns (slice: Bytes)
      requires |data| >= n
      modifies this
      ensures |slice| == n && old(data) == slice + data
    {
      slice := data[..n];
      data := data[n..];
    }

    method Advance(n: nat) returns (ghost skipped: Bytes)
      requires |data| >= n
      modifies this
      ensures |skipped| == n && old(data) == skipped + data
    {
      skipped := data[..n];
      data := data[n..];
    }
  }

  // What the service makes of a record. Text fields are the raw bytes; padding is gone.
  datatype DashboardPacket = DashboardPacket(
    timestamp: U64, srcIp: Bytes, dstIp: Bytes, srcPort: U16, dstPort: U16, protocol: Byte,
    hasTcpAo: bool, tcpFlags: Byte, l3Offset: Byte, l4Offset: Byte,
    tcpSeq: U32, tcpAck: U32, icmpType: Byte, icmpCode: Byte, deltaTime: U32, vlanId: U16,
    ipTtl: Byte, ipTos: Byte, tcpWin: U16, ipId: U16, isIpv6: bool, isFragment: bool,
    tcpMss: U16, tcpWs: Byte, ipv6ExtCount: Byte, ipv6Flow: U32, wireLen: U32,
    tcpTsVal: U32, tcpTsEcr: U32, tcpSack: bool, tcpRtt: U32, vxlanVni: U32, entropyScaled: U32,
    ntpStratum: Byte, ntpMode: Byte, igmpType: Byte, igmpGroup: Bytes, lldpChassis: Bytes, lldpPort: Bytes,
    tcpSackEdges: seq<U32>, topByte: Byte, topByteFreq: Byte,
    srcMac: Bytes, dstMac: Bytes, dnsQuery: Bytes, tlsSni: Bytes, extraInfo: Bytes, appLayerInfo: Bytes,
    payload: Bytes)

  /** The packet made of decoded fields: flag bytes are truth values, the payload is cut to its length. */
  function AsPacket(h: Head, n: Net, o: Options, s: Services, payloadLen: U16, srcMac: Bytes, dstMac: Bytes,
                    dnsQuery: Bytes, tlsSni: Bytes, extraInfo: Bytes, appLayerInfo: Bytes,
                    payload: Bytes): DashboardPacket
    requires |payload| == 256
  {
    DashboardPacket(
      h.timestamp, h.srcIp, h.dstIp, h.srcPort, h.dstPort, h.protocol,
      h.hasTcpAo != 0, h.tcpFlags, h.l3Offset, h.l4Offset,
      n.tcpSeq, n.tcpAck, n.icmpType, n.icmpCode, n.deltaTime, n.vlanId,
      n.ipTtl, n.ipTos, n.tcpWin, n.ipId, n.isIpv6 != 0, n.isFragment != 0,
      o.tcpMss, o.tcpWs, o.ipv6ExtCount, o.ipv6Flow, o.wireLen,
      o.tcpTsVal, o.tcpTsEcr, o.tcpSack != 0, o.tcpRtt, o.vxlanVni, o.entropyScaled,
      s.ntpStratum, s.ntpMode, s.igmpType, s.igmpGroup, s.lldpChassis, s.lldpPort,
      s.tcpSackEdges, s.topByte, s.topByteFreq,
      srcMac, dstMac, dnsQuery, tlsSni, extraInfo, appLayerInfo,
      payload[..Min(payloadLen, 256)])
  }

  /** The packet that a record stands for. */
  function View(p: PacketInfo): DashboardPacket
    requires Sized(p)
  {
    var t := p.tail;
    AsPacket(p.head, p.net, p.options, p.services, t.payloadLen, t.srcMac, t.dstMac, t.dnsQuery, t.tlsSni, t.extraInfo,
             t.appLayerInfo, t.payload)
  }

  /** The packet says what these bytes hold: each of its fields, by the offsets. */
  predicate PacketOnWire(r: DashboardPacket, d: Bytes)
    requires |d| >= 1024
  {
    && r.timestamp == Num64(d, 0) && r.srcIp == d[8..24] && r.dstIp == d[24..40]
    && r.srcPort == Num16(d, 40) && r.dstPort == Num16(d, 42) && r.protocol == d[44]
    && (r.hasTcpAo <==> d[45] != 0) && r.tcpFlags == d[46] && r.l3Offset == d[47] && r.l4Offset == d[48]
    && r.tcpSeq == Num32(d, 49) && r.tcpAck == Num32(d, 53) && r.icmpType == d[57] && r.icmpCode == d[58]
    && r.deltaTime == Num32(d, 59) && r.vlanId == Num16(d, 63) && r.ipTtl == d[65] && r.ipTos == d[66]
    && r.tcpWin == Num16(d, 67) && r.ipId == Num16(d, 69) && (r.isIpv6 <==> d[71] != 0) && (r.isFragment <==> d[72] != 0)
    && r.tcpMss == Num16(d, 73) && r.tcpWs == d[75] && r.ipv6ExtCount == d[76] && r.ipv6Flow == Num32(d, 77)
    && r.wireLen == Num32(d, 81) && r.tcpTsVal == Num32(d, 85) && r.tcpTsEcr == Num32(d, 89)
    && (r.tcpSack <==> d[93] != 0)
    && r.tcpRtt == Num32(d, 94) && r.vxlanVni == Num32(d, 98) && r.entropyScaled == Num32(d, 102)
    && r.ntpStratum == d[106] && r.ntpMode == d[107] && r.igmpType == d[108] && r.igmpGroup == d[109..113]
    && r.lldpChassis == d[113..145] && r.lldpPort == d[145..177] && EdgesOnWire(r.tcpSackEdges, d, 177)
    && r.topByte == d[209] && r.topByteFreq == d[210]
    && r.srcMac == d[364..370] && r.dstMac == d[370..376]
    && r.dnsQuery == d[376..440] && r.tlsSni == d[440..504] && r.extraInfo == d[504..632]
    && r.appLayerInfo == d[632..760] && r.payload == d[760..760 + Min(Num16(d, 362), 256)]
  }

  /** The view of a record says, field by field, what its bytes hold. */
  lemma ViewOnWire(p: PacketInfo, d: Bytes, rest: Bytes)
    requires Sized(p) && d == InfoThen(p, rest)
    ensures |d| >= 1024 && PacketOnWire(View(p), d)
  {
    FieldsOnWire(p, d, rest);
    assert d[760..1016][..Min(Num16(d, 362), 256)] == d[760..760 + Min(Num16(d, 362), 256)];
  }

  method DecodeHead(buffer: ByteBuffer) returns (h: Head)
    requires |buffer.data| >= 49
    modifies buffer
    ensures SizedHead(h) && old(buffer.data) == HeadThen(h, buffer.data)
  {
    var timestamp := buffer.GetU64Le();
    var srcIp := buffer.CopyToSlice(16);
    var dstIp := buffer.CopyToSlice(16);
    var srcPort := buffer.GetU16Le();
    var dstPort := buffer.GetU16Le();
    var protocol := buffer.GetU8();
    var hasTcpAo := buffer.GetU8();
    var tcpFlags := buffer.GetU8();
    var l3Offset := buffer.GetU8();
    var l4Offset := buffer.GetU8();
    h := Head(timestamp, srcIp, dstIp, srcPort, dstPort, protocol, hasTcpAo, tcpFlags, l3Offset, l4Offset);
  }

  method DecodeNet(buffer: ByteBuffer) returns (n: Net)
    requires |buffer.data| >= 24
    modifies buffer
    ensures old(buffer.data) == NetThen(n, buffer.data)
  {
    var tcpSeq := buffer.GetU32Le();
    var tcpAck := buffer.GetU32Le();
    var icmpType := buffer.GetU8();
    var icmpCode := buffer.GetU8();
    var deltaTime := buffer.GetU32Le();
    var vlanId := buffer.GetU16Le();
    var ipTtl := buffer.GetU8();
    var ipTos := buffer.GetU8();
    var tcpWin := buffer.GetU16Le();
    var ipId := buffer.GetU16Le();
    var isIpv6 := buffer.GetU8();
    var isFragment := buffer.GetU8();
    n := Net(tcpSeq, tcpAck, icmpType, icmpCode, deltaTime, vlanId, ipTtl, ipTos, tcpWin, ipId, isIpv6, isFragment);
  }

  method DecodeOptions(buffer: ByteBuffer) returns (o: Options)
    requires |buffer.data| >= 33
    modifies buffer
    ensures old(buffer.data) == OptionsThen(o, buffer.data)
  {
    var tcpMss := buffer.GetU16Le();
    var tcpWs := buffer.GetU8();
    var ipv6ExtCount := buffer.GetU8();
    var ipv6Flow := buffer.GetU32Le();
    var wireLen := buffer.GetU32Le();
    var tcpTsVal := buffer.GetU32Le();
    var tcpTsEcr := buffer.GetU32Le();
    var tcpSack := buffer.GetU8();
    var tcpRtt := buffer.GetU32Le();
    var vxlanVni := buffer.GetU32Le();
    var entropyScaled := buffer.GetU32Le();
    o := Options(tcpMss, tcpWs, ipv6ExtCount, ipv6Flow, wireLen, tcpTsVal, tcpTsEcr, tcpSack, tcpRtt, vxlanVni,
                 entropyScaled);
  }

  method DecodeEdges(buffer: ByteBuffer) returns (edges: seq<U32>)
    requires |buffer.data| >= 32
    modifies buffer
    ensures |edges| == 8 && old(buffer.data) == Le32s(edges) + buffer.data
  {
    edges := [];
    for i := 0 to 8
      invariant |edges| == i && |buffer.data| >= 32 - 4 * i
      invariant old(buffer.data) == Le32s(edges) + buffer.data
    {
      var edge := buffer.GetU32Le();
      Le32sSnoc(edges, edge);
      edges := edges + [edge];
    }
  }

  method DecodeServices(buffer: ByteBuffer) returns (s: Services)
    requires |buffer.data| >= 105
    modifies buffer
    ensures SizedServices(s) && old(buffer.data) == ServicesThen(s, buffer.data)
  {
    var ntpStratum := buffer.GetU8();
    var ntpMode := buffer.GetU8();
    var igmpType := buffer.GetU8();
    var igmpGroup := buffer.CopyToSlice(4);
    var lldpChassis := buffer.CopyToSlice(32);
    var lldpPort := buffer.CopyToSlice(32);
    var edges := DecodeEdges(buffer);
    var topByte := buffer.GetU8();
    var topByteFreq := buffer.GetU8();
    s := Services(ntpStratum, ntpMode, igmpType, igmpGroup, lldpChassis, lldpPort, edges, topByte, topByteFreq);
  }

  /** The padding that the service skips is returned for the proof only. */
  method DecodeTail(buffer: ByteBuffer)
      returns (payloadLen: U16, srcMac: Bytes, dstMac: Bytes, dnsQuery: Bytes, tlsSni: Bytes, extraInfo: Bytes,
               appLayerInfo: Bytes, payload: Bytes, ghost pad: Bytes, ghost finalPad: Bytes)
    requires |buffer.data| >= 813
    modifies buffer
    ensures var t := Tail(pad, payloadLen, srcMac, dstMac, dnsQuery, tlsSni, extraInfo, appLayerInfo, payload, finalPad);
            SizedTail(t) && old(buffer.data) == TailThen(t, buffer.data)
  {
    pad := buffer.Advance(151);
    payloadLen := buffer.GetU16Le();
    srcMac := buffer.CopyToSlice(6);
    dstMac := buffer.CopyToSlice(6);
    dnsQuery := buffer.CopyToSlice(64);
    tlsSni := buffer.CopyToSlice(64);
    extraInfo := buffer.CopyToSlice(128);
    appLayerInfo := buffer.CopyToSlice(128);
    payload := buffer.CopyToSlice(256);
    finalPad := buffer.Advance(8);
  }

  /** Whatever 1024 bytes come first, they are the layout of one record p, and the packet is p's view. */
  method DecodeFields(buffer: ByteBuffer) returns (r: DashboardPacket, ghost p: PacketInfo)
    requires |buffer.data| >= STRUCT_SIZE
    modifies buffer
    ensures Sized(p) && old(buffer.data) == InfoThen(p, buffer.data) && r == View(p)
  {
    var h := DecodeHead(buffer);
    HeadSplits(h, buffer.data);
    var n := DecodeNet(buffer);
    NetSplits(n, buffer.data);
    var o := DecodeOptions(buffer);
    OptionsSplits(o, buffer.data);
    var s := DecodeServices(buffer);
    ServicesSplits(s, buffer.data);
    var payloadLen, srcMac, dstMac, dnsQuery, tlsSni, extraInfo, appLayerInfo, payload, pad, finalPad :=
      DecodeTail(buffer);
    ghost var t :=
      Tail(pad, payloadLen, srcMac, dstMac, dnsQuery, tlsSni, extraInfo, appLayerInfo, payload, finalPad);
    p := PacketInfo(h, n, o, s, t);
    r := AsPacket(h, n, o, s, payloadLen, srcMac, dstMac, dnsQuery, tlsSni, extraInfo, appLayerInfo, payload);
  }

  /** The packet says, field by field, what is at which offset of the 1024 bytes in front, and these are consumed. */
  method DecodeRecord(buffer: ByteBuffer) returns (r: DashboardPacket)
    requires |buffer.data| >= 1024
    modifies buffer
    ensures PacketOnWire(r, old(buffer.data)) && buffer.data == old(buffer.data)[1024..]
  {
    ghost var p;
    r, p := DecodeFields(buffer);
    InfoSplits(p, buffer.data);
    ViewOnWire(p, old(buffer.data), buffer.data);
  }
}

/** Where each field of the record is on the wire, by byte offsets. */
module RecordFields {
  import opened Words
  import opened WireFormat

  // Little-endian numbers in the bytes from position i on.

  function Num16(d: Bytes, i: nat): int
    requires i + 2 <= |d|
  {
    var b0: int, b1: int := d[i], d[i + 1];
    b0 + 0x100 * b1
  }

  function Num32(d: Bytes, i: nat): int
    requires i + 4 <= |d|
  {
    var b0: int, b1: int, b2: int, b3: int := d[i], d[i + 1], d[i + 2], d[i + 3];
    b0 + 0x100 * b1 + 0x1_0000 * b2 + 0x100_0000 * b3
  }

  function Num64(d: Bytes, i: nat): int
    requires i + 8 <= |d|
  {
    Num32(d, i) + 0x1_0000_0000 * Num32(d, i + 4)
  }

  // ----- The record in the sender's memory -----

  predicate HeadOnWire(h: Head, d: Bytes)
    requires |d| >= 49
  {
    && h.timestamp == Num64(d, 0) && h.srcIp == d[8..24] && h.dstIp == d[24..40]
    && h.srcPort == Num16(d, 40) && h.dstPort == Num16(d, 42) && h.protocol == d[44]
    && h.hasTcpAo == d[45] && h.tcpFlags == d[46] && h.l3Offset == d[47] && h.l4Offset == d[48]
  }

  predicate NetOnWire(n: Net, d: Bytes)
    requires |d| >= 73
  {
    && n.tcpSeq == Num32(d, 49) && n.tcpAck == Num32(d, 53) && n.icmpType == d[57] && n.icmpCode == d[58]
    && n.deltaTime == Num32(d, 59) && n.vlanId == Num16(d, 63) && n.ipTtl == d[65] && n.ipTos == d[66]
    && n.tcpWin == Num16(d, 67) && n.ipId == Num16(d, 69) && n.isIpv6 == d[71] && n.isFragment == d[72]
  }

  predicate OptionsOnWire(o: Options, d: Bytes)
    requires |d| >= 106
  {
    && o.tcpMss == Num16(d, 73) && o.tcpWs == d[75] && o.ipv6ExtCount == d[76] && o.ipv6Flow == Num32(d, 77)
    && o.wireLen == Num32(d, 81) && o.tcpTsVal == Num32(d, 85) && o.tcpTsEcr == Num32(d, 89) && o.tcpSack == d[93]
    && o.tcpRtt == Num32(d, 94) && o.vxlanVni == Num32(d, 98) && o.entropyScaled == Num32(d, 102)
  }

  predicate EdgesOnWire(edges: seq<U32>, d: Bytes, at: nat)
    requires at + 32 <= |d|
  {
    |edges| == 8 && forall j :: 0 <= j < 8 ==> edges[j] == Num32(d, at + 4 * j)
  }

  predicate ServicesOnWire(s: Services, d: Bytes)
    requires |d| >= 211
  {
    && s.ntpStratum == d[106] && s.ntpMode == d[107] && s.igmpType == d[108] && s.igmpGroup == d[109..113]
    && s.lldpChassis == d[113..145] && s.lldpPort == d[145..177] && EdgesOnWire(s.tcpSackEdges, d, 177)
    && s.topByte == d[209] && s.topByteFreq == d[210]
  }

  predicate TailOnWire(t: Tail, d: Bytes)
    requires |d| >= 1024
  {
    && t.pad == d[211..362] && t.payloadLen == Num16(d, 362) && t.srcMac == d[364..370] && t.dstMac == d[370..376]
    && t.dnsQuery == d[376..440] && t.tlsSni == d[440..504] && t.extraInfo == d[504..632]
    && t.appLayerInfo == d[632..760] && t.payload == d[760..1016] && t.finalPad == d[1016..1024]
  }

  // ----- Reading the layout field by field -----

  /** From position i on the bytes are a, then x. */
  lemma Field(d: Bytes, i: nat, a: Bytes, x: Bytes)
    requires i <= |d| && d[i..] == a + x
    ensures i + |a| <= |d| && d[i..i + |a|] == a && d[i + |a|..] == x
    ensures forall j :: 0 <= j < |a| ==> d[i + j] == a[j]
  {
    assert d[i..][..|a|] == a && d[i..][|a|..] == x;
    forall j | 0 <= j < |a| ensures d[i + j] == a[j] {
      assert d[i..][j] == d[i + j];
    }
  }

  lemma Byte1(d: Bytes, i: nat, b: Byte, x: Bytes)
    requires i <= |d| && d[i..] == [b] + x
    ensures i < |d| && b == d[i] && d[i + 1..] == x
  {
    Field(d, i, [b], x);
    assert d[i + 0] == [b][0];
  }

  lemma LeBytes(n: nat, v: nat)
    requires n > 0
    ensures Le(n, v)[0] == v % 0x100 && Le(n, v)[1..] == Le(n - 1, v / 0x100)
  {
  }

  lemma Le2(v: nat)
    requires v < 0x1_0000
    ensures Num16(Le(2, v), 0) == v
  {
    LeBytes(2, v);
    LeBytes(1, v / 0x100);
    assert Le(2, v)[1] == Le(1, v / 0x100)[0];
  }

  lemma Le4(v: nat)
    requires v < 0x1_0000_0000
    ensures Num32(Le(4, v), 0) == v
  {
    var rest := v / 0x100 / 0x100;
    LeBytes(4, v);
    LeBytes(3, v / 0x100);
    Le2(rest);
    assert Le(4, v)[1] == Le(3, v / 0x100)[0];
    assert Le(4, v)[2] == Le(3, v / 0x100)[1] == Le(2, rest)[0];
    assert Le(4, v)[3] == Le(3, v / 0x100)[2] == Le(2, rest)[1];
  }

  lemma Le8(v: nat)
    requires v < WORD
    ensures Num64(Le(8, v), 0) == v
  {
    var v1, v2, v3, rest := v / 0x100, v / 0x100 / 0x100, v / 0x100 / 0x100 / 0x100, v / 0x100 / 0x100 / 0x100 / 0x100;
    LeBytes(8, v);
    LeBytes(7, v1);
    LeBytes(6, v2);
    LeBytes(5, v3);
    Le4(rest);
    var b := Le(8, v);
    assert b[1..] == Le(7, v1) && b[2..] == Le(7, v1)[1..] == Le(6, v2);
    assert b[3..] == Le(6, v2)[1..] == Le(5, v3) && b[4..] == Le(5, v3)[1..] == Le(4, rest);
    assert Num32(b, 4) == Num32(b[4..], 0) == rest;
    assert b[1] == b[1..][0] && b[2] == b[2..][0] && b[3] == b[3..][0];
  }

  lemma Number16(d: Bytes, i: nat, v: U16, x: Bytes)
    requires i <= |d| && d[i..] == Le(2, v) + x
    ensures i + 2 <= |d| && v == Num16(d, i) && d[i + 2..] == x
  {
    Field(d, i, Le(2, v), x);
    Le2(v);
    assert d[i + 0] == Le(2, v)[0] && d[i + 1] == Le(2, v)[1];
  }

  lemma Number32(d: Bytes, i: nat, v: U32, x: Bytes)
    requires i <= |d| && d[i..] == Le(4, v) + x
    ensures i + 4 <= |d| && v == Num32(d, i) && d[i + 4..] == x
  {
    var b := Le(4, v);
    Field(d, i, b, x);
    Le4(v);
    assert d[i + 0] == b[0] && d[i + 1] == b[1] && d[i + 2] == b[2] && d[i + 3] == b[3];
  }

  lemma Number64(d: Bytes, i: nat, v: U64, x: Bytes)
    requires i <= |d| && d[i..] == Le(8, v) + x
    ensures i + 8 <= |d| && v == Num64(d, i) && d[i + 8..] == x
  {
    var b := Le(8, v);
    Field(d, i, b, x);
    Le8(v);
    assert Num32(d, i) == Num32(b, 0) by {
      assert d[i + 0] == b[0] && d[i + 1] == b[1] && d[i + 2] == b[2] && d[i + 3] == b[3];
    }
    assert Num32(d, i + 4) == Num32(b, 4) by {
      assert d[i + 4] == b[4] && d[i + 5] == b[5] && d[i + 6] == b[6] && d[i + 7] == b[7];
    }
  }

  lemma {:induction false} Numbers32(d: Bytes, i: nat, vs: seq<U32>, x: Bytes)
    requires i <= |d| && d[i..] == Le32s(vs) + x
    ensures i + 4 * |vs| <= |d| && d[i + 4 * |vs|..] == x
    ensures forall j :: 0 <= j < |vs| ==> vs[j] == Num32(d, i + 4 * j)
    decreases |vs|
  {
    if vs == [] {
      assert Le32s(vs) + x == x;
    } else {
      Associates(Le(4, vs[0]), Le32s(vs[1..]), x);
      Number32(d, i, vs[0], Le32s(vs[1..]) + x);
      Numbers32(d, i + 4, vs[1..], x);
      forall j | 0 <= j < |vs| ensures vs[j] == Num32(d, i + 4 * j) {
        if j > 0 {
          assert vs[j] == vs[1..][j - 1] == Num32(d, i + 4 + 4 * (j - 1));
        }
      }
    }
  }

  lemma Edges(d: Bytes, i: nat, vs: seq<U32>, x: Bytes)
    requires |vs| == 8 && i <= |d| && d[i..] == Le32s(vs) + x
    ensures i + 32 <= |d| && EdgesOnWire(vs, d, i) && d[i + 32..] == x
  {
    Numbers32(d, i, vs, x);
  }

  lemma HeadFields(h: Head, d: Bytes, rest: Bytes)
    requires 0 <= |d| && d[0..] == HeadThen(h, rest) && SizedHead(h)
    ensures 49 <= |d| && HeadOnWire(h, d) && d[49..] == rest
  {
    var x9 := [h.l4Offset] + rest;
    var x8 := [h.l3Offset] + x9;
    var x7 := [h.tcpFlags] + x8;
    var x6 := [h.hasTcpAo] + x7;
    var x5 := [h.protocol] + x6;
    var x4 := Le(2, h.dstPort) + x5;
    var x3 := Le(2, h.srcPort) + x4;
    var x2 := h.dstIp + x3;
    var x1 := h.srcIp + x2;
    Number64(d, 0, h.timestamp, x1);
    Field(d, 8, h.srcIp, x2);
    Field(d, 24, h.dstIp, x3);
    Number16(d, 40, h.srcPort, x4);
    Number16(d, 42, h.dstPort, x5);
    Byte1(d, 44, h.protocol, x6);
    Byte1(d, 45, h.hasTcpAo, x7);
    Byte1(d, 46, h.tcpFlags, x8);
    Byte1(d, 47, h.l3Offset, x9);
    Byte1(d, 48, h.l4Offset, rest);
  }

  lemma NetFields(n: Net, d: Bytes, rest: Bytes)
    requires 49 <= |d| && d[49..] == NetThen(n, rest)
    ensures 73 <= |d| && NetOnWire(n, d) && d[73..] == rest
  {
    var x11 := [n.isFragment] + rest;
    var x10 := [n.isIpv6] + x11;
    var x9 := Le(2, n.ipId) + x10;
    var x8 := Le(2, n.tcpWin) + x9;
    var x7 := [n.ipTos] + x8;
    var x6 := [n.ipTtl] + x7;
    var x5 := Le(2, n.vlanId) + x6;
    var x4 := Le(4, n.deltaTime) + x5;
    var x3 := [n.icmpCode] + x4;
    var x2 := [n.icmpType] + x3;
    var x1 := Le(4, n.tcpAck) + x2;
    Number32(d, 49, n.tcpSeq, x1);
    Number32(d, 53, n.tcpAck, x2);
    Byte1(d, 57, n.icmpType, x3);
    Byte1(d, 58, n.icmpCode, x4);
    Number32(d, 59, n.deltaTime, x5);
    Number16(d, 63, n.vlanId, x6);
    Byte1(d, 65, n.ipTtl, x7);
    Byte1(d, 66, n.ipTos, x8);
    Number16(d, 67, n.tcpWin, x9);
    Number16(d, 69, n.ipId, x10);
    Byte1(d, 71, n.isIpv6, x11);
    Byte1(d, 72, n.isFragment, rest);
  }

  lemma OptionsFields(o: Options, d: Bytes, rest: Bytes)
    requires 73 <= |d| && d[73..] == OptionsThen(o, rest)
    ensures 106 <= |d| && OptionsOnWire(o, d) && d[106..] == rest
  {
    var x10 := Le(4, o.entropyScaled) + rest;
    var x9 := Le(4, o.vxlanVni) + x10;
    var x8 := Le(4, o.tcpRtt) + x9;
    var x7 := [o.tcpSack] + x8;
    var x6 := Le(4, o.tcpTsEcr) + x7;
    var x5 := Le(4, o.tcpTsVal) + x6;
    var x4 := Le(4, o.wireLen) + x5;
    var x3 := Le(4, o.ipv6Flow) + x4;
    var x2 := [o.ipv6ExtCount] + x3;
    var x1 := [o.tcpWs] + x2;
    Number16(d, 73, o.tcpMss, x1);
    Byte1(d, 75, o.tcpWs, x2);
    Byte1(d, 76, o.ipv6ExtCount, x3);
    Number32(d, 77, o.ipv6Flow, x4);
    Number32(d, 81, o.wireLen, x5);
    Number32(d, 85, o.tcpTsVal, x6);
    Number32(d, 89, o.tcpTsEcr, x7);
    Byte1(d, 93, o.tcpSack, x8);
    Number32(d, 94, o.tcpRtt, x9);
    Number32(d, 98, o.vxlanVni, x10);
    Number32(d, 102, o.entropyScaled, rest);
  }

  lemma ServicesFields(s: Services, d: Bytes, rest: Bytes)
    requires 106 <= |d| && d[106..] == ServicesThen(s, rest) && SizedServices(s)
    ensures 211 <= |d| && ServicesOnWire(s, d) && d[211..] == rest
  {
    var x8 := [s.topByteFreq] + rest;
    var x7 := [s.topByte] + x8;
    var x6 := Le32s(s.tcpSackEdges) + x7;
    var x5 := s.lldpPort + x6;
    var x4 := s.lldpChassis + x5;
    var x3 := s.igmpGroup + x4;
    var x2 := [s.igmpType] + x3;
    var x1 := [s.ntpMode] + x2;
    Byte1(d, 106, s.ntpStratum, x1);
    Byte1(d, 107, s.ntpMode, x2);
    Byte1(d, 108, s.igmpType, x3);
    Field(d, 109, s.igmpGroup, x4);
    Field(d, 113, s.lldpChassis, x5);
    Field(d, 145, s.lldpPort, x6);
    Edges(d, 177, s.tcpSackEdges, x7);
    Byte1(d, 209, s.topByte, x8);
    Byte1(d, 210, s.topByteFreq, rest);
  }

  lemma TailFields(t: Tail, d: Bytes, rest: Bytes)
    requires 211 <= |d| && d[211..] == TailThen(t, rest) && SizedTail(t)
    ensures 1024 <= |d| && TailOnWire(t, d) && d[1024..] == rest
  {
    var x9 := t.finalPad + rest;
    var x8 := t.payload + x9;
    var x7 := t.appLayerInfo + x8;
    var x6 := t.extraInfo + x7;
    var x5 := t.tlsSni + x6;
    var x4 := t.dnsQuery + x5;
    var x3 := t.dstMac + x4;
    var x2 := t.srcMac + x3;
    var x1 := Le(2, t.payloadLen) + x2;
    Field(d, 211, t.pad, x1);
    Number16(d, 362, t.payloadLen, x2);
    Field(d, 364, t.srcMac, x3);
    Field(d, 370, t.dstMac, x4);
    Field(d, 376, t.dnsQuery, x5);
    Field(d, 440, t.tlsSni, x6);
    Field(d, 504, t.extraInfo, x7);
    Field(d, 632, t.appLayerInfo, x8);
    Field(d, 760, t.payload, x9);
    Field(d, 1016, t.finalPad, rest);
  }

  predicate RecordOnWire(p: PacketInfo, d: Bytes)
    requires |d| >= 1024
  {
    && HeadOnWire(p.head, d) && NetOnWire(p.net, d) && OptionsOnWire(p.options, d)
    && ServicesOnWire(p.services, d) && TailOnWire(p.tail, d)
  }

  /** In the 1024 bytes that a record begins with, every field of the struct is at its offset. */
  lemma FieldsOnWire(p: PacketInfo, d: Bytes, rest: Bytes)
    requires Sized(p) && d == InfoThen(p, rest)
    ensures |d| >= 1024 && RecordOnWire(p, d)
  {
    var tail := TailThen(p.tail, rest);
    var services := ServicesThen(p.services, tail);
    var options := OptionsThen(p.options, services);
    var net := NetThen(p.net, options);
    assert d[0..] == d;
    HeadFields(p.head, d, net);
    NetFields(p.net, d, options);
    OptionsFields(p.options, d, services);
    ServicesFields(p.services, d, tail);
    TailFields(p.tail, d, rest);
  }
}

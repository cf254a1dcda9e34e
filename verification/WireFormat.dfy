/**
 The 1024-byte record: how the capture process lays it out in memory, field after field and little
 endian, and how the service reads it back, get after get.
 */
module WireFormat {
  import opened Words

  const STRUCT_SIZE: nat := 1024

  // The packed struct, its consecutive fields grouped.

  datatype Head = Head(
    timestamp: U64, srcIp: Bytes, dstIp: Bytes, srcPort: U16, dstPort: U16, protocol: Byte,
    hasTcpAo: Byte, tcpFlags: Byte, l3Offset: Byte, l4Offset: Byte)

  datatype Net = Net(
    tcpSeq: U32, tcpAck: U32, icmpType: Byte, icmpCode: Byte, deltaTime: U32, vlanId: U16, ipTtl: Byte,
    ipTos: Byte, tcpWin: U16, ipId: U16, isIpv6: Byte, isFragment: Byte)

  datatype Options = Options(
    tcpMss: U16, tcpWs: Byte, ipv6ExtCount: Byte, ipv6Flow: U32, wireLen: U32, tcpTsVal: U32,
    tcpTsEcr: U32, tcpSack: Byte, tcpRtt: U32, vxlanVni: U32, entropyScaled: U32)

  datatype Services = Services(
    ntpStratum: Byte, ntpMode: Byte, igmpType: Byte, igmpGroup: Bytes, lldpChassis: Bytes,
    lldpPort: Bytes, tcpSackEdges: seq<U32>, topByte: Byte, topByteFreq: Byte)

  datatype Tail = Tail(
    pad: Bytes, payloadLen: U16, srcMac: Bytes, dstMac: Bytes, dnsQuery: Bytes, tlsSni: Bytes,
    extraInfo: Bytes, appLayerInfo: Bytes, payload: Bytes, finalPad: Bytes)

  datatype PacketInfo = PacketInfo(head: Head, net: Net, options: Options, services: Services, tail: Tail)

  // The arrays have the lengths that the struct declares.

  predicate SizedHead(h: Head) {
    |h.srcIp| == |h.dstIp| == 16
  }

  predicate SizedServices(s: Services) {
    |s.igmpGroup| == 4 && |s.lldpChassis| == |s.lldpPort| == 32 && |s.tcpSackEdges| == 8
  }

  predicate SizedTail(t: Tail) {
    && |t.pad| == 151 && |t.srcMac| == |t.dstMac| == 6 && |t.dnsQuery| == |t.tlsSni| == 64
    && |t.extraInfo| == |t.appLayerInfo| == 128 && |t.payload| == 256 && |t.finalPad| == 8
  }

  predicate Sized(p: PacketInfo) {
    SizedHead(p.head) && SizedServices(p.services) && SizedTail(p.tail)
  }

  // ----- Little-endian numbers -----

  /** n bytes, the least significant first. */
  function Le(n: nat, v: nat): (b: Bytes)
    ensures |b| == n
  {
    if n == 0 then [] else [v % 0x100] + Le(n - 1, v / 0x100)
  }

  lemma LeOneMore(n: nat, lo: Byte, hi: nat)
    ensures Le(n + 1, lo + 0x100 * hi) == [lo] + Le(n, hi)
  {
    var v: int := lo + 0x100 * hi;
    assert v % 0x100 == lo && v / 0x100 == hi;
  }

  function FromLe(b: Bytes): (v: nat)
    ensures Le(|b|, v) == b
  {
    if b == [] then 0
    else
      var hi := FromLe(b[1..]);
      LeOneMore(|b| - 1, b[0], hi);
      assert [b[0]] + b[1..] == b;
      b[0] + 0x100 * hi
  }

  lemma {:induction false} FromLeRange(b: Bytes)
    ensures FromLe(b) < Pow2(8 * |b|)
  {
    if b != [] {
      FromLeRange(b[1..]);
      Pow2Adds(8, 8 * |b[1..]|);
      assert Pow2(8) == 0x100;
    }
  }

  /** A number that fits is read back from its bytes. */
  lemma {:induction false} LeFits(n: nat, v: nat)
    requires v < Pow2(8 * n)
    ensures FromLe(Le(n, v)) == v
  {
    if n > 0 {
      Pow2Adds(8, 8 * (n - 1));
      assert Pow2(8) == 0x100;
      assert v / 0x100 < Pow2(8 * (n - 1));
      LeFits(n - 1, v / 0x100);
      assert Le(n, v)[1..] == Le(n - 1, v / 0x100);
    }
  }

  lemma Widths()
    ensures Pow2(16) == 0x1_0000 && Pow2(32) == 0x1_0000_0000 && Pow2(64) == WORD
  {
    assert Pow2(8) == 0x100;
    Pow2Adds(8, 8);
    Pow2Adds(16, 16);
    Pow2Adds(32, 32);
  }

  function From16(b: Bytes): (v: U16)
    requires |b| == 2
    ensures Le(2, v) == b
  {
    FromLeRange(b);
    Widths();
    FromLe(b)
  }

  function From32(b: Bytes): (v: U32)
    requires |b| == 4
    ensures Le(4, v) == b
  {
    FromLeRange(b);
    Widths();
    FromLe(b)
  }

  function From64(b: Bytes): (v: U64)
    requires |b| == 8
    ensures Le(8, v) == b
  {
    FromLeRange(b);
    Widths();
    FromLe(b)
  }

  lemma LeInjective(n: nat, v: nat, w: nat)
    requires v < Pow2(8 * n) && w < Pow2(8 * n) && Le(n, v) == Le(n, w)
    ensures v == w
  {
    LeFits(n, v);
    LeFits(n, w);
  }

  function Le32s(vs: seq<U32>): (b: Bytes)
    ensures |b| == 4 * |vs|
  {
    if vs == [] then [] else Le(4, vs[0]) + Le32s(vs[1..])
  }

  lemma {:induction false} Le32sInjective(vs: seq<U32>, ws: seq<U32>)
    requires |vs| == |ws| && Le32s(vs) == Le32s(ws)
    ensures vs == ws
  {
    if vs != [] {
      Peel(Le(4, vs[0]), Le32s(vs[1..]), Le(4, ws[0]), Le32s(ws[1..]));
      Widths();
      LeInjective(4, vs[0], ws[0]);
      Le32sInjective(vs[1..], ws[1..]);
    }
  }

  lemma {:induction false} Le32sSnoc(vs: seq<U32>, v: U32)
    ensures Le32s(vs + [v]) == Le32s(vs) + Le(4, v)
  {
    if vs == [] {
      assert [v][1..] == [] && Le32s([v]) == Le(4, v) + [] == [] + Le(4, v);
    } else {
      Le32sSnoc(vs[1..], v);
      assert (vs + [v])[1..] == vs[1..] + [v];
      Associates(Le(4, vs[0]), Le32s(vs[1..]), Le(4, v));
    }
  }

  lemma Associates(a: Bytes, b: Bytes, c: Bytes)
    ensures a + (b + c) == (a + b) + c
  {
  }

  /** Equal texts that start with parts of equal length have equal parts and equal remainders. */
  lemma Peel(a: Bytes, x: Bytes, b: Bytes, y: Bytes)
    requires a + x == b + y && |a| == |b|
    ensures a == b && x == y
  {
    assert a == (a + x)[..|a|] && b == (b + y)[..|b|];
    assert x == (a + x)[|a|..] && y == (b + y)[|b|..];
  }

  lemma Peel2(a: Bytes, b: Bytes, x: Bytes,
              a': Bytes, b': Bytes, x': Bytes)
    requires a + (b + x) == a' + (b' + x')
    requires |a| == |a'| && |b| == |b'|
    ensures a == a' && b == b' && x == x'
  {
    Peel(a, b + x, a', b' + x');
    Peel(b, x, b', x');
  }

  lemma Peel3(a: Bytes, b: Bytes, c: Bytes, x: Bytes,
              a': Bytes, b': Bytes, c': Bytes, x': Bytes)
    requires a + (b + (c + x)) == a' + (b' + (c' + x'))
    requires |a| == |a'| && |b| == |b'| && |c| == |c'|
    ensures a == a' && b == b' && c == c' && x == x'
  {
    Peel(a, b + (c + x), a', b' + (c' + x'));
    Peel(b, c + x, b', c' + x');
    Peel(c, x, c', x');
  }

  lemma Peel4(a: Bytes, b: Bytes, c: Bytes, d: Bytes, x: Bytes,
              a': Bytes, b': Bytes, c': Bytes, d': Bytes, x': Bytes)
    requires a + (b + (c + (d + x))) == a' + (b' + (c' + (d' + x')))
    requires |a| == |a'| && |b| == |b'| && |c| == |c'| && |d| == |d'|
    ensures a == a' && b == b' && c == c' && d == d' && x == x'
  {
    Peel(a, b + (c + (d + x)), a', b' + (c' + (d' + x')));
    Peel(b, c + (d + x), b', c' + (d' + x'));
    Peel(c, d + x, c', d' + x');
    Peel(d, x, d', x');
  }

  // ----- The layout: each group followed by whatever follows the group -----

  function HeadThen(h: Head, rest: Bytes): Bytes {
    Le(8, h.timestamp) + (h.srcIp + (h.dstIp + (Le(2, h.srcPort) + (Le(2, h.dstPort)
    + ([h.protocol] + ([h.hasTcpAo] + ([h.tcpFlags] + ([h.l3Offset] + ([h.l4Offset] + rest)))))))))
  }

  function NetThen(n: Net, rest: Bytes): Bytes {
    Le(4, n.tcpSeq) + (Le(4, n.tcpAck) + ([n.icmpType] + ([n.icmpCode] + (Le(4, n.deltaTime) + (Le(2, n.vlanId)
    + ([n.ipTtl] + ([n.ipTos] + (Le(2, n.tcpWin) + (Le(2, n.ipId) + ([n.isIpv6] + ([n.isFragment] + rest)))))))))))
  }

  function OptionsThen(o: Options, rest: Bytes): Bytes {
    Le(2, o.tcpMss) + ([o.tcpWs] + ([o.ipv6ExtCount] + (Le(4, o.ipv6Flow) + (Le(4, o.wireLen) + (Le(4, o.tcpTsVal)
    + (Le(4, o.tcpTsEcr) + ([o.tcpSack] + (Le(4, o.tcpRtt) + (Le(4, o.vxlanVni) + (Le(4, o.entropyScaled)
    + rest))))))))))
  }

  function ServicesThen(s: Services, rest: Bytes): Bytes {
    [s.ntpStratum] + ([s.ntpMode] + ([s.igmpType] + (s.igmpGroup + (s.lldpChassis + (s.lldpPort
    + (Le32s(s.tcpSackEdges) + ([s.topByte] + ([s.topByteFreq] + rest))))))))
  }

  function TailThen(t: Tail, rest: Bytes): Bytes {
    t.pad + (Le(2, t.payloadLen) + (t.srcMac + (t.dstMac + (t.dnsQuery + (t.tlsSni + (t.extraInfo
    + (t.appLayerInfo + (t.payload + (t.finalPad + rest)))))))))
  }

  function InfoThen(p: PacketInfo, rest: Bytes): Bytes {
    HeadThen(p.head, NetThen(p.net, OptionsThen(p.options, ServicesThen(p.services, TailThen(p.tail, rest)))))
  }

  function Encode(p: PacketInfo): Bytes {
    InfoThen(p, [])
  }

  lemma HeadSplits(h: Head, rest: Bytes)
    ensures HeadThen(h, rest) == HeadThen(h, []) + rest
    ensures SizedHead(h) ==> |HeadThen(h, [])| == 49
  {
  }

  lemma NetSplits(n: Net, rest: Bytes)
    ensures NetThen(n, rest) == NetThen(n, []) + rest
    ensures |NetThen(n, [])| == 24
  {
  }

  lemma OptionsSplits(o: Options, rest: Bytes)
    ensures OptionsThen(o, rest) == OptionsThen(o, []) + rest
    ensures |OptionsThen(o, [])| == 33
  {
  }

  lemma ServicesSplits(s: Services, rest: Bytes)
    ensures ServicesThen(s, rest) == ServicesThen(s, []) + rest
    ensures SizedServices(s) ==> |ServicesThen(s, [])| == 105
  {
  }

  lemma TailSplits(t: Tail, rest: Bytes)
    ensures TailThen(t, rest) == TailThen(t, []) + rest
    ensures SizedTail(t) ==> |TailThen(t, [])| == 813
  {
  }

  lemma InfoSplits(p: PacketInfo, rest: Bytes)
    requires Sized(p)
    ensures InfoThen(p, rest) == Encode(p) + rest && |Encode(p)| == STRUCT_SIZE
  {
    InfoInParts(p, rest);
    InfoInParts(p, []);
    Nested(HeadThen(p.head, []), NetThen(p.net, []), OptionsThen(p.options, []), ServicesThen(p.services, []),
           TailThen(p.tail, []), rest);
  }

  lemma Nested(a: Bytes, b: Bytes, c: Bytes, d: Bytes, e: Bytes, rest: Bytes)
    ensures a + (b + (c + (d + (e + rest)))) == a + (b + (c + (d + (e + [])))) + rest
  {
    Associates(d, e, rest);
    Associates(c, d + e, rest);
    Associates(b, c + (d + e), rest);
    Associates(a, b + (c + (d + e)), rest);
    assert e + [] == e;
  }

  lemma InfoInParts(p: PacketInfo, rest: Bytes)
    requires Sized(p)
    ensures InfoThen(p, rest)
            == HeadThen(p.head, []) + (NetThen(p.net, []) + (OptionsThen(p.options, [])
               + (ServicesThen(p.services, []) + (TailThen(p.tail, []) + rest))))
    ensures |InfoThen(p, rest)| == STRUCT_SIZE + |rest|
  {
    TailSplits(p.tail, rest);
    var tail := TailThen(p.tail, rest);
    ServicesSplits(p.services, tail);
    var services := ServicesThen(p.services, tail);
    OptionsSplits(p.options, services);
    var options := OptionsThen(p.options, services);
    NetSplits(p.net, options);
    HeadSplits(p.head, NetThen(p.net, options));
  }

  // ----- Two records that begin the same bytes are the same record -----

  lemma HeadUnique(h: Head, x: Bytes, g: Head, y: Bytes)
    requires SizedHead(h) && SizedHead(g) && HeadThen(h, x) == HeadThen(g, y)
    ensures h == g && x == y
  {
    var h1 := Le(2, h.dstPort) + ([h.protocol] + ([h.hasTcpAo] + ([h.tcpFlags] + ([h.l3Offset] + ([h.l4Offset] + x)))));
    var g1 := Le(2, g.dstPort) + ([g.protocol] + ([g.hasTcpAo] + ([g.tcpFlags] + ([g.l3Offset] + ([g.l4Offset] + y)))));
    var h2 := [h.l3Offset] + ([h.l4Offset] + x);
    var g2 := [g.l3Offset] + ([g.l4Offset] + y);
    Peel4(Le(8, h.timestamp), h.srcIp, h.dstIp, Le(2, h.srcPort), h1,
          Le(8, g.timestamp), g.srcIp, g.dstIp, Le(2, g.srcPort), g1);
    Peel4(Le(2, h.dstPort), [h.protocol], [h.hasTcpAo], [h.tcpFlags], h2,
          Le(2, g.dstPort), [g.protocol], [g.hasTcpAo], [g.tcpFlags], g2);
    Peel2([h.l3Offset], [h.l4Offset], x,
          [g.l3Offset], [g.l4Offset], y);
    Widths();
    LeInjective(8, h.timestamp, g.timestamp);
    LeInjective(2, h.srcPort, g.srcPort);
    LeInjective(2, h.dstPort, g.dstPort);
  }

  lemma NetUnique(n: Net, x: Bytes, m: Net, y: Bytes)
    requires NetThen(n, x) == NetThen(m, y)
    ensures n == m && x == y
  {
    var n1 := Le(4, n.deltaTime) + (Le(2, n.vlanId) + (
      [n.ipTtl] + ([n.ipTos] + (Le(2, n.tcpWin) + (Le(2, n.ipId) + ([n.isIpv6] + ([n.isFragment] + x)))))));
    var m1 := Le(4, m.deltaTime) + (Le(2, m.vlanId) + (
      [m.ipTtl] + ([m.ipTos] + (Le(2, m.tcpWin) + (Le(2, m.ipId) + ([m.isIpv6] + ([m.isFragment] + y)))))));
    var n2 := Le(2, n.tcpWin) + (Le(2, n.ipId) + ([n.isIpv6] + ([n.isFragment] + x)));
    var m2 := Le(2, m.tcpWin) + (Le(2, m.ipId) + ([m.isIpv6] + ([m.isFragment] + y)));
    Peel4(Le(4, n.tcpSeq), Le(4, n.tcpAck), [n.icmpType], [n.icmpCode], n1,
          Le(4, m.tcpSeq), Le(4, m.tcpAck), [m.icmpType], [m.icmpCode], m1);
    Peel4(Le(4, n.deltaTime), Le(2, n.vlanId), [n.ipTtl], [n.ipTos], n2,
          Le(4, m.deltaTime), Le(2, m.vlanId), [m.ipTtl], [m.ipTos], m2);
    Peel4(Le(2, n.tcpWin), Le(2, n.ipId), [n.isIpv6], [n.isFragment], x,
          Le(2, m.tcpWin), Le(2, m.ipId), [m.isIpv6], [m.isFragment], y);
    Widths();
    LeInjective(4, n.tcpSeq, m.tcpSeq);
    LeInjective(4, n.tcpAck, m.tcpAck);
    LeInjective(4, n.deltaTime, m.deltaTime);
    LeInjective(2, n.vlanId, m.vlanId);
    LeInjective(2, n.tcpWin, m.tcpWin);
    LeInjective(2, n.ipId, m.ipId);
  }

  lemma OptionsUnique(o: Options, x: Bytes, p: Options, y: Bytes)
    requires OptionsThen(o, x) == OptionsThen(p, y)
    ensures o == p && x == y
  {
    var o1 := Le(4, o.wireLen) + (Le(4, o.tcpTsVal) + (
      Le(4, o.tcpTsEcr) + ([o.tcpSack] + (Le(4, o.tcpRtt) + (Le(4, o.vxlanVni) + (Le(4, o.entropyScaled) + x))))));
    var p1 := Le(4, p.wireLen) + (Le(4, p.tcpTsVal) + (
      Le(4, p.tcpTsEcr) + ([p.tcpSack] + (Le(4, p.tcpRtt) + (Le(4, p.vxlanVni) + (Le(4, p.entropyScaled) + y))))));
    var o2 := Le(4, o.tcpRtt) + (Le(4, o.vxlanVni) + (Le(4, o.entropyScaled) + x));
    var p2 := Le(4, p.tcpRtt) + (Le(4, p.vxlanVni) + (Le(4, p.entropyScaled) + y));
    Peel4(Le(2, o.tcpMss), [o.tcpWs], [o.ipv6ExtCount], Le(4, o.ipv6Flow), o1,
          Le(2, p.tcpMss), [p.tcpWs], [p.ipv6ExtCount], Le(4, p.ipv6Flow), p1);
    Peel4(Le(4, o.wireLen), Le(4, o.tcpTsVal), Le(4, o.tcpTsEcr), [o.tcpSack], o2,
          Le(4, p.wireLen), Le(4, p.tcpTsVal), Le(4, p.tcpTsEcr), [p.tcpSack], p2);
    Peel3(Le(4, o.tcpRtt), Le(4, o.vxlanVni), Le(4, o.entropyScaled), x,
          Le(4, p.tcpRtt), Le(4, p.vxlanVni), Le(4, p.entropyScaled), y);
    Widths();
    LeInjective(2, o.tcpMss, p.tcpMss);
    LeInjective(4, o.ipv6Flow, p.ipv6Flow);
    LeInjective(4, o.wireLen, p.wireLen);
    LeInjective(4, o.tcpTsVal, p.tcpTsVal);
    LeInjective(4, o.tcpTsEcr, p.tcpTsEcr);
    LeInjective(4, o.tcpRtt, p.tcpRtt);
    LeInjective(4, o.vxlanVni, p.vxlanVni);
    LeInjective(4, o.entropyScaled, p.entropyScaled);
  }

  lemma ServicesUnique(s: Services, x: Bytes, t: Services, y: Bytes)
    requires SizedServices(s) && SizedServices(t) && ServicesThen(s, x) == ServicesThen(t, y)
    ensures s == t && x == y
  {
    var s1 := s.lldpChassis + (s.lldpPort + (Le32s(s.tcpSackEdges) + ([s.topByte] + ([s.topByteFreq] + x))));
    var t1 := t.lldpChassis + (t.lldpPort + (Le32s(t.tcpSackEdges) + ([t.topByte] + ([t.topByteFreq] + y))));
    var s2 := [s.topByteFreq] + x;
    var t2 := [t.topByteFreq] + y;
    Peel4([s.ntpStratum], [s.ntpMode], [s.igmpType], s.igmpGroup, s1,
          [t.ntpStratum], [t.ntpMode], [t.igmpType], t.igmpGroup, t1);
    Peel4(s.lldpChassis, s.lldpPort, Le32s(s.tcpSackEdges), [s.topByte], s2,
          t.lldpChassis, t.lldpPort, Le32s(t.tcpSackEdges), [t.topByte], t2);
    Peel([s.topByteFreq], x,
          [t.topByteFreq], y);
    Le32sInjective(s.tcpSackEdges, t.tcpSackEdges);
  }

  lemma TailUnique(t: Tail, x: Bytes, u: Tail, y: Bytes)
    requires SizedTail(t) && SizedTail(u) && TailThen(t, x) == TailThen(u, y)
    ensures t == u && x == y
  {
    var t1 := t.dnsQuery + (t.tlsSni + (t.extraInfo + (t.appLayerInfo + (t.payload + (t.finalPad + x)))));
    var u1 := u.dnsQuery + (u.tlsSni + (u.extraInfo + (u.appLayerInfo + (u.payload + (u.finalPad + y)))));
    var t2 := t.payload + (t.finalPad + x);
    var u2 := u.payload + (u.finalPad + y);
    Peel4(t.pad, Le(2, t.payloadLen), t.srcMac, t.dstMac, t1,
          u.pad, Le(2, u.payloadLen), u.srcMac, u.dstMac, u1);
    Peel4(t.dnsQuery, t.tlsSni, t.extraInfo, t.appLayerInfo, t2,
          u.dnsQuery, u.tlsSni, u.extraInfo, u.appLayerInfo, u2);
    Peel2(t.payload, t.finalPad, x,
          u.payload, u.finalPad, y);
    Widths();
    LeInjective(2, t.payloadLen, u.payloadLen);
  }

  lemma InfoUnique(p: PacketInfo, x: Bytes, q: PacketInfo, y: Bytes)
    requires Sized(p) && Sized(q) && InfoThen(p, x) == InfoThen(q, y)
    ensures p == q && x == y
  {
    var tailP, tailQ := TailThen(p.tail, x), TailThen(q.tail, y);
    var servicesP, servicesQ := ServicesThen(p.services, tailP), ServicesThen(q.services, tailQ);
    var optionsP, optionsQ := OptionsThen(p.options, servicesP), OptionsThen(q.options, servicesQ);
    HeadUnique(p.head, NetThen(p.net, optionsP), q.head, NetThen(q.net, optionsQ));
    NetUnique(p.net, optionsP, q.net, optionsQ);
    OptionsUnique(p.options, servicesP, q.options, servicesQ);
    ServicesUnique(p.services, tailP, q.services, tailQ);
    TailUnique(p.tail, x, q.tail, y);
  }
}

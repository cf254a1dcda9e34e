/** The fixed headers of IPv4 (section 3.1 of RFC 791) and IPv6 (section 3 of RFC 8200). */
module IpHeader {
  import opened NetworkBytes
  import opened Words

  datatype IpInfo = IpInfo(
    headerLen: nat, srcIp: Bytes, dstIp: Bytes, protocol: Byte, ttl: Byte, tos: Byte, id: U16,
    isIpv6: bool, isFragment: bool)

  const TWELVE_ZEROS: Bytes := [0, 0, 0, 0, 0, 0, 0, 0, 0, 0, 0, 0]

  /** parse_ip_layer, with the IP header at the offset; p is the capture buffer, which may hold fewer bytes than caplen
      says. */
  function ParseIpLayer(p: Bytes, caplen: nat, at: nat): (r: Checked<Option<IpInfo>>)
    ensures r.Read? && r.value.Some? ==>
      var h := r.value.value.headerLen;
      20 <= h <= caplen - at && h % 4 == 0 && at + 20 <= |p| && (r.value.value.isIpv6 ==> h == 40 && at + 40 <= |p|)
  {
    if caplen < at + 1 then Read(None)
    else
      var first :- ByteAt(p, at);
      if first / 0x10 == 4 then ParseIpv4(p, caplen, at)
      else if first / 0x10 == 6 then ParseIpv6(p, caplen, at)
      else Read(None)
  }

  function ParseIpv4(p: Bytes, caplen: nat, at: nat): (r: Checked<Option<IpInfo>>)
    ensures r.Read? && r.value.Some? ==>
      var h := r.value.value.headerLen;
      20 <= h <= caplen - at && h % 4 == 0 && at + 20 <= |p| && !r.value.value.isIpv6
  {
    if caplen < at + 20 then Read(None)
    else
      var first :- ByteAt(p, at);
      var headerLen := 4 * Low4(first);
      if headerLen < 20 || caplen < at + headerLen then Read(None)
      else
        var src :- BytesAt(p, at + 12, 4);
        var dst :- BytesAt(p, at + 16, 4);
        var protocol :- ByteAt(p, at + 9);
        var ttl :- ByteAt(p, at + 8);
        var tos :- ByteAt(p, at + 1);
        var id :- U16At(p, at + 4);
        var off :- U16At(p, at + 6);
        Read(Some(IpInfo(headerLen, TWELVE_ZEROS + src, TWELVE_ZEROS + dst, protocol, ttl, tos, id, false,
                         BitAnd(off, 0x3fff) != 0)))
  }

  function Low4(b: int): int {
    b % 0x10
  }

  function ParseIpv6(p: Bytes, caplen: nat, at: nat): (r: Checked<Option<IpInfo>>)
    ensures r.Read? && r.value.Some? ==>
      r.value.value.headerLen == 40 <= caplen - at && at + 40 <= |p| && r.value.value.isIpv6
  {
    if caplen < at + 40 then Read(None)
    else
      var src :- BytesAt(p, at + 8, 16);
      var dst :- BytesAt(p, at + 24, 16);
      var next :- ByteAt(p, at + 6);
      var hopLimit :- ByteAt(p, at + 7);
      var flow :- U32At(p, at);
      Read(Some(IpInfo(40, src, dst, next, hopLimit, (flow / 0x10_0000) % 0x100, 0, true, false)))
  }

  /** The parser leaves the buffer exactly if the version byte is beyond it, or the fixed part of a header that it
      accepts is not all in it. */
  lemma ParseBeyondMeaning(p: Bytes, caplen: nat, at: nat)
    ensures ParseIpLayer(p, caplen, at) == Beyond <==>
      && caplen > at
      && (at < |p| ==>
            || (p[at] / 0x10 == 4 && Low4(p[at]) >= 5 && at + 4 * Low4(p[at]) <= caplen && at + 20 > |p|)
            || (p[at] / 0x10 == 6 && at + 40 <= caplen && at + 40 > |p|))
  {
  }

  // ----- The headers as a host writes them -----

  // The flags and the fragment offset share a field; its highest bits are reserved and don't-fragment.
  datatype Ipv4Header = Ipv4Header(
    words: nat, tos: Byte, totalLen: U16, id: U16, flagsAndOffset: U16, ttl: Byte, protocol: Byte, checksum: U16,
    src: Bytes, dst: Bytes, options: Bytes)

  datatype Ipv6Header = Ipv6Header(
    trafficClass: Byte, flowLabel: nat, payloadLen: U16, next: Byte, hopLimit: Byte, src: Bytes, dst: Bytes)

  predicate Good4(h: Ipv4Header) {
    5 <= h.words < 0x10 && |h.src| == |h.dst| == 4 && |h.options| == 4 * h.words - 20
  }

  predicate Good6(h: Ipv6Header) {
    h.flowLabel < 0x10_0000 && |h.src| == |h.dst| == 16
  }

  function Encode4(h: Ipv4Header): (b: Bytes)
    requires Good4(h)
    ensures |b| == 4 * h.words
  {
    Fixed4(h) + (h.src + (h.dst + h.options))
  }

  function Fixed4(h: Ipv4Header): (b: Bytes)
    requires Good4(h)
    ensures |b| == 12
  {
    [0x40 + h.words, h.tos, h.totalLen / 0x100, h.totalLen % 0x100, h.id / 0x100, h.id % 0x100,
     h.flagsAndOffset / 0x100, h.flagsAndOffset % 0x100, h.ttl, h.protocol, h.checksum / 0x100, h.checksum % 0x100]
  }

  function Encode6(h: Ipv6Header): (b: Bytes)
    requires Good6(h)
    ensures |b| == 40
  {
    Fixed6(h) + (h.src + h.dst)
  }

  function Fixed6(h: Ipv6Header): (b: Bytes)
    requires Good6(h)
    ensures |b| == 8
  {
    [0x60 + h.trafficClass / 0x10, 0x10 * (h.trafficClass % 0x10) + h.flowLabel / 0x1_0000,
     h.flowLabel / 0x100 % 0x100, h.flowLabel % 0x100, h.payloadLen / 0x100, h.payloadLen % 0x100, h.next, h.hopLimit]
  }

  lemma FourteenBits()
    ensures Pow2(14) == 0x4000
  {
    Pow2Values();
    assert Pow2(14) == 2 * Pow2(13) && Pow2(13) == 2 * Pow2(12) && Pow2(12) == 2 * Pow2(11) && Pow2(11) == 2 * Pow2(10);
  }

  /** More fragments, or an offset: what makes a fragment. */
  predicate IsFragment(h: Ipv4Header) {
    h.flagsAndOffset % 0x4000 != 0
  }

  /** An IPv4 address in sixteen bytes: it is in the last four, and the others are 0. */
  function Mapped(a: Bytes): (b: Bytes)
    requires |a| == 4
    ensures |b| == 16
  {
    [0, 0, 0, 0, 0, 0, 0, 0, 0, 0, 0, 0, a[0], a[1], a[2], a[3]]
  }

  lemma Fixed4At(p: Bytes, at: nat, h: Ipv4Header)
    requires Good4(h) && At(p, at, Fixed4(h))
    ensures p[at] / 0x10 == 4 && p[at] % 0x10 == h.words && p[at + 1] == h.tos && Be16(p, at + 4) == h.id
    ensures Be16(p, at + 6) == h.flagsAndOffset && p[at + 8] == h.ttl && p[at + 9] == h.protocol
  {
    var b := Fixed4(h);
    assert b[0] == p[at] && b[1] == p[at + 1] && b[4] == p[at + 4] && b[5] == p[at + 5];
    assert b[6] == p[at + 6] && b[7] == p[at + 7] && b[8] == p[at + 8] && b[9] == p[at + 9];
  }

  /** Round trip: a captured IPv4 header gives its addresses, protocol, lifetime, service, id and length, and is a
      fragment exactly if more fragments follow or its offset is not zero. */
  lemma Ipv4RoundTrip(p: Bytes, caplen: nat, at: nat, h: Ipv4Header)
    requires Good4(h) && At(p, at, Encode4(h)) && at + 4 * h.words <= caplen
    ensures ParseIpLayer(p, caplen, at) == Read(Some(IpInfo(
      4 * h.words, Mapped(h.src), Mapped(h.dst), h.protocol, h.ttl, h.tos, h.id, false, IsFragment(h))))
  {
    assert TWELVE_ZEROS + h.src == Mapped(h.src) && TWELVE_ZEROS + h.dst == Mapped(h.dst);
    AtParts(p, at, Fixed4(h), h.src + (h.dst + h.options));
    AtParts(p, at + 12, h.src, h.dst + h.options);
    AtParts(p, at + 16, h.dst, h.options);
    AtSlice(p, at + 12, h.src);
    AtSlice(p, at + 16, h.dst);
    Fixed4At(p, at, h);
    FourteenBits();
    MaskIsMod(h.flagsAndOffset, 14);
  }

  lemma Fixed6At(p: Bytes, at: nat, h: Ipv6Header)
    requires Good6(h) && At(p, at, Fixed6(h))
    ensures p[at] / 0x10 == 6 && p[at + 6] == h.next && p[at + 7] == h.hopLimit
    ensures Be32(p, at) / 0x10_0000 % 0x100 == h.trafficClass && Be32(p, at) % 0x10_0000 == h.flowLabel
  {
    var b := Fixed6(h);
    assert b[0] == p[at] && b[1] == p[at + 1] && b[2] == p[at + 2] && b[3] == p[at + 3];
    assert b[6] == p[at + 6] && b[7] == p[at + 7];
    assert Be32(p, at) == 0x6000_0000 + 0x10_0000 * h.trafficClass + h.flowLabel;
  }

  /** Round trip: a captured IPv6 header gives its addresses, next header, hop limit and traffic class. */
  lemma Ipv6RoundTrip(p: Bytes, caplen: nat, at: nat, h: Ipv6Header)
    requires Good6(h) && At(p, at, Encode6(h)) && at + 40 <= caplen
    ensures ParseIpLayer(p, caplen, at) ==
      Read(Some(IpInfo(40, h.src, h.dst, h.next, h.hopLimit, h.trafficClass, 0, true, false)))
    ensures Be32(p, at) % 0x10_0000 == h.flowLabel
  {
    AtParts(p, at, Fixed6(h), h.src + h.dst);
    AtParts(p, at + 8, h.src, h.dst);
    AtSlice(p, at + 8, h.src);
    AtSlice(p, at + 24, h.dst);
    Fixed6At(p, at, h);
  }
}

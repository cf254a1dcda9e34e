/** Where the layers of a captured frame begin, and what is stored of them. */
module Layers {
  import opened EthernetTags
  import opened IpHeader
  import opened Ipv6Extensions
  import opened NetworkBytes
  import opened Words

  datatype Headers = Headers(eth: EthernetInfo, ip: IpInfo, chain: Chain)

  /** The headers of an IP packet, as the parsers find them one after the other. */
  function FindHeaders(p: Bytes, caplen: nat): (r: Checked<Option<Headers>>) {
    var ethOpt :- Ethernet(p, caplen);
    if ethOpt.None? then Read(None)
    else
      var eth := ethOpt.value;
      if eth.etherType != 0x0800 && eth.etherType != 0x86dd then Read(None)
      else
        var ipOpt :- ParseIpLayer(p, caplen, eth.headerLen);
        if ipOpt.None? then Read(None)
        else
          var ip := ipOpt.value;
          var chain :- ChainBehind(p, caplen, eth.headerLen, ip);
          Read(Some(Headers(eth, ip, chain)))
  }

  /** The walk over the extension headers behind an IPv6 header; behind an IPv4 header there is none. */
  function ChainBehind(p: Bytes, caplen: nat, l3: nat, ip: IpInfo): Checked<Chain> {
    var so := Chain(ip.protocol, 0, ip.isFragment);
    if ip.isIpv6 then WalkChain(p, caplen, l3 + 40, so) else Read(so)
  }

  /** Frames of other types have no such headers, and neither have those without an IP header. */
  lemma OnlyIpFrames(p: Bytes, caplen: nat)
    requires FindHeaders(p, caplen).Read?
    ensures
      var eth := Ethernet(p, caplen);
      && eth.Read?
      && (FindHeaders(p, caplen).value.Some? <==>
            && eth.value.Some? && (eth.value.value.etherType == 0x0800 || eth.value.value.etherType == 0x86dd)
            && ParseIpLayer(p, caplen, eth.value.value.headerLen).value.Some?)
  {
  }

  datatype Located = Located(l3Offset: Byte, l4Offset: Byte, vlanId: U16, protocol: Byte, extCount: nat,
                             isIpv6: bool, isFragment: bool)

  /** The fields say what the headers say. The IP offset always fits in a byte; the offset behind the IP header does
      exactly if it is below 256, as it is whenever no more bytes were captured than the buffer holds. */
  predicate Tells(f: Located, h: Headers, caplen: nat) {
    var l4 := h.eth.headerLen + h.ip.headerLen;
    && f.l3Offset == h.eth.headerLen && (f.l4Offset == l4 <==> l4 < 0x100)
    && ETHER_SIZE <= f.l3Offset < l4 <= caplen && f.l3Offset % 4 == 2 && l4 % 4 == 2
    && (caplen <= 256 ==> f.l4Offset == l4 <= 254)
    && f.vlanId == h.eth.vlanId && f.isIpv6 == h.ip.isIpv6
    && Chain(f.protocol, f.extCount, f.isFragment) == h.chain
  }

  /** A cast to uint8_t. */
  function Low(n: nat): (b: Byte)
    ensures b == n <==> n < 0x100
  {
    n % 0x100
  }

  /** The beginning of dissect_raw_packet for an IP packet. The buffer holds 256 bytes, whatever the capture length; the
      offsets are stored in bytes; Beyond stands for a read beyond the buffer. */
  method LocateLayers(packet: Bytes, caplen: nat) returns (r: Checked<Option<Located>>)
    requires |packet| == CAPTURE_SIZE
    ensures
      var h := FindHeaders(packet, caplen);
      && (r.Beyond? <==> h.Beyond?)
      && (r.Read? ==> (r.value.Some? <==> h.value.Some?))
      && (r.Read? && r.value.Some? ==> Tells(r.value.value, h.value.value, caplen))
  {
    var ethOpt :- ParseEthernetLayer(packet, caplen);
    if ethOpt.None? {
      return Read(None);
    }
    var eth := ethOpt.value;
    if eth.etherType != 0x0800 && eth.etherType != 0x86dd {
      return Read(None);
    }
    var ipOpt :- ParseIpLayer(packet, caplen, eth.headerLen);
    if ipOpt.None? {
      return Read(None);
    }
    var f :- Locate(packet, caplen, eth, ipOpt.value);
    return Read(Some(f));
  }

  method Locate(packet: Bytes, caplen: nat, eth: EthernetInfo, ip: IpInfo) returns (r: Checked<Located>)
    requires |packet| == CAPTURE_SIZE && ETHER_SIZE <= eth.headerLen && eth.headerLen % 4 == 2
    requires eth.headerLen + 20 <= |packet| && 20 <= ip.headerLen <= caplen - eth.headerLen && ip.headerLen % 4 == 0
    ensures
      var chain := ChainBehind(packet, caplen, eth.headerLen, ip);
      && (r.Beyond? <==> chain.Beyond?)
      && (r.Read? ==> Tells(r.value, Headers(eth, ip, chain.value), caplen))
  {
    var l3Offset, l4Offset := Low(eth.headerLen), Low(eth.headerLen + ip.headerLen);
    var chain :- LastProtocol(packet, caplen, l3Offset, ip);
    return Read(Store(eth, ip, chain, l3Offset, l4Offset, caplen));
  }

  method LastProtocol(packet: Bytes, caplen: nat, l3Offset: nat, ip: IpInfo) returns (r: Checked<Chain>)
    ensures r == ChainBehind(packet, caplen, l3Offset, ip)
  {
    r := Read(Chain(ip.protocol, 0, ip.isFragment));
    if ip.isIpv6 {
      r := SkipExtensions(packet, caplen, l3Offset + 40, ip.protocol, ip.isFragment);
    }
  }

  lemma WordsAdd(l3: nat, headerLen: nat)
    requires l3 % 4 == 2 && headerLen % 4 == 0
    ensures (l3 + headerLen) % 4 == 2
  {
  }

  function Store(eth: EthernetInfo, ip: IpInfo, chain: Chain, l3Offset: Byte, l4Offset: Byte, caplen: nat): (f: Located)
    requires ETHER_SIZE <= eth.headerLen <= CAPTURE_SIZE - 20 && eth.headerLen % 4 == 2
    requires 20 <= ip.headerLen <= caplen - eth.headerLen && ip.headerLen % 4 == 0
    requires l3Offset == Low(eth.headerLen) && l4Offset == Low(eth.headerLen + ip.headerLen)
    ensures Tells(f, Headers(eth, ip, chain), caplen)
  {
    WordsAdd(eth.headerLen, ip.headerLen);
    assert caplen <= CAPTURE_SIZE ==> eth.headerLen + ip.headerLen <= 254;
    Located(l3Offset, l4Offset, eth.vlanId, chain.next, chain.count, ip.isIpv6, chain.fragment)
  }

  // ----- Whole frames -----

  /** Addresses, the first ether type, the tags, and what the innermost of them announces. */
  function EncodeFrame(macs: Bytes, tags: seq<VlanTag>, inner: U16, packet: Bytes): Bytes
    requires GoodTags(tags)
  {
    macs + (PutBe16(TypeBefore(tags, inner)) + (EncodeTags(tags, inner) + packet))
  }

  lemma {:induction false} TagsSize(tags: seq<VlanTag>, inner: U16)
    requires GoodTags(tags)
    ensures |EncodeTags(tags, inner)| == 4 * |tags|
    decreases |tags|
  {
    if tags != [] {
      TagsSize(tags[1..], inner);
    }
  }

  /** The innermost VLAN id, or 0 without tags. */
  function InnerId(tags: seq<VlanTag>): nat {
    if tags == [] then 0 else tags[|tags| - 1].vid
  }

  lemma FrameParts(p: Bytes, caplen: nat, macs: Bytes, tags: seq<VlanTag>, inner: U16, packet: Bytes)
    requires |macs| == 12 && GoodTags(tags) && InnerType(inner)
    requires At(p, 0, EncodeFrame(macs, tags, inner, packet)) && caplen >= ETHER_SIZE + 4 * |tags|
    ensures At(p, ETHER_SIZE + 4 * |tags|, packet)
    ensures Ethernet(p, caplen) == Read(Some(EthernetInfo(ETHER_SIZE + 4 * |tags|, inner, InnerId(tags))))
  {
    var first := TypeBefore(tags, inner);
    TagsSize(tags, inner);
    AtParts(p, 0, macs, PutBe16(first) + (EncodeTags(tags, inner) + packet));
    AtParts(p, 12, PutBe16(first), EncodeTags(tags, inner) + packet);
    AtBe16(p, 12, first);
    AtParts(p, ETHER_SIZE, EncodeTags(tags, inner), packet);
    TagStack(p, caplen, tags, inner);
    assert Min(|tags|, (caplen - ETHER_SIZE) / 4) == |tags|;
    assert tags[|tags|..] == [];
  }

  lemma HeadersFound(p: Bytes, caplen: nat, eth: EthernetInfo, ip: IpInfo, chain: Chain)
    requires Ethernet(p, caplen) == Read(Some(eth)) && (eth.etherType == 0x0800 || eth.etherType == 0x86dd)
    requires ParseIpLayer(p, caplen, eth.headerLen) == Read(Some(ip))
    requires ChainBehind(p, caplen, eth.headerLen, ip) == Read(chain)
    ensures FindHeaders(p, caplen) == Read(Some(Headers(eth, ip, chain)))
  {
  }

  lemma WholeChain(p: Bytes, caplen: nat, at: nat, hs: seq<ExtHeader>, upper: Byte)
    requires GoodHeaders(hs) && |hs| <= MAX_EXTENSIONS && UpperLayer(upper)
    requires At(p, at, EncodeChain(hs, upper)) && at + |EncodeChain(hs, upper)| <= caplen
    ensures WalkChain(p, caplen, at, Chain(KindBefore(hs, upper), 0, false)) ==
      Read(Chain(upper, |hs|, HasFragment(hs)))
  {
    ChainRoundTrip(p, caplen, at, hs, upper);
    FragmentOccurs(hs);
  }

  lemma Ipv6Behind(p: Bytes, caplen: nat, at: nat, h: Ipv6Header, hs: seq<ExtHeader>, upper: Byte)
    requires Good6(h) && GoodHeaders(hs) && |hs| <= MAX_EXTENSIONS
    requires UpperLayer(upper) && h.next == KindBefore(hs, upper)
    requires At(p, at, Encode6(h) + EncodeChain(hs, upper)) && at + 40 + |EncodeChain(hs, upper)| <= caplen
    ensures
      var ip := IpInfo(40, h.src, h.dst, h.next, h.hopLimit, h.trafficClass, 0, true, false);
      && ParseIpLayer(p, caplen, at) == Read(Some(ip))
      && ChainBehind(p, caplen, at, ip) == Read(Chain(upper, |hs|, HasFragment(hs)))
  {
    AtParts(p, at, Encode6(h), EncodeChain(hs, upper));
    Ipv6RoundTrip(p, caplen, at, h);
    WholeChain(p, caplen, at + 40, hs, upper);
  }

  /** An IPv6 packet behind any tags, with up to ten extension headers, all captured: the IP header begins behind
      14 + 4k bytes, the VLAN id is the innermost one, and the protocol and count are those of the chain. */
  lemma Ipv6Frame(p: Bytes, caplen: nat, macs: Bytes, tags: seq<VlanTag>, h: Ipv6Header, hs: seq<ExtHeader>, upper: Byte)
    requires |macs| == 12 && GoodTags(tags) && Good6(h) && GoodHeaders(hs) && |hs| <= 10
    requires UpperLayer(upper) && h.next == KindBefore(hs, upper)
    requires At(p, 0, EncodeFrame(macs, tags, 0x86dd, Encode6(h) + EncodeChain(hs, upper)))
    requires caplen >= 14 + 4 * |tags| + 40 + |EncodeChain(hs, upper)|
    ensures FindHeaders(p, caplen) == Read(Some(Headers(
      EthernetInfo(14 + 4 * |tags|, 0x86dd, InnerId(tags)),
      IpInfo(40, h.src, h.dst, h.next, h.hopLimit, h.trafficClass, 0, true, false),
      Chain(upper, |hs|, HasFragment(hs)))))
  {
    var eth := EthernetInfo(ETHER_SIZE + 4 * |tags|, 0x86dd, InnerId(tags));
    var ip := IpInfo(40, h.src, h.dst, h.next, h.hopLimit, h.trafficClass, 0, true, false);
    FrameParts(p, caplen, macs, tags, 0x86dd, Encode6(h) + EncodeChain(hs, upper));
    Ipv6Behind(p, caplen, eth.headerLen, h, hs, upper);
    HeadersFound(p, caplen, eth, ip, Chain(upper, |hs|, HasFragment(hs)));
  }

  /** An IPv4 packet behind any tags, its header captured. */
  lemma Ipv4Frame(p: Bytes, caplen: nat, macs: Bytes, tags: seq<VlanTag>, h: Ipv4Header, payload: Bytes)
    requires |macs| == 12 && GoodTags(tags) && Good4(h)
    requires At(p, 0, EncodeFrame(macs, tags, 0x0800, Encode4(h) + payload))
    requires caplen >= 14 + 4 * |tags| + 4 * h.words
    ensures FindHeaders(p, caplen) == Read(Some(Headers(
      EthernetInfo(14 + 4 * |tags|, 0x0800, InnerId(tags)),
      IpInfo(4 * h.words, Mapped(h.src), Mapped(h.dst), h.protocol, h.ttl, h.tos, h.id, false,
             IsFragment(h)),
      Chain(h.protocol, 0, IsFragment(h)))))
  {
    var eth := EthernetInfo(ETHER_SIZE + 4 * |tags|, 0x0800, InnerId(tags));
    FrameParts(p, caplen, macs, tags, 0x0800, Encode4(h) + payload);
    AtParts(p, eth.headerLen, Encode4(h), payload);
    Ipv4RoundTrip(p, caplen, eth.headerLen, h);
    var ip := ParseIpLayer(p, caplen, eth.headerLen).value.value;
    HeadersFound(p, caplen, eth, ip, Chain(h.protocol, 0, IsFragment(h)));
  }

  /** A frame that the capture delivers in full, and that leads beyond the buffer: an IPv6 packet whose hop-by-hop
      header claims the largest size and announces a fragment header. */
  lemma FrameLeadsBeyond(p: Bytes)
    requires |p| == 256 && Be16(p, 12) == 0x86dd && p[14] == 0x60 && p[20] == 0 && p[54] == 44 && p[55] == 255
    ensures FindHeaders(p, 256) == Beyond
  {
    assert Ethernet(p, CAPTURE_SIZE) == Read(Some(EthernetInfo(14, 0x86dd, 0)));
    var ip := ParseIpLayer(p, CAPTURE_SIZE, 14);
    assert ip.Read? && ip.value.Some? && ip.value.value.isIpv6 && ip.value.value.protocol == 0;
  }

  /** With a capture length beyond the buffer, the offset behind the IP header can be lost: 55 tags, then an IPv4 header
      with options. */
  lemma OffsetCanBeLost(p: Bytes)
    requires |p| == CAPTURE_SIZE && (forall i :: 3 <= i < 58 ==> TagWord(p, i))
    requires Be16(p, 232) == 0x0800 && p[234] == 0x4f
    ensures
      var h := FindHeaders(p, 300);
      h.Read? && h.value.Some? && h.value.value.eth.headerLen + h.value.value.ip.headerLen == 294
  {
    var info := EthernetInfo(ETHER_SIZE, Be16(p, 12), 0);
    assert !TagWord(p, 58);
    WalkUpTo(p, 300, info, 58);
    var eth := Ethernet(p, 300);
    assert eth.value.value.headerLen == 234 && eth.value.value.etherType == 0x0800;
    assert ParseIpLayer(p, 300, 234) == ParseIpv4(p, 300, 234);
  }

  /** No frame of up to 256 bytes leads the parsers beyond the buffer before the extension headers. */
  lemma ShortFramesStayInside(p: Bytes, caplen: nat)
    requires caplen <= |p| == 256
    ensures Ethernet(p, caplen).Read?
    ensures
      var eth := Ethernet(p, caplen).value;
      eth.Some? ==> ParseIpLayer(p, caplen, eth.value.headerLen).Read?
  {
    EthernetBeyondMeaning(p, caplen);
    var eth := Ethernet(p, caplen).value;
    if eth.Some? {
      ParseBeyondMeaning(p, caplen, eth.value.headerLen);
    }
  }
}

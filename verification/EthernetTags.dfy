/** The Ethernet header and the tags behind it (clause 9 of IEEE 802.1Q). */
module EthernetTags {
  import opened NetworkBytes
  import opened Words

  // What the capture buffer holds of a frame, however long the frame was.
  const CAPTURE_SIZE: nat := 256
  const ETHER_SIZE: nat := 14

  datatype EthernetInfo = EthernetInfo(headerLen: nat, etherType: U16, vlanId: U16)

  predicate IsTag(etherType: U16) {
    etherType == 0x8100 || etherType == 0x88a8
  }

  /** The specification of the walk over the tags. The capture length may exceed the bytes in the buffer p. */
  function WalkTags(p: Bytes, caplen: nat, info: EthernetInfo): (r: Checked<EthernetInfo>)
    requires info.headerLen <= caplen && info.headerLen % 4 == 2
    ensures r.Read? ==> info.headerLen <= r.value.headerLen <= caplen && r.value.headerLen % 4 == 2
    ensures r.Read? && info.headerLen <= |p| ==> r.value.headerLen <= |p|
    decreases caplen - info.headerLen
  {
    if IsTag(info.etherType) && caplen >= info.headerLen + 4 then
      var id :- U16At(p, info.headerLen);
      var etherType :- U16At(p, info.headerLen + 2);
      WalkTags(p, caplen, EthernetInfo(info.headerLen + 4, etherType, BitAnd(id, 0xfff)))
    else Read(info)
  }

  function Ethernet(p: Bytes, caplen: nat): (r: Checked<Option<EthernetInfo>>)
    ensures r.Read? && r.value.Some? ==>
      ETHER_SIZE <= r.value.value.headerLen <= Min(caplen, |p|) && r.value.value.headerLen % 4 == 2
  {
    if caplen < ETHER_SIZE then Read(None)
    else
      var etherType :- U16At(p, 12);
      var info :- WalkTags(p, caplen, EthernetInfo(ETHER_SIZE, etherType, 0));
      Read(Some(info))
  }

  /** parse_ethernet_layer; Beyond stands for a read beyond the buffer. */
  method ParseEthernetLayer(packet: Bytes, caplen: nat) returns (r: Checked<Option<EthernetInfo>>)
    ensures r == Ethernet(packet, caplen)
  {
    if caplen < ETHER_SIZE {
      return Read(None);
    }
    var etype :- U16At(packet, 12);
    var hlen := ETHER_SIZE;
    var vId: U16 := 0;
    ghost var start := EthernetInfo(ETHER_SIZE, etype, 0);
    while (etype == 0x8100 || etype == 0x88a8) && caplen >= hlen + 4
      invariant hlen <= caplen && hlen % 4 == 2
      invariant WalkTags(packet, caplen, start) == WalkTags(packet, caplen, EthernetInfo(hlen, etype, vId))
      decreases caplen - hlen
    {
      var id :- U16At(packet, hlen);
      vId := BitAnd(id, 0xfff);
      etype :- U16At(packet, hlen + 2);
      hlen := hlen + 4;
    }
    return Read(Some(EthernetInfo(hlen, etype, vId)));
  }

  // A tag: its type, then four bits of priority and twelve of VLAN id.
  datatype VlanTag = VlanTag(tpid: U16, priority: nat, vid: nat)

  predicate GoodTags(tags: seq<VlanTag>) {
    forall i :: 0 <= i < |tags| ==>
      && (tags[i].tpid == 0x8100 || tags[i].tpid == 0x88a8) && tags[i].priority < 0x10 && tags[i].vid < 0x1000
  }

  /** An ether type that is none of a tag. */
  predicate InnerType(etherType: U16) {
    etherType != 0x8100 && etherType != 0x88a8
  }

  /** The ether type in front of these tags. */
  function TypeBefore(tags: seq<VlanTag>, inner: U16): U16 {
    if tags == [] then inner else tags[0].tpid
  }

  /** From behind the first ether type on: each tag's id, then the next ether type. */
  function EncodeTags(tags: seq<VlanTag>, inner: U16): Bytes
    requires GoodTags(tags)
    decreases |tags|
  {
    if tags == [] then []
    else
      PutBe16(0x1000 * tags[0].priority + tags[0].vid)
      + (PutBe16(TypeBefore(tags[1..], inner)) + EncodeTags(tags[1..], inner))
  }

  lemma TwelveBits()
    ensures Pow2(12) == 0x1000
  {
    Pow2Values();
    assert Pow2(12) == 2 * Pow2(11) && Pow2(11) == 2 * Pow2(10);
  }

  lemma VlanIdOf(priority: nat, vid: nat)
    requires priority < 0x10 && vid < 0x1000
    ensures BitAnd(0x1000 * priority + vid, 0xfff) == vid
  {
    var id := 0x1000 * priority + vid;
    TwelveBits();
    MaskIsMod(id, 12);
    DivModUnique(id, priority, vid, 0x1000);
  }

  /** What the walk has found after the first j of these tags. */
  function AfterTags(at: nat, outer: U16, tags: seq<VlanTag>, inner: U16, j: nat): EthernetInfo
    requires j <= |tags| && GoodTags(tags)
  {
    EthernetInfo(at + 4 * j, TypeBefore(tags[j..], inner), if j == 0 then outer else tags[j - 1].vid)
  }

  lemma TagAt(p: Bytes, at: nat, tags: seq<VlanTag>, inner: U16)
    requires GoodTags(tags) && tags != [] && At(p, at, EncodeTags(tags, inner))
    ensures BitAnd(Be16(p, at), 0xfff) == tags[0].vid && Be16(p, at + 2) == TypeBefore(tags[1..], inner)
    ensures At(p, at + 4, EncodeTags(tags[1..], inner))
  {
    var id := 0x1000 * tags[0].priority + tags[0].vid;
    var next, rest := TypeBefore(tags[1..], inner), EncodeTags(tags[1..], inner);
    AtParts(p, at, PutBe16(id), PutBe16(next) + rest);
    AtParts(p, at + 2, PutBe16(next), rest);
    AtBe16(p, at, id);
    AtBe16(p, at + 2, next);
    VlanIdOf(tags[0].priority, tags[0].vid);
  }

  /** The tags' ids and types are in the bytes from position at on. */
  predicate LaidTags(p: Bytes, at: nat, tags: seq<VlanTag>, inner: U16)
    decreases |tags|
  {
    tags != [] ==>
      && at + 4 <= |p| && BitAnd(Be16(p, at), 0xfff) == tags[0].vid && Be16(p, at + 2) == TypeBefore(tags[1..], inner)
      && LaidTags(p, at + 4, tags[1..], inner)
  }

  lemma {:induction false} EncodedTagsAreLaid(p: Bytes, at: nat, tags: seq<VlanTag>, inner: U16)
    requires GoodTags(tags) && At(p, at, EncodeTags(tags, inner))
    ensures LaidTags(p, at, tags, inner)
    decreases |tags|
  {
    if tags != [] {
      TagAt(p, at, tags, inner);
      EncodedTagsAreLaid(p, at + 4, tags[1..], inner);
    }
  }

  lemma {:induction false} WalkLaidTags(p: Bytes, caplen: nat, at: nat, outer: U16, tags: seq<VlanTag>, inner: U16)
    requires at <= caplen && at % 4 == 2
    requires GoodTags(tags) && InnerType(inner) && LaidTags(p, at, tags, inner)
    ensures WalkTags(p, caplen, EthernetInfo(at, TypeBefore(tags, inner), outer)) ==
      Read(AfterTags(at, outer, tags, inner, Min(|tags|, (caplen - at) / 4)))
    decreases |tags|
  {
    if tags != [] && caplen >= at + 4 {
      WalkLaidTags(p, caplen, at + 4, tags[0].vid, tags[1..], inner);
      var j := Min(|tags[1..]|, (caplen - (at + 4)) / 4);
      assert j + 1 == Min(|tags|, (caplen - at) / 4);
      assert tags[1..][j..] == tags[j + 1..];
    } else {
      assert tags[0..] == tags;
    }
  }

  lemma LaidTagStack(p: Bytes, caplen: nat, tags: seq<VlanTag>, inner: U16)
    requires caplen >= ETHER_SIZE && |p| >= ETHER_SIZE && GoodTags(tags) && InnerType(inner)
    requires Be16(p, 12) == TypeBefore(tags, inner) && LaidTags(p, ETHER_SIZE, tags, inner)
    ensures Ethernet(p, caplen) ==
      Read(Some(AfterTags(ETHER_SIZE, 0, tags, inner, Min(|tags|, (caplen - ETHER_SIZE) / 4))))
  {
    WalkLaidTags(p, caplen, ETHER_SIZE, 0, tags, inner);
  }

  /** For every stack of k tags and every capture length: the header ends behind the last captured tag; the type is the
      one in there, hence the inner type behind 14 + 4k bytes if all were captured; the VLAN id is the innermost. */
  lemma TagStack(p: Bytes, caplen: nat, tags: seq<VlanTag>, inner: U16)
    requires caplen >= ETHER_SIZE && |p| >= ETHER_SIZE && GoodTags(tags) && InnerType(inner)
    requires Be16(p, 12) == TypeBefore(tags, inner) && At(p, ETHER_SIZE, EncodeTags(tags, inner))
    ensures Ethernet(p, caplen) ==
      Read(Some(AfterTags(ETHER_SIZE, 0, tags, inner, Min(|tags|, (caplen - ETHER_SIZE) / 4))))
  {
    EncodedTagsAreLaid(p, ETHER_SIZE, tags, inner);
    LaidTagStack(p, caplen, tags, inner);
  }

  // ----- Reads beyond the capture buffer -----

  /** The i-th group of four bytes begins with the type of a tag. */
  predicate TagWord(p: Bytes, i: nat)
    requires 4 * i + 1 < |p|
  {
    !InnerType(Be16(p, 4 * i))
  }

  predicate TagWords(p: Bytes, from: nat)
    requires |p| == CAPTURE_SIZE
  {
    forall i :: from <= i < CAPTURE_SIZE / 4 ==> TagWord(p, i)
  }

  lemma {:induction false} WalkBeyond(p: Bytes, caplen: nat, info: EthernetInfo)
    requires |p| == CAPTURE_SIZE && info.headerLen <= caplen
    requires info.headerLen % 4 == 2 && info.headerLen + 2 <= CAPTURE_SIZE
    ensures WalkTags(p, caplen, info) == Beyond <==>
      caplen > CAPTURE_SIZE + 1 && IsTag(info.etherType) && TagWords(p, (info.headerLen + 2) / 4)
    decreases caplen - info.headerLen
  {
    var at := info.headerLen;
    if IsTag(info.etherType) && caplen >= at + 4 && at + 6 <= CAPTURE_SIZE {
      var next := EthernetInfo(at + 4, Be16(p, at + 2), BitAnd(Be16(p, at), 0xfff));
      WalkBeyond(p, caplen, next);
      var word := (at + 2) / 4;
      assert 4 * word == at + 2 && (at + 6) / 4 == word + 1;
      assert TagWord(p, word) <==> IsTag(next.etherType);
      assert TagWords(p, word) <==> TagWord(p, word) && TagWords(p, word + 1);
    }
  }

  /** The parser reads beyond the capture buffer exactly if more than 257 bytes are said to be captured and every group
      of four bytes, from the ether type to the end of the buffer, begins like a tag. */
  lemma EthernetBeyondMeaning(p: Bytes, caplen: nat)
    requires |p| == 256
    ensures Ethernet(p, caplen) == Beyond <==> caplen > 257 && TagWords(p, 3)
  {
    if caplen >= ETHER_SIZE {
      WalkBeyond(p, caplen, EthernetInfo(ETHER_SIZE, Be16(p, 12), 0));
      assert TagWord(p, 3) <==> IsTag(Be16(p, 12));
      assert TagWords(p, 3) <==> TagWord(p, 3) && TagWords(p, 4);
    }
  }

  /** Behind tags in all words before `to`, and none there, the header ends with that word's type. */
  lemma {:induction false} WalkUpTo(p: Bytes, caplen: nat, info: EthernetInfo, to: nat)
    requires |p| == CAPTURE_SIZE && to < CAPTURE_SIZE / 4 && 4 * to + 2 <= caplen
    requires info.headerLen % 4 == 2 && info.headerLen <= 4 * to + 2
    requires info.etherType == Be16(p, info.headerLen - 2)
    requires (forall i :: info.headerLen / 4 <= i < to ==> TagWord(p, i)) && !TagWord(p, to)
    ensures
      var r := WalkTags(p, caplen, info);
      r.Read? && r.value.headerLen == 4 * to + 2 && r.value.etherType == Be16(p, 4 * to)
    decreases 4 * to + 2 - info.headerLen
  {
    var at := info.headerLen;
    assert 4 * (at / 4) == at - 2;
    if at < 4 * to + 2 {
      assert TagWord(p, at / 4);
      WalkUpTo(p, caplen, EthernetInfo(at + 4, Be16(p, at + 2), BitAnd(Be16(p, at), 0xfff)), to);
    }
  }
}

/** The extension headers behind an IPv6 header (section 4 of RFC 8200). */
module Ipv6Extensions {
  import opened NetworkBytes
  import opened Words

  const MAX_EXTENSIONS: nat := 10
  const FRAGMENT: Byte := 44

  // What the walk has found so far.
  datatype Chain = Chain(next: Byte, count: nat, fragment: bool)

  predicate IsSkipped(next: Byte) {
    next == 0 || next == 43 || next == 60
  }

  /** The size of a header whose length field holds this many units. */
  function SizeOf(units: int): int {
    8 * (units + 1)
  }

  /** The specification of the walk over the extension headers in the capture buffer p. */
  function WalkChain(p: Bytes, caplen: nat, at: nat, so: Chain): (r: Checked<Chain>)
    requires so.count <= MAX_EXTENSIONS
    ensures r.Read? ==> so.count <= r.value.count <= MAX_EXTENSIONS
    decreases MAX_EXTENSIONS - so.count
  {
    if so.count == MAX_EXTENSIONS then Read(so)
    else if IsSkipped(so.next) then
      if at + 8 > caplen then Read(so)
      else
        var next :- ByteAt(p, at);
        var units :- ByteAt(p, at + 1);
        WalkChain(p, caplen, at + SizeOf(units), Chain(next, so.count + 1, so.fragment))
    else if so.next == FRAGMENT then
      var next :- ByteAt(p, at);
      WalkChain(p, caplen, at + 8, Chain(next, so.count + 1, true))
    else Read(so)
  }

  /** The loop in dissect_raw_packet; Beyond stands for a read beyond the buffer. */
  method SkipExtensions(packet: Bytes, caplen: nat, start: nat, next: Byte, fragment: bool) returns (r: Checked<Chain>)
    ensures r == WalkChain(packet, caplen, start, Chain(next, 0, fragment))
  {
    var nxt, extCount, isFragment := next, 0, fragment;
    var v6Off: nat := start;
    while extCount < 10
      invariant extCount <= 10
      invariant WalkChain(packet, caplen, start, Chain(next, 0, fragment))
             == WalkChain(packet, caplen, v6Off, Chain(nxt, extCount, isFragment))
      decreases 10 - extCount
    {
      if nxt == 0 || nxt == 43 || nxt == 60 {
        if v6Off + 8 > caplen {
          break;
        }
        nxt :- ByteAt(packet, v6Off);
        var units :- ByteAt(packet, v6Off + 1);
        v6Off := v6Off + (units + 1 as int) * 8;
        extCount := extCount + 1;
      } else if nxt == 44 {
        isFragment := true;
        nxt :- ByteAt(packet, v6Off);
        v6Off := v6Off + 8;
        extCount := extCount + 1;
      } else {
        break;
      }
    }
    return Read(Chain(nxt, extCount, isFragment));
  }

  // A header: the type of what follows, then its contents. A fragment header has 8 bytes whatever they hold.
  datatype ExtHeader = Skipped(kind: Byte, units: Byte, body: Bytes) | Fragment(body: Bytes)

  function Kind(h: ExtHeader): Byte {
    if h.Skipped? then h.kind else 44
  }

  function Size(h: ExtHeader): nat {
    if h.Skipped? then 8 * (h.units as int + 1) else 8
  }

  /** Hop-by-hop options, routing, and destination options. */
  predicate SkippedKind(kind: Byte) {
    kind == 0 || kind == 43 || kind == 60
  }

  /** Not the type of a header that the walk knows. */
  predicate UpperLayer(kind: Byte) {
    kind != 0 && kind != 43 && kind != 60 && kind != 44
  }

  predicate GoodHeader(h: ExtHeader) {
    match h
    case Skipped(kind, units, body) => SkippedKind(kind) && |body| == 8 * (units as int) + 6
    case Fragment(body) => |body| == 7
  }

  predicate GoodHeaders(hs: seq<ExtHeader>) {
    forall i :: 0 <= i < |hs| ==> GoodHeader(hs[i])
  }

  /** What the field in front of these headers says. */
  function KindBefore(hs: seq<ExtHeader>, upper: Byte): Byte {
    if hs == [] then upper else Kind(hs[0])
  }

  function EncodeHeader(h: ExtHeader, next: Byte): (b: Bytes)
    requires GoodHeader(h)
    ensures |b| == Size(h)
  {
    if h.Skipped? then [next, h.units] + h.body else [next] + h.body
  }

  function EncodeChain(hs: seq<ExtHeader>, upper: Byte): Bytes
    requires GoodHeaders(hs)
    decreases |hs|
  {
    if hs == [] then [] else EncodeHeader(hs[0], KindBefore(hs[1..], upper)) + EncodeChain(hs[1..], upper)
  }

  function SizeAll(hs: seq<ExtHeader>): nat
    decreases |hs|
  {
    if hs == [] then 0 else Size(hs[0]) + SizeAll(hs[1..])
  }

  predicate HasFragment(hs: seq<ExtHeader>)
    decreases |hs|
  {
    hs != [] && (hs[0].Fragment? || HasFragment(hs[1..]))
  }

  lemma FragmentOccurs(hs: seq<ExtHeader>)
    ensures HasFragment(hs) <==> exists i :: 0 <= i < |hs| && hs[i].Fragment?
    decreases |hs|
  {
    if hs != [] {
      FragmentOccurs(hs[1..]);
      if HasFragment(hs[1..]) {
        var i :| 0 <= i < |hs[1..]| && hs[1..][i].Fragment?;
        assert hs[i + 1].Fragment?;
      } else if i :| 0 <= i < |hs| && hs[i].Fragment? {
        assert i == 0 || hs[1..][i - 1].Fragment?;
      }
    }
  }

  /** The parts of the headers that the walk reads are in the bytes from position at on. */
  predicate Laid(p: Bytes, at: nat, hs: seq<ExtHeader>, upper: Byte)
    decreases |hs|
  {
    hs != [] ==>
      && at + Size(hs[0]) <= |p| && at + 1 < |p|
      && p[at] == KindBefore(hs[1..], upper) && (hs[0].Skipped? ==> p[at + 1] == hs[0].units)
      && Laid(p, at + Size(hs[0]), hs[1..], upper)
  }

  lemma {:induction false} EncodedIsLaid(p: Bytes, at: nat, hs: seq<ExtHeader>, upper: Byte)
    requires GoodHeaders(hs) && At(p, at, EncodeChain(hs, upper))
    ensures |EncodeChain(hs, upper)| == SizeAll(hs) && Laid(p, at, hs, upper)
    decreases |hs|
  {
    if hs != [] {
      var b := EncodeHeader(hs[0], KindBefore(hs[1..], upper));
      AtParts(p, at, b, EncodeChain(hs[1..], upper));
      assert GoodHeader(hs[0]) && b[0] == p[at] && b[1] == p[at + 1];
      EncodedIsLaid(p, at + Size(hs[0]), hs[1..], upper);
    }
  }

  /** What the walk has found after the first j of these headers. */
  function AfterHeaders(hs: seq<ExtHeader>, upper: Byte, j: nat, so: Chain): Chain
    requires j <= |hs|
  {
    Chain(KindBefore(hs[j..], upper), so.count + j, so.fragment || HasFragment(hs[..j]))
  }

  /** What the walk makes of one header. */
  function AfterHeader(so: Chain, h: ExtHeader, next: Byte): Chain
  {
    Chain(next, so.count + 1, so.fragment || h.Fragment?)
  }

  lemma WalkHeader(p: Bytes, caplen: nat, at: nat, hs: seq<ExtHeader>, upper: Byte, so: Chain)
    requires GoodHeaders(hs) && Laid(p, at, hs, upper) && hs != [] && at + Size(hs[0]) <= caplen
    requires so.next == Kind(hs[0]) && so.count < MAX_EXTENSIONS
    ensures WalkChain(p, caplen, at, so) ==
      WalkChain(p, caplen, at + Size(hs[0]), AfterHeader(so, hs[0], KindBefore(hs[1..], upper)))
  {
    assert GoodHeader(hs[0]);
  }

  lemma AfterOneMore(hs: seq<ExtHeader>, upper: Byte, j: nat, so: Chain)
    requires j < |hs|
    ensures AfterHeaders(hs, upper, j + 1, so) ==
      AfterHeaders(hs[1..], upper, j, AfterHeader(so, hs[0], KindBefore(hs[1..], upper)))
  {
    assert hs[1..][j..] == hs[j + 1..] && hs[..j + 1][1..] == hs[1..][..j];
  }

  lemma {:induction false} WalkLaid(p: Bytes, caplen: nat, at: nat, hs: seq<ExtHeader>, upper: Byte, so: Chain)
    requires GoodHeaders(hs) && Laid(p, at, hs, upper) && at + SizeAll(hs) <= caplen
    requires UpperLayer(upper)
    requires so.next == KindBefore(hs, upper) && so.count <= MAX_EXTENSIONS
    ensures WalkChain(p, caplen, at, so) == Read(AfterHeaders(hs, upper, Min(|hs|, MAX_EXTENSIONS - so.count), so))
    decreases |hs|
  {
    if hs != [] && so.count < MAX_EXTENSIONS {
      var next := AfterHeader(so, hs[0], KindBefore(hs[1..], upper));
      WalkHeader(p, caplen, at, hs, upper, so);
      WalkLaid(p, caplen, at + Size(hs[0]), hs[1..], upper, next);
      AfterOneMore(hs, upper, Min(|hs[1..]|, MAX_EXTENSIONS - next.count), so);
    } else {
      assert hs[0..] == hs && hs[..0] == [];
    }
  }

  /** For every chain of captured headers before an upper-layer protocol: the first ten at most are skipped, so a chain
      of k <= 10 ends with that protocol and the count k; the packet is a fragment exactly if a fragment header was
      skipped. */
  lemma ChainRoundTrip(p: Bytes, caplen: nat, at: nat, hs: seq<ExtHeader>, upper: Byte)
    requires GoodHeaders(hs) && At(p, at, EncodeChain(hs, upper)) && at + |EncodeChain(hs, upper)| <= caplen
    requires UpperLayer(upper)
    ensures
      var r := WalkChain(p, caplen, at, Chain(KindBefore(hs, upper), 0, false));
      var j := Min(|hs|, 10);
      && r.Read? && r.value.count == j
      && (r.value.fragment <==> exists i :: 0 <= i < j && hs[i].Fragment?)
      && r.value.next == if |hs| <= 10 then upper else Kind(hs[10])
  {
    EncodedIsLaid(p, at, hs, upper);
    WalkLaid(p, caplen, at, hs, upper, Chain(KindBefore(hs, upper), 0, false));
    var j := Min(|hs|, MAX_EXTENSIONS);
    FragmentOccurs(hs[..j]);
    assert forall i :: 0 <= i < j ==> hs[..j][i] == hs[i];
  }

  // ----- Reads beyond the capture buffer -----

  /** The type and length fields of these headers, and the type of what follows them, are in the bytes from position at
      on; the headers that are skipped begin with eight captured bytes. */
  predicate Announced(p: Bytes, caplen: nat, at: nat, hs: seq<ExtHeader>, last: Byte)
    decreases |hs|
  {
    hs != [] ==>
      && at < |p| && p[at] == KindBefore(hs[1..], last)
      && (hs[0].Skipped? ==> at + 8 <= caplen && at + 1 < |p| && p[at + 1] == hs[0].units)
      && Announced(p, caplen, at + Size(hs[0]), hs[1..], last)
  }

  /** Behind these headers another one is announced whose fields are beyond the buffer: a fragment header, whatever the
      capture length, or one to skip whose first eight bytes are said to be captured. */
  predicate LeadsBeyond(p: Bytes, caplen: nat, at: nat, hs: seq<ExtHeader>, last: Byte) {
    var end := at + SizeAll(hs);
    && GoodHeaders(hs) && Announced(p, caplen, at, hs, last)
    && if last == 44 then end >= |p| else SkippedKind(last) && end + 8 <= caplen && end + 1 >= |p|
  }

  lemma {:induction false} LedBeyond(p: Bytes, caplen: nat, at: nat, so: Chain, hs: seq<ExtHeader>, last: Byte)
    requires so.count + |hs| < MAX_EXTENSIONS && so.next == KindBefore(hs, last) && LeadsBeyond(p, caplen, at, hs, last)
    ensures WalkChain(p, caplen, at, so) == Beyond
    decreases |hs|
  {
    if hs != [] {
      assert GoodHeader(hs[0]);
      LedBeyond(p, caplen, at + Size(hs[0]), AfterHeader(so, hs[0], p[at]), hs[1..], last);
    }
  }

  lemma {:induction false} WhatLedBeyond(p: Bytes, caplen: nat, at: nat, so: Chain)
      returns (hs: seq<ExtHeader>, last: Byte)
    requires so.count <= MAX_EXTENSIONS && WalkChain(p, caplen, at, so) == Beyond
    ensures so.count + |hs| < MAX_EXTENSIONS && so.next == KindBefore(hs, last) && LeadsBeyond(p, caplen, at, hs, last)
    decreases MAX_EXTENSIONS - so.count
  {
    if at >= |p| || (IsSkipped(so.next) && at + 1 >= |p|) {
      hs, last := [], so.next;
    } else {
      var h :=
        if so.next == FRAGMENT then Fragment(seq(7, _ => 0))
        else Skipped(so.next, p[at + 1], seq(SizeOf(p[at + 1]) - 2, _ => 0));
      var later;
      later, last := WhatLedBeyond(p, caplen, at + Size(h), AfterHeader(so, h, p[at]));
      hs := [h] + later;
      assert hs[1..] == later;
    }
  }

  /** The walk reads beyond the buffer exactly if some chain of fewer than ten headers leads there. */
  lemma ChainBeyondMeaning(p: Bytes, caplen: nat, at: nat, next: Byte, fragment: bool)
    ensures WalkChain(p, caplen, at, Chain(next, 0, fragment)) == Beyond <==>
      exists hs, last ::
        |hs| < 10 && next == KindBefore(hs, last) && LeadsBeyond(p, caplen, at, hs, last)
  {
    var so := Chain(next, 0, fragment);
    if WalkChain(p, caplen, at, so) == Beyond {
      var hs, last := WhatLedBeyond(p, caplen, at, so);
    }
    if hs, last :| |hs| < 10 && next == KindBefore(hs, last) && LeadsBeyond(p, caplen, at, hs, last) {
      LedBeyond(p, caplen, at, so, hs, last);
    }
  }

  /** Of a frame that the buffer holds in full, only a fragment header can lead beyond it. */
  lemma OnlyFragmentsLeadBeyond(p: Bytes, caplen: nat, at: nat, hs: seq<ExtHeader>, last: Byte)
    requires caplen <= |p| && LeadsBeyond(p, caplen, at, hs, last)
    ensures last == 44
  {
  }
}

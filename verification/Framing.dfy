/**
 From records to a stream and back: the sender writes each record's memory image with its tag, in as many
 partial writes as the connection takes; the service rebuilds the records from reads of any size.
 */
module Framing {
  import opened Words
  import opened Sequences
  import opened WireFormat
  import opened RecordDecoder
  import opened RecordFields

  const HASH_SIZE: nat := 64
  const TOTAL_MSG_SIZE: nat := 1088
  const BUFFER_LIMIT: nat := 0x20_0000

  type Image = b: Bytes | |b| == STRUCT_SIZE witness seq(STRUCT_SIZE, _ => 0)

  // The keyed hash, the same on both sides.
  type Tag = b: Bytes | |b| == HASH_SIZE witness seq(HASH_SIZE, _ => 0)
  type Mac = Bytes -> Tag

  /** What is sent for a record: its image and the image's tag. */
  function Frame(mac: Mac, image: Image): (f: Bytes)
    ensures |f| == TOTAL_MSG_SIZE
  {
    image + mac(image)
  }

  function Frames(mac: Mac, images: seq<Image>): (s: Bytes)
    ensures |s| == TOTAL_MSG_SIZE * |images|
  {
    if images == [] then [] else Frame(mac, images[0]) + Frames(mac, images[1..])
  }

  lemma {:induction false} FramesSplit(mac: Mac, images: seq<Image>, k: nat)
    requires k <= |images|
    ensures Frames(mac, images) == Frames(mac, images[..k]) + Frames(mac, images[k..])
  {
    if k == 0 {
      assert images[0..] == images;
    } else {
      FramesSplit(mac, images[1..], k - 1);
      assert images[..k][1..] == images[1..][..k - 1] && images[1..][k - 1..] == images[k..];
    }
  }

  lemma FramesSnoc(mac: Mac, images: seq<Image>, image: Image)
    ensures Frames(mac, images + [image]) == Frames(mac, images) + Frame(mac, image)
  {
    var more := images + [image];
    FramesSplit(mac, more, |images|);
    assert more[..|images|] == images && more[|images|..] == [image];
    var one: seq<Image> := [image];
    assert |one[1..]| == 0;
  }

  /** The i-th frame is the i-th group of 1088 bytes: 1024 of the image, and 64 of the tag of just these. */
  lemma FrameAt(mac: Mac, images: seq<Image>, i: nat)
    requires i < |images|
    ensures
      var s := Frames(mac, images);
      && |s| == 1088 * |images|
      && s[1088 * i..1088 * i + 1024] == images[i] && s[1088 * i + 1024..1088 * (i + 1)] == mac(images[i])
  {
    FramesSplit(mac, images, i);
    var s, front, later := Frames(mac, images), Frames(mac, images[..i]), Frames(mac, images[i..]);
    var f := Frame(mac, images[i]);
    assert f == images[i] + mac(images[i]) && later[..1088] == f;
    assert s[1088 * i..1088 * i + 1024] == later[..1024] == f[..1024];
    assert s[1088 * i + 1024..1088 * (i + 1)] == later[1024..1088] == f[1024..];
  }

  lemma BeginOfSum(a: Bytes, b: Bytes, n: nat, c: Bytes)
    requires n <= |b|
    ensures a + b[..n] <= a + b + c
  {
  }

  lemma FramesNext(mac: Mac, images: seq<Image>, k: nat)
    requires k < |images|
    ensures Frames(mac, images[..k + 1]) == Frames(mac, images[..k]) + Frame(mac, images[k])
  {
    var image: Image := images[k];
    assert images[..k + 1] == images[..k] + [image];
    FramesSnoc(mac, images[..k], image);
  }

  /** The first k frames, and a beginning of frame k, are a beginning of the whole. */
  lemma FramesBegin(mac: Mac, images: seq<Image>, k: nat, n: nat)
    requires k < |images| && n <= TOTAL_MSG_SIZE
    ensures Frames(mac, images[..k]) + Frame(mac, images[k])[..n] <= Frames(mac, images)
    ensures Frames(mac, images[..k + 1]) == Frames(mac, images[..k]) + Frame(mac, images[k])
  {
    FramesNext(mac, images, k);
    FramesSplit(mac, images, k + 1);
    BeginOfSum(Frames(mac, images[..k]), Frame(mac, images[k]), n, Frames(mac, images[k + 1..]));
  }

  // ----- Sending -----

  // What one SSL_write does: takes some bytes, asks to be called again, or fails for good.
  datatype Outcome = Wrote(n: nat) | WantRetry | Fatal

  /** How many bytes a write takes at most. */
  function Size(outcome: Outcome): nat {
    match outcome
    case Wrote(n) => if n == 0 then 1 else n
    case _ => 0
  }

  /** How many bytes the writes before the first fatal one take at most, all together. */
  function Through(schedule: seq<Outcome>): nat {
    if schedule == [] || schedule[0].Fatal? then 0 else Size(schedule[0]) + Through(schedule[1..])
  }

  lemma ThroughOne(schedule: seq<Outcome>, k: nat)
    requires k < |schedule|
    ensures Through(schedule[k..]) ==
      if schedule[k].Fatal? then 0 else Size(schedule[k]) + Through(schedule[k + 1..])
  {
    assert schedule[k..][1..] == schedule[k + 1..];
  }

  /** After the first k writes so many bytes are out of so many. */
  ghost predicate OnTheWay(schedule: seq<Outcome>, k: nat, sent: nat, total: nat)
    requires k <= |schedule|
  {
    && (forall j :: 0 <= j < k ==> !schedule[j].Fatal?)
    && (if sent < total then Through(schedule) == sent + Through(schedule[k..]) else Through(schedule) >= total)
  }

  ghost predicate Fails(schedule: seq<Outcome>) {
    exists i :: 0 <= i < |schedule| && schedule[i].Fatal?
  }

  /** The connection, as far as bytes go: after a fatal error no byte goes through any more. */
  class Stream {
    var wire: Bytes
    var broken: bool

    constructor ()
      ensures wire == [] && !broken
    {
      wire, broken := [], false;
    }

    method Write(buffer: Bytes, outcome: Outcome) returns (n: int, retry: bool)
      requires buffer != []
      modifies this
      ensures n <= |buffer| && wire == old(wire) + buffer[..if n > 0 then n else 0]
      ensures n <= 0 && !retry <==> broken
      ensures old(broken) ==> broken
      ensures broken == (old(broken) || outcome.Fatal?)
      ensures !old(broken) && outcome.Wrote? ==> n == Min(Size(outcome), |buffer|)
      ensures !old(broken) && outcome.WantRetry? ==> n <= 0 && retry
    {
      if broken || outcome.Fatal? {
        broken := true;
        n, retry := -1, false;
      } else if outcome.WantRetry? {
        n, retry := -1, true;
      } else {
        n := Min(Size(outcome), |buffer|);
        retry := false;
        wire := wire + buffer[..n];
      }
    }
  }

  datatype SendResult = Sent | GaveUp | Pending

  /** send_packet_info against a schedule of write outcomes; Pending when the schedule ends first. */
  method SendPacketInfo(ssl: Stream?, mac: Mac, info: Image, schedule: seq<Outcome>)
      returns (result: SendResult, ghost written: nat)
    modifies ssl
    ensures ssl == null ==> result == GaveUp
    ensures ssl != null ==>
      && written <= TOTAL_MSG_SIZE
      && ssl.wire == old(ssl.wire) + Frame(mac, info)[..written]
      && (result == Sent <==> written == TOTAL_MSG_SIZE)
      && (result == GaveUp <==> ssl.broken && written < TOTAL_MSG_SIZE)
      && (old(ssl.broken) ==> ssl.broken && written == 0)
      && (result == Sent ==> !ssl.broken)
      && (!old(ssl.broken) ==>
            && written == Min(Through(schedule), TOTAL_MSG_SIZE)
            && (result == Pending <==> written < TOTAL_MSG_SIZE && !Fails(schedule)))
  {
    written := 0;
    if ssl == null {
      return GaveUp, 0;
    }
    var combined := info + mac(info);
    var sent := 0;
    var calls := 0;
    while sent < |combined|
      invariant sent == written <= |combined| && calls <= |schedule|
      invariant ssl.wire == old(ssl.wire) + combined[..sent]
      invariant old(ssl.broken) ==> sent == 0
      invariant ssl.broken == old(ssl.broken)
      invariant !ssl.broken ==> OnTheWay(schedule, calls, sent, |combined|)
      decreases |schedule| - calls
    {
      if calls == |schedule| {
        return (if ssl.broken then GaveUp else Pending), written;
      }
      ThroughOne(schedule, calls);
      var n, retry := ssl.Write(combined[sent..], schedule[calls]);
      calls := calls + 1;
      if n <= 0 {
        if retry {
          continue;
        }
        return GaveUp, written;
      }
      assert combined[..sent + n] == combined[..sent] + combined[sent..][..n];
      sent := sent + n;
      written := sent;
    }
    return Sent, written;
  }

  /** The sender over any records and any schedules: the wire always carries a beginning of the frames, and all of
      them once every record is sent. It goes on to the next record whether or not one was sent; it stops early only
      in a record whose schedule ends first. */
  method SendAll(ssl: Stream, mac: Mac, images: seq<Image>, schedules: seq<seq<Outcome>>)
      returns (sent: nat, taken: nat)
    requires |schedules| == |images| && ssl.wire == [] && !ssl.broken
    modifies ssl
    ensures sent <= taken <= |images| && (taken < |images| ==> !ssl.broken && !Fails(schedules[taken]))
    ensures Frames(mac, images[..sent]) <= ssl.wire <= Frames(mac, images)
    ensures sent == |images| ==> ssl.wire == Frames(mac, images)
  {
    sent, taken := 0, 0;
    var i := 0;
    while i < |images|
      invariant sent <= i == taken <= |images|
      invariant Frames(mac, images[..sent]) <= ssl.wire <= Frames(mac, images)
      invariant !ssl.broken ==> sent == i && ssl.wire == Frames(mac, images[..i])
    {
      var result, written := SendPacketInfo(ssl, mac, images[i], schedules[i]);
      FramesBegin(mac, images, i, written);
      if result == Pending {
        return;
      }
      i := i + 1;
      taken := i;
      if result == Sent {
        sent := i;
      }
    }
    assert images[..|images|] == images;
  }

  // ----- Receiving -----

  /** The packet is what some record with this image stands for. */
  ghost predicate Reads(image: Image, r: DashboardPacket) {
    exists p :: Sized(p) && Encode(p) == image && r == View(p)
  }

  lemma ReadsFront(p: PacketInfo, data: Bytes, rest: Bytes)
    requires Sized(p) && data == InfoThen(p, rest)
    ensures |data| == STRUCT_SIZE + |rest| && rest == data[STRUCT_SIZE..] && Reads(data[..STRUCT_SIZE], View(p))
  {
    InfoSplits(p, rest);
    assert data[..STRUCT_SIZE] == Encode(p);
  }

  predicate Authentic(mac: Mac, data: Bytes)
    requires |data| >= TOTAL_MSG_SIZE
  {
    data[STRUCT_SIZE..TOTAL_MSG_SIZE] == mac(data[..STRUCT_SIZE])
  }

  /** One packet for each image, in order. */
  ghost predicate AllRead(images: seq<Image>, rs: seq<DashboardPacket>) {
    Pointwise(Reads, images, rs)
  }

  /** An authentic record and its tag in front of the rest are one more frame. */
  lemma FrameInFront(mac: Mac, images: seq<Image>, data: Bytes)
    requires |data| >= TOTAL_MSG_SIZE && Authentic(mac, data)
    ensures Frames(mac, images) + data == Frames(mac, images + [data[..STRUCT_SIZE]]) + data[TOTAL_MSG_SIZE..]
  {
    FramesSnoc(mac, images, data[..STRUCT_SIZE]);
    assert data == Frame(mac, data[..STRUCT_SIZE]) + data[TOTAL_MSG_SIZE..];
  }

  /** The bytes received so far are the frames of these images, whose packets these are, and the bytes left over. */
  ghost predicate Accounts(mac: Mac, received: Bytes, images: seq<Image>, rs: seq<DashboardPacket>, left: Bytes) {
    received == Frames(mac, images) + left && AllRead(images, rs)
  }

  lemma AccountsOneMore(mac: Mac, received: Bytes, images: seq<Image>, rs: seq<DashboardPacket>, left: Bytes,
                        r: DashboardPacket)
    requires Accounts(mac, received, images, rs, left)
    requires |left| >= TOTAL_MSG_SIZE && Authentic(mac, left) && Reads(left[..STRUCT_SIZE], r)
    ensures Accounts(mac, received, images + [left[..STRUCT_SIZE]], rs + [r], left[TOTAL_MSG_SIZE..])
  {
    FrameInFront(mac, images, left);
    var image: Image := left[..STRUCT_SIZE];
    PointwiseSnoc(Reads, images, rs, image, r);
  }

  lemma AccountsMore(mac: Mac, received: Bytes, images: seq<Image>, rs: seq<DashboardPacket>, left: Bytes, more: Bytes)
    requires Accounts(mac, received, images, rs, left)
    ensures Accounts(mac, received + more, images, rs, left + more)
  {
  }

  /** The bytes left over are what the received bytes have beyond whole frames. */
  lemma HeldIsRemainder(mac: Mac, received: Bytes, images: seq<Image>, rs: seq<DashboardPacket>, left: Bytes)
    requires Accounts(mac, received, images, rs, left) && |left| < TOTAL_MSG_SIZE
    ensures |received| % TOTAL_MSG_SIZE == |left| && received[..|received| - |left|] == Frames(mac, images)
  {
    DivModUnique(|received|, |images|, |left|, TOTAL_MSG_SIZE);
  }

  /** The frames taken off the buffer are what it lost. */
  lemma FramesTaken(mac: Mac, received: Bytes, images0: seq<Image>, data0: Bytes, images: seq<Image>, data: Bytes)
    requires images0 <= images && received == Frames(mac, images0) + data0 == Frames(mac, images) + data
    ensures data0 == Frames(mac, images[|images0|..]) + data
  {
    FramesSplit(mac, images, |images0|);
    assert images[..|images0|] == images0;
    var n := |Frames(mac, images0)|;
    assert data0 == received[n..];
  }

  lemma AccountsAfterClear(mac: Mac, images: seq<Image>, rs: seq<DashboardPacket>)
    requires AllRead(images, rs)
    ensures Accounts(mac, Frames(mac, images), images, rs, [])
  {
  }

  /** Whole frames at the front of a stream of frames are its first frames, in order. */
  lemma {:induction false} FramesUnique(mac: Mac, images: seq<Image>, rest: Bytes, sent: seq<Image>, tail: Bytes)
    requires Frames(mac, images) + rest + tail == Frames(mac, sent)
    ensures images <= sent
    decreases |images|
  {
    if images != [] {
      var stream := Frames(mac, sent);
      assert |stream| >= TOTAL_MSG_SIZE && sent != [];
      assert stream[..TOTAL_MSG_SIZE] == Frame(mac, images[0]);
      assert stream[..TOTAL_MSG_SIZE] == Frame(mac, sent[0]);
      assert Frame(mac, images[0])[..STRUCT_SIZE] == images[0] && Frame(mac, sent[0])[..STRUCT_SIZE] == sent[0];
      assert stream[TOTAL_MSG_SIZE..] == Frames(mac, images[1..]) + rest + tail;
      assert stream[TOTAL_MSG_SIZE..] == Frames(mac, sent[1..]);
      FramesUnique(mac, images[1..], rest, sent[1..], tail);
    }
  }

  datatype Status = Closed | AuthenticationFailed

  function Concat(chunks: seq<Bytes>): Bytes {
    if chunks == [] then [] else Concat(chunks[..|chunks| - 1]) + chunks[|chunks| - 1]
  }

  /** Some read makes the buffer too large, counting only the bytes of an unfinished frame before it. */
  predicate Overflows(chunks: seq<Bytes>) {
    chunks != [] && (Overflows(chunks[..|chunks| - 1]) || OverflowsAt(chunks, |chunks| - 1))
  }

  predicate OverflowsAt(chunks: seq<Bytes>, j: nat)
    requires j < |chunks|
  {
    |Concat(chunks[..j])| % TOTAL_MSG_SIZE + |chunks[j]| > BUFFER_LIMIT
  }

  lemma {:induction false} OverflowsMeaning(chunks: seq<Bytes>)
    ensures Overflows(chunks) <==> exists j :: 0 <= j < |chunks| && OverflowsAt(chunks, j)
  {
    if chunks != [] {
      var before := chunks[..|chunks| - 1];
      OverflowsMeaning(before);
      forall j | 0 <= j < |before|
        ensures OverflowsAt(before, j) == OverflowsAt(chunks, j)
      {
        assert before[..j] == chunks[..j];
      }
    }
  }

  /** The bytes received without those that were thrown away: when a read makes the buffer too large, that read and the
      unfinished frame before it are lost. */
  function Kept(chunks: seq<Bytes>): Bytes {
    if chunks == [] then [] else AfterRead(Kept(chunks[..|chunks| - 1]), chunks[|chunks| - 1])
  }

  function AfterRead(kept: Bytes, chunk: Bytes): Bytes {
    var held := |kept| % TOTAL_MSG_SIZE;
    if held + |chunk| > BUFFER_LIMIT then kept[..|kept| - held] else kept + chunk
  }

  lemma AfterReadLoses(kept: Bytes, chunk: Bytes)
    ensures if |kept| % TOTAL_MSG_SIZE + |chunk| > BUFFER_LIMIT
      then |AfterRead(kept, chunk)| + BUFFER_LIMIT < |kept| + |chunk|
      else AfterRead(kept, chunk) == kept + chunk
  {
  }

  /** Bytes are lost exactly if some read overflows, and then more than 2 MiB of them. */
  lemma {:induction false} OverflowLoses(chunks: seq<Bytes>)
    ensures !Overflows(chunks) ==> Kept(chunks) == Concat(chunks)
    ensures Overflows(chunks) ==> |Kept(chunks)| + BUFFER_LIMIT < |Concat(chunks)|
  {
    if chunks != [] {
      var before, last := chunks[..|chunks| - 1], chunks[|chunks| - 1];
      OverflowLoses(before);
      AfterReadLoses(Kept(before), last);
      assert |Concat(chunks)| == |Concat(before)| + |last|;
    }
  }

  lemma {:induction false} ShortReadsDoNotOverflow(chunks: seq<Bytes>)
    requires forall j :: 0 <= j < |chunks| ==> |chunks[j]| <= 2 * 1024 * 1024 - 1087
    ensures !Overflows(chunks)
  {
    if chunks != [] {
      ShortReadsDoNotOverflow(chunks[..|chunks| - 1]);
    }
  }

  /** A stream of good frames, longer than 2 MiB and received in one read, is lost altogether. */
  lemma LongReadLosesAll(mac: Mac, images: seq<Image>)
    requires |images| == 1928
    ensures Overflows([Frames(mac, images)]) && Kept([Frames(mac, images)]) == []
  {
    var chunks := [Frames(mac, images)];
    assert chunks[..0] == [];
  }

  lemma ReadSnoc(chunks: seq<Bytes>, i: nat)
    requires i < |chunks|
    ensures Concat(chunks[..i + 1]) == Concat(chunks[..i]) + chunks[i]
    ensures Kept(chunks[..i + 1]) == AfterRead(Kept(chunks[..i]), chunks[i])
    ensures Overflows(chunks[..i + 1]) <==> Overflows(chunks[..i]) || OverflowsAt(chunks, i)
  {
    var more := chunks[..i + 1];
    assert more[..i] == chunks[..i];
  }

  /** What one more read adds; before the first overflow the bytes kept are all that were received. */
  lemma NextRead(chunks: seq<Bytes>, i: nat)
    requires i < |chunks|
    ensures Concat(chunks[..i + 1]) == Concat(chunks[..i]) + chunks[i]
    ensures Kept(chunks[..i + 1]) == AfterRead(Kept(chunks[..i]), chunks[i])
    ensures Overflows(chunks[..i + 1]) <==>
      Overflows(chunks[..i]) || |Kept(chunks[..i])| % TOTAL_MSG_SIZE + |chunks[i]| > BUFFER_LIMIT
  {
    ReadSnoc(chunks, i);
    OverflowLoses(chunks[..i]);
  }

  lemma {:induction false} ReadPrefix(chunks: seq<Bytes>, i: nat)
    requires i <= |chunks|
    ensures Concat(chunks[..i]) <= Concat(chunks) && (Overflows(chunks[..i]) ==> Overflows(chunks))
  {
    if i == |chunks| {
      assert chunks[..i] == chunks;
    } else {
      var before := chunks[..|chunks| - 1];
      ReadPrefix(before, i);
      assert before[..i] == chunks[..i];
      assert Concat(before) <= Concat(chunks);
    }
  }

  // ----- Where the decoded frames were received -----

  /** Each image's frame was received at its offset, one frame behind the other, and the bytes left over came last. */
  ghost predicate Placed(mac: Mac, received: Bytes, images: seq<Image>, offsets: seq<nat>, left: Bytes) {
    && |offsets| == |images| && |left| <= |received| && received[|received| - |left|..] == left
    && forall i :: 0 <= i < |offsets| ==> PlacedAt(mac, received, images, offsets, left, i)
  }

  ghost predicate PlacedAt(mac: Mac, received: Bytes, images: seq<Image>, offsets: seq<nat>, left: Bytes, i: nat)
    requires i < |offsets| == |images| && |left| <= |received|
  {
    var end := offsets[i] + TOTAL_MSG_SIZE;
    && end <= (if i + 1 < |offsets| then offsets[i + 1] else |received| - |left|)
    && end <= |received| && received[offsets[i]..end] == Frame(mac, images[i])
  }

  lemma PlacedMore(mac: Mac, received: Bytes, images: seq<Image>, offsets: seq<nat>, left: Bytes, chunk: Bytes)
    requires Placed(mac, received, images, offsets, left)
    ensures Placed(mac, received + chunk, images, offsets, left + chunk)
    ensures Placed(mac, received + chunk, images, offsets, [])
  {
    forall i | 0 <= i < |offsets|
      ensures PlacedAt(mac, received + chunk, images, offsets, left + chunk, i)
      ensures PlacedAt(mac, received + chunk, images, offsets, [], i)
    {
      assert PlacedAt(mac, received, images, offsets, left, i);
      var end := offsets[i] + TOTAL_MSG_SIZE;
      assert (received + chunk)[offsets[i]..end] == received[offsets[i]..end];
    }
  }

  lemma PlacedOneMore(mac: Mac, received: Bytes, images: seq<Image>, offsets: seq<nat>, left: Bytes, image: Image)
    requires Placed(mac, received, images, offsets, Frame(mac, image) + left)
    ensures Placed(mac, received, images + [image], offsets + [|received| - |left| - TOTAL_MSG_SIZE], left)
  {
    var at := |received| - |left| - TOTAL_MSG_SIZE;
    assert received[at..] == Frame(mac, image) + left;
    forall i | 0 <= i < |offsets| + 1
      ensures PlacedAt(mac, received, images + [image], offsets + [at], left, i)
    {
      if i < |offsets| {
        assert PlacedAt(mac, received, images, offsets, Frame(mac, image) + left, i);
      } else {
        assert received[at..at + TOTAL_MSG_SIZE] == received[at..][..TOTAL_MSG_SIZE];
      }
    }
    assert received[|received| - |left|..] == received[at..][TOTAL_MSG_SIZE..];
  }

  lemma {:induction false} PlacedAll(mac: Mac, received: Bytes, images: seq<Image>, offsets: seq<nat>, more: seq<Image>,
                                     left: Bytes) returns (longer: seq<nat>)
    requires Placed(mac, received, images, offsets, Frames(mac, more) + left)
    ensures Placed(mac, received, images + more, longer, left)
    decreases |more|
  {
    if more == [] {
      assert images + more == images && Frames(mac, more) + left == left;
      longer := offsets;
    } else {
      var rest := Frames(mac, more[1..]) + left;
      assert Frames(mac, more) + left == Frame(mac, more[0]) + rest;
      PlacedOneMore(mac, received, images, offsets, rest, more[0]);
      var at := |received| - |rest| - TOTAL_MSG_SIZE;
      longer := PlacedAll(mac, received, images + [more[0]], offsets + [at], more[1..], left);
      assert images + [more[0]] + more[1..] == images + more;
    }
  }

  /** handle_cpp_connection for one connection: `chunks` are what the socket gives, one read each. */
  class Connection {
    const buffer: ByteBuffer
    const mac: Mac
    var delivered: seq<DashboardPacket>
    ghost var images: seq<Image>  // the record images taken off the buffer so far

    ghost predicate Explains(received: Bytes)
      reads this, buffer
    {
      Accounts(mac, received, images, delivered, buffer.data)
    }

    constructor (mac: Mac)
      ensures fresh(buffer) && buffer.data == [] && delivered == [] && images == [] && this.mac == mac
    {
      this.mac := mac;
      buffer := new ByteBuffer();
      delivered, images := [], [];
    }

    /** The inner loop: takes whole frames off the buffer until none is left or a tag is wrong. */
    method DrainFrames(ghost received: Bytes) returns (ok: bool)
      requires Explains(received)
      modifies this`delivered, this`images, buffer
      ensures Explains(received) && old(images) <= images
      ensures ok ==> |buffer.data| < TOTAL_MSG_SIZE
      ensures !ok ==> |buffer.data| >= TOTAL_MSG_SIZE && !Authentic(mac, buffer.data)
    {
      while |buffer.data| >= TOTAL_MSG_SIZE
        invariant Explains(received) && old(images) <= images
        decreases |buffer.data|
      {
        var chunk := buffer.data[..STRUCT_SIZE];
        var receivedHash := buffer.data[STRUCT_SIZE..TOTAL_MSG_SIZE];
        if receivedHash != mac(chunk) {
          return false;
        }
        TakeFrame(received);
      }
      return true;
    }

    /** Decodes the authentic record in front, skips its tag, and delivers the packet. */
    method TakeFrame(ghost received: Bytes)
      requires |buffer.data| >= TOTAL_MSG_SIZE && Authentic(mac, buffer.data) && Explains(received)
      modifies this`delivered, this`images, buffer
      ensures Explains(received)
      ensures images == old(images) + [old(buffer.data)[..STRUCT_SIZE]]
      ensures buffer.data == old(buffer.data)[TOTAL_MSG_SIZE..]
    {
      ghost var image: Image := buffer.data[..STRUCT_SIZE];
      var packet := TakeRecord(received);
      images, delivered := images + [image], delivered + [packet];
    }

    /** Decodes the record in front and skips its tag. */
    method TakeRecord(ghost received: Bytes) returns (packet: DashboardPacket)
      requires |buffer.data| >= TOTAL_MSG_SIZE && Authentic(mac, buffer.data) && Explains(received)
      modifies buffer
      ensures buffer.data == old(buffer.data)[TOTAL_MSG_SIZE..]
      ensures Accounts(mac, received, images + [old(buffer.data)[..STRUCT_SIZE]], delivered + [packet], buffer.data)
    {
      ghost var left := buffer.data;
      ghost var p;
      packet, p := DecodeFields(buffer);
      ReadsFront(p, left, buffer.data);
      AccountsOneMore(mac, received, images, delivered, left, packet);
      ghost var skipped := buffer.Advance(HASH_SIZE);
    }

    /** How things stand after the first n reads. */
    ghost predicate After(chunks: seq<Bytes>, n: nat, cleared: bool, offsets: seq<nat>)
      requires n <= |chunks|
      reads this, buffer
    {
      && Explains(Kept(chunks[..n])) && Placed(mac, Concat(chunks[..n]), images, offsets, buffer.data)
      && (cleared <==> Overflows(chunks[..n])) && NoneEmpty(chunks, n)
    }

    /** An empty read is the end of the connection. */
    ghost predicate NoneEmpty(chunks: seq<Bytes>, n: nat)
      requires n <= |chunks|
    {
      forall j :: 0 <= j < n ==> |chunks[j]| > 0
    }

    /** Receives until the connection ends, or a tag is wrong. */
    method Handle(chunks: seq<Bytes>)
        returns (status: Status, ghost taken: nat, ghost cleared: bool, ghost offsets: seq<nat>)
      requires buffer.data == [] && delivered == [] && images == []
      modifies this`delivered, this`images, buffer
      ensures taken <= |chunks| && Explains(Kept(chunks[..taken]))
      ensures NoneEmpty(chunks, taken)
      ensures Placed(mac, Concat(chunks[..taken]), images, offsets, buffer.data)
      ensures cleared <==> Overflows(chunks[..taken])
      ensures status == Closed ==> |buffer.data| < TOTAL_MSG_SIZE && (taken == |chunks| || chunks[taken] == [])
      ensures status == AuthenticationFailed ==> |buffer.data| >= TOTAL_MSG_SIZE && !Authentic(mac, buffer.data)
    {
      var i := 0;
      cleared, offsets := false, [];
      while i < |chunks|
        invariant i <= |chunks| && |buffer.data| < TOTAL_MSG_SIZE && After(chunks, i, cleared, offsets)
      {
        var chunk := chunks[i];
        if |chunk| == 0 {
          break;
        }
        var ok;
        ok, cleared, offsets := TakeNext(chunks, i, cleared, offsets);
        i := i + 1;
        if !ok {
          return AuthenticationFailed, i, cleared, offsets;
        }
      }
      return Closed, i, cleared, offsets;
    }

    method TakeNext(chunks: seq<Bytes>, i: nat, ghost before: bool, ghost offsets: seq<nat>)
        returns (ok: bool, ghost cleared: bool, ghost longer: seq<nat>)
      requires i < |chunks| && |chunks[i]| > 0
      requires |buffer.data| < TOTAL_MSG_SIZE && After(chunks, i, before, offsets)
      modifies this`delivered, this`images, buffer
      ensures After(chunks, i + 1, cleared, longer)
      ensures ok ==> |buffer.data| < TOTAL_MSG_SIZE
      ensures !ok ==> |buffer.data| >= TOTAL_MSG_SIZE && !Authentic(mac, buffer.data)
    {
      NextRead(chunks, i);
      ghost var overflow;
      ok, overflow, longer := TakeRead(chunks[i], Kept(chunks[..i]), Concat(chunks[..i]), offsets);
      cleared := before || overflow;
    }

    /** One turn of the outer loop. */
    method TakeRead(chunk: Bytes, ghost kept: Bytes, ghost received: Bytes, ghost before: seq<nat>)
        returns (ok: bool, ghost overflow: bool, ghost offsets: seq<nat>)
      requires |buffer.data| < TOTAL_MSG_SIZE && Explains(kept)
      requires Placed(mac, received, images, before, buffer.data)
      modifies this`delivered, this`images, buffer
      ensures overflow <==> |kept| % TOTAL_MSG_SIZE + |chunk| > BUFFER_LIMIT
      ensures Explains(AfterRead(kept, chunk)) && Placed(mac, received + chunk, images, offsets, buffer.data)
      ensures ok ==> |buffer.data| < TOTAL_MSG_SIZE
      ensures !ok ==> |buffer.data| >= TOTAL_MSG_SIZE && !Authentic(mac, buffer.data)
    {
      HeldIsRemainder(mac, kept, images, delivered, buffer.data);
      AccountsMore(mac, kept, images, delivered, buffer.data, chunk);
      PlacedMore(mac, received, images, before, buffer.data, chunk);
      overflow, ok := false, true;
      buffer.Append(chunk);
      if |buffer.data| > BUFFER_LIMIT {
        buffer.Clear();
        overflow, offsets := true, before;
        AccountsAfterClear(mac, images, delivered);
      } else {
        ok, offsets := DrainAndPlace(kept + chunk, received + chunk, before);
      }
    }

    method DrainAndPlace(ghost kept: Bytes, ghost received: Bytes, ghost before: seq<nat>)
        returns (ok: bool, ghost offsets: seq<nat>)
      requires Explains(kept) && Placed(mac, received, images, before, buffer.data)
      modifies this`delivered, this`images, buffer
      ensures Explains(kept) && Placed(mac, received, images, offsets, buffer.data)
      ensures ok ==> |buffer.data| < TOTAL_MSG_SIZE
      ensures !ok ==> |buffer.data| >= TOTAL_MSG_SIZE && !Authentic(mac, buffer.data)
    {
      ok := DrainFrames(kept);
      ghost var taken := images[|old(images)|..];
      FramesTaken(mac, kept, old(images), old(buffer.data), images, buffer.data);
      offsets := PlacedAll(mac, received, old(images), before, taken, buffer.data);
      assert old(images) + taken == images;
    }
  }

  // ----- End to end -----

  lemma NextIsAuthentic(mac: Mac, images: seq<Image>, left: Bytes, sent: seq<Image>, tail: Bytes)
    requires Frames(mac, images) + left + tail == Frames(mac, sent) && images <= sent && |left| >= TOTAL_MSG_SIZE
    ensures Authentic(mac, left)
  {
    var s, n, k := Frames(mac, sent), |Frames(mac, images)|, |images|;
    assert s == Frames(mac, images) + (left + tail);
    FrameAt(mac, sent, k);
    PartOf(s, Frames(mac, images), left, tail, n, n + STRUCT_SIZE);
    PartOf(s, Frames(mac, images), left, tail, n + STRUCT_SIZE, n + TOTAL_MSG_SIZE);
  }

  lemma PartOf(s: Bytes, front: Bytes, middle: Bytes, back: Bytes, i: nat, j: nat)
    requires s == front + (middle + back) && |front| <= i <= j <= |front| + |middle|
    ensures s[i..j] == middle[i - |front|..j - |front|]
  {
  }

  predicate AllSized(ps: seq<PacketInfo>) {
    forall i :: 0 <= i < |ps| ==> Sized(ps[i])
  }

  function Images(ps: seq<PacketInfo>): (images: seq<Image>)
    requires AllSized(ps)
    ensures |images| == |ps| && forall i :: 0 <= i < |ps| ==> images[i] == EncodedImage(ps[i])
  {
    seq(|ps|, i requires 0 <= i < |ps| => EncodedImage(ps[i]))
  }

  function EncodedImage(p: PacketInfo): (image: Image)
    requires Sized(p)
    ensures image == Encode(p)
  {
    InfoSplits(p, []);
    Encode(p)
  }

  /** A decoded packet is the view of the very record that was encoded. */
  lemma ReadsItsRecord(p: PacketInfo, r: DashboardPacket)
    requires Sized(p) && |Encode(p)| == STRUCT_SIZE && Reads(Encode(p), r)
    ensures r == View(p)
  {
    var q :| Sized(q) && Encode(q) == Encode(p) && r == View(q);
    InfoUnique(p, [], q, []);
  }

  /** The packets are the views of the first records, field by field. */
  ghost predicate FirstViews(ps: seq<PacketInfo>, rs: seq<DashboardPacket>)
    requires AllSized(ps)
  {
    |rs| <= |ps| && forall i :: 0 <= i < |rs| ==> rs[i] == View(ps[i])
  }

  /** A packet delivered says, field by field, what the memory of its record holds, and so does the record. */
  lemma DeliveredOnWire(ps: seq<PacketInfo>, rs: seq<DashboardPacket>, i: nat)
    requires AllSized(ps) && FirstViews(ps, rs) && i < |rs|
    ensures |Encode(ps[i])| == 1024 && PacketOnWire(rs[i], Encode(ps[i]))
    ensures RecordOnWire(ps[i], Encode(ps[i]))
  {
    InfoSplits(ps[i], []);
    ViewOnWire(ps[i], Encode(ps[i]), []);
    FieldsOnWire(ps[i], Encode(ps[i]), []);
  }

  /** Whatever part of the sent stream has been received: the packets delivered are those of the first records sent,
      and what is left over is the stream from there on. Once less than a frame is left, all complete frames received
      have been decoded; and a whole frame at the front is always authentic. */
  lemma DeliveredIsPrefixOfSent(mac: Mac, ps: seq<PacketInfo>, received: Bytes,
                                images: seq<Image>, rs: seq<DashboardPacket>, left: Bytes)
    requires AllSized(ps)
    requires received <= Frames(mac, Images(ps)) && Accounts(mac, received, images, rs, left)
    ensures FirstViews(ps, rs)
    ensures |received| == TOTAL_MSG_SIZE * |rs| + |left|
    ensures |left| >= TOTAL_MSG_SIZE ==> Authentic(mac, left)
  {
    var sent := Images(ps);
    var stream := Frames(mac, sent);
    assert received + stream[|received|..] == stream;
    FramesUnique(mac, images, left, sent, stream[|received|..]);
    forall i | 0 <= i < |rs|
      ensures rs[i] == View(ps[i])
    {
      assert Reads(images[i], rs[i]);
      ReadsItsRecord(ps[i], rs[i]);
    }
    if |left| >= TOTAL_MSG_SIZE {
      NextIsAuthentic(mac, images, left, sent, stream[|received|..]);
    }
  }

  /** What a connection does to the bytes sent: some beginning of them arrives, in reads of which none overflows. */
  ghost predicate Network(cut: Bytes -> seq<Bytes>) {
    forall w :: Concat(cut(w)) <= w && !Overflows(cut(w)) && [] !in cut(w)
  }

  /** Receiving any beginning of what was sent, however it is cut into reads: the first packets come out, each equal to
      the view of its record, until less than a frame is left over. */
  method Receive(mac: Mac, ghost ps: seq<PacketInfo>, chunks: seq<Bytes>)
      returns (status: Status, rs: seq<DashboardPacket>, left: Bytes)
    requires AllSized(ps)
    requires Concat(chunks) <= Frames(mac, Images(ps)) && !Overflows(chunks) && [] !in chunks
    ensures status == Closed
    ensures FirstViews(ps, rs)
    ensures |Concat(chunks)| == TOTAL_MSG_SIZE * |rs| + |left| && |left| < TOTAL_MSG_SIZE
  {
    var connection := new Connection(mac);
    ghost var taken, cleared, offsets;
    status, taken, cleared, offsets := connection.Handle(chunks);
    rs, left := connection.delivered, connection.buffer.data;
    ReadPrefix(chunks, taken);
    OverflowLoses(chunks[..taken]);
    DeliveredIsPrefixOfSent(mac, ps, Concat(chunks[..taken]), connection.images, rs, left);
    assert status == Closed && chunks[..taken] == chunks;
  }

  /** A whole session, for any records, any schedules of partial writes, and any network. */
  method Session(mac: Mac, ps: seq<PacketInfo>, schedules: seq<seq<Outcome>>, cut: Bytes -> seq<Bytes>)
      returns (sent: nat, status: Status, rs: seq<DashboardPacket>)
    requires AllSized(ps)
    requires |schedules| == |ps| && Network(cut)
    ensures status == Closed && FirstViews(ps, rs)
    ensures sent == |ps| && Concat(cut(Frames(mac, Images(ps)))) == Frames(mac, Images(ps)) ==> |rs| == |ps|
  {
    var ssl := new Stream();
    var taken;
    sent, taken := SendAll(ssl, mac, Images(ps), schedules);
    var left;
    status, rs, left := Receive(mac, ps, cut(ssl.wire));
  }
}

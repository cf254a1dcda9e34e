/** The name asked for in a DNS message (section 3.1 of RFC 1035). */
module DnsName {
  import opened Words
  import opened NetworkBytes

  const DOT: Byte := 0x2e
  const HEADER: nat := 12
  const MAX_LABEL: nat := 63

  /** How many bytes of a label are copied when so many are left, and there is room for so many. */
  function Copied(labelLen: nat, left: nat, room: nat): (n: nat)
    ensures n <= labelLen && n <= left && n <= room
  {
    Min(labelLen, Min(left, room))
  }

  /** The reads of the walk from pos on, with room for so many bytes in the output: what room is left in the end. The
      length is what the UDP header says, which nobody compares with the bytes p that are held. */
  function Reach(p: Bytes, len: int, pos: nat, room: nat): (r: Checked<nat>)
    ensures r.Read? ==> r.value <= room
    decreases len - pos
  {
    if pos >= len || room == 0 then Read(room)
    else
      var labelLen :- ByteAt(p, pos);
      if labelLen == 0 || labelLen > MAX_LABEL then Read(room)
      else
        var n := Copied(labelLen, len - pos - 1, room);
        var start :- Extent(p, pos + 1, n);
        Reach(p, len, start + n, RoomAfter(room, n))
  }

  /** A label takes its bytes, and one for the dot if there is room for that. */
  function RoomAfter(room: nat, n: nat): nat
    requires n <= room
  {
    if n < room then room - n - 1 else 0
  }

  /** The specification of the walk from pos on, when this text is already there: the text in the end. */
  function Walk(p: Bytes, len: int, pos: nat, room: nat, text: Bytes): (longer: Bytes)
    requires |text| <= room && Reach(p, len, pos, room - |text|).Read?
    ensures |longer| <= room
    decreases len - pos
  {
    if pos >= len || |text| == room || p[pos] == 0 || p[pos] > MAX_LABEL then text
    else
      var n := Copied(p[pos], len - pos - 1, room - |text|);
      Walk(p, len, pos + 1 + n, room, WithLabel(p, pos + 1, n, room, text))
  }

  /** The text with n more bytes, and a dot if there is room for it. */
  function WithLabel(p: Bytes, start: nat, n: nat, room: nat, text: Bytes): (longer: Bytes)
    requires start + n <= |p| && |text| + n <= room
    ensures |longer| == room - RoomAfter(room - |text|, n)
  {
    var whole := text + p[start..start + n];
    if |whole| < room then whole + [DOT] else whole
  }

  /** Without one dot at its end. */
  function Stripped(text: Bytes): Bytes {
    if text != [] && text[|text| - 1] == DOT then text[..|text| - 1] else text
  }

  /** What the output holds afterwards. */
  function Answer(before: Bytes, text: Bytes): Bytes
    requires text != [] ==> |text| < |before|
  {
    if text == [] then before else Terminated(before, Stripped(text))
  }

  function DnsText(p: Bytes, len: int, outMax: nat): (r: Checked<Bytes>)
    ensures r.Read? && r.value != [] ==> |r.value| < outMax
  {
    if len < HEADER || outMax == 0 then Read([])
    else
      var left :- Reach(p, len, HEADER, outMax - 1);
      Read(Walk(p, len, HEADER, outMax - 1, []))
  }

  /** The cells hold the text, and behind it what they held before. */
  ghost predicate Holds(cells: Bytes, text: Bytes, before: Bytes) {
    |text| <= |before| && cells == text + before[|text|..]
  }

  /** dissect_dns; p are the bytes held from the payload on. The result says whether all reads stayed inside them; where
      the source would read beyond them, the model stops. */
  method DissectDns(p: Bytes, len: int, out: array<Byte>) returns (inside: bool)
    modifies out
    ensures inside <==> DnsText(p, len, out.Length).Read?
    ensures inside ==> out[..] == Answer(old(out[..]), DnsText(p, len, out.Length).value)
  {
    if len < 12 || out.Length == 0 {
      return true;
    }
    inside := CopyName(p, len, out);
  }

  /** The walk from one position leads where the walk from the other leads. */
  ghost predicate SameWalk(p: Bytes, len: int, pos: nat, text: Bytes, pos': nat, text': Bytes, room: nat)
    requires |text| <= room && |text'| <= room
  {
    var r, r' := Reach(p, len, pos, room - |text|), Reach(p, len, pos', room - |text'|);
    && (r.Read? <==> r'.Read?)
    && (r.Read? && r'.Read? ==> Walk(p, len, pos, room, text) == Walk(p, len, pos', room, text'))
  }

  lemma WalkStep(p: Bytes, len: int, pos: nat, room: nat, text: Bytes)
    requires pos < len && pos < |p| && 1 <= p[pos] <= MAX_LABEL && |text| < room
    ensures
      var n := Copied(p[pos], len - pos - 1, room - |text|);
      if pos + 1 + n <= |p| then SameWalk(p, len, pos, text, pos + 1 + n, WithLabel(p, pos + 1, n, room, text), room)
      else Reach(p, len, pos, room - |text|) == Beyond
  {
  }

  lemma SameWalkOn(p: Bytes, len: int, pos: nat, text: Bytes, pos1: nat, text1: Bytes, pos2: nat, text2: Bytes,
                   room: nat)
    requires |text| <= room && |text1| <= room && |text2| <= room
    requires SameWalk(p, len, pos, text, pos1, text1, room) && SameWalk(p, len, pos1, text1, pos2, text2, room)
    ensures SameWalk(p, len, pos, text, pos2, text2, room)
  {
  }

  /** The loop over the labels, and the terminator. */
  method CopyName(p: Bytes, len: int, out: array<Byte>) returns (inside: bool)
    requires out.Length > 0
    modifies out
    ensures inside <==> Reach(p, len, HEADER, out.Length - 1).Read?
    ensures inside ==> out[..] == Answer(old(out[..]), Walk(p, len, HEADER, out.Length - 1, []))
  {
    var pos, outPos := 12, 0;
    ghost var text, before, room := [], out[..], out.Length - 1;
    while pos < len && outPos < out.Length - 1
      invariant outPos == |text| <= room && Holds(out[..], text, before)
      invariant pos >= 0 && SameWalk(p, len, HEADER, [], pos, text, room)
      decreases len - pos
    {
      if pos >= |p| {
        return false;
      }
      var labelLen := p[pos];
      if labelLen == 0 || labelLen > 63 {
        break;
      }
      ghost var pos1, text1 := pos, text;
      inside, pos, outPos, text := CopyWithDot(p, len, pos, out, outPos, text, before);
      if !inside {
        return;
      }
      SameWalkOn(p, len, HEADER, [], pos1, text1, pos, text, room);
    }
    Finish(out, outPos, text, before);
    return true;
  }

  /** A turn of the outer loop: a label, and a dot if there is room for it. */
  method CopyWithDot(p: Bytes, len: int, start: nat, out: array<Byte>, outStart: nat,
                     ghost text: Bytes, ghost before: Bytes)
      returns (inside: bool, pos: nat, outPos: nat, ghost longer: Bytes)
    requires start < |p| && start < len && 1 <= p[start] <= MAX_LABEL
    requires outStart == |text| < out.Length - 1 && Holds(out[..], text, before)
    modifies out
    ensures !inside ==> Reach(p, len, start, out.Length - 1 - |text|) == Beyond
    ensures inside ==>
      && start < pos && outPos == |longer| <= out.Length - 1 && Holds(out[..], longer, before)
      && SameWalk(p, len, start, text, pos, longer, out.Length - 1)
  {
    WalkStep(p, len, start, out.Length - 1, text);
    inside, pos, outPos, longer := CopyLabel(p, len, start + 1, p[start], out, outStart, text, before);
    if inside && outPos < out.Length - 1 {
      outPos, longer := Put(DOT, out, outPos, longer, before);
    }
  }

  lemma OneByteMore(p: Bytes, start: nat, pos: nat, text: Bytes)
    requires start <= pos < |p|
    ensures text + p[start..pos] + [p[pos]] == text + p[start..pos + 1]
  {
  }

  /** The inner loop: copies a label as far as the length and the output go. */
  method CopyLabel(p: Bytes, len: int, start: nat, labelLen: nat, out: array<Byte>, outStart: nat,
                   ghost text: Bytes, ghost before: Bytes)
      returns (inside: bool, pos: nat, outPos: nat, ghost longer: Bytes)
    requires start <= |p| && start <= len && outStart == |text| < out.Length && Holds(out[..], text, before)
    modifies out
    ensures
      var n := Copied(labelLen, len - start, out.Length - 1 - outStart);
      && (inside <==> start + n <= |p|)
      && (inside ==>
            && pos == start + n && longer == text + p[start..pos]
            && outPos == |longer| && Holds(out[..], longer, before))
  {
    pos, outPos, longer := start, outStart, text;
    var i := 0;
    while i < labelLen && pos < len && outPos < out.Length - 1
      invariant i <= labelLen && pos == start + i <= len && outPos == outStart + i <= out.Length - 1
      invariant pos <= |p| && longer == text + p[start..pos] && Holds(out[..], longer, before)
    {
      if pos >= |p| {
        return false, pos, outPos, longer;
      }
      OneByteMore(p, start, pos, text);
      outPos, longer := Put(p[pos], out, outPos, longer, before);
      pos, i := pos + 1, i + 1;
    }
    inside := true;
  }

  method Put(b: Byte, out: array<Byte>, at: nat, ghost text: Bytes, ghost before: Bytes)
      returns (next: nat, ghost longer: Bytes)
    requires at == |text| < out.Length && Holds(out[..], text, before)
    modifies out
    ensures longer == text + [b] && next == |longer| && Holds(out[..], longer, before)
  {
    out[at] := b;
    next, longer := at + 1, text + [b];
    assert out[..] == text + [b] + before[at + 1..];
  }

  /** Puts the terminator behind the text, or over a dot at its end. */
  method Finish(out: array<Byte>, outPos: nat, ghost text: Bytes, ghost before: Bytes)
    requires outPos == |text| < out.Length && Holds(out[..], text, before)
    modifies out
    ensures out[..] == Answer(before, text)
  {
    if outPos > 0 {
      assert out[outPos - 1] == text[outPos - 1];
      var end := outPos - (if out[outPos - 1] == DOT then 1 else 0);
      out[end] := 0;
      assert out[..] == Stripped(text) + [0] + before[end + 1..];
    }
  }

  // ----- Names as a resolver writes them -----

  predicate GoodLabels(labels: seq<Bytes>) {
    forall i :: 0 <= i < |labels| ==> 1 <= |labels[i]| <= 63
  }

  /** The labels, each behind its length. */
  function EncodeLabels(labels: seq<Bytes>): Bytes
    requires GoodLabels(labels)
    decreases |labels|
  {
    if labels == [] then [] else Vec8(labels[0]) + EncodeLabels(labels[1..])
  }

  /** A name ends with the empty label. */
  function EncodeName(labels: seq<Bytes>): Bytes
    requires GoodLabels(labels)
  {
    EncodeLabels(labels) + [0]
  }

  /** The labels, each with a dot behind it. */
  function Dotted(labels: seq<Bytes>): Bytes
    decreases |labels|
  {
    if labels == [] then [] else labels[0] + [DOT] + Dotted(labels[1..])
  }

  /** The labels with dots in between. */
  function Joined(labels: seq<Bytes>): Bytes
    decreases |labels|
  {
    if labels == [] then []
    else if |labels| == 1 then labels[0]
    else labels[0] + [DOT] + Joined(labels[1..])
  }

  function Cut(text: Bytes, room: nat): (r: Bytes)
    ensures |r| <= room
  {
    text[..Min(|text|, room)]
  }

  function SizeAll(labels: seq<Bytes>): nat
    decreases |labels|
  {
    if labels == [] then 0 else 1 + |labels[0]| + SizeAll(labels[1..])
  }

  predicate LaidLabel(p: Bytes, pos: nat, one: Bytes) {
    pos + 1 + |one| <= |p| && p[pos] == |one| && p[pos + 1..pos + 1 + |one|] == one
  }

  /** The labels are laid out in the bytes from pos on. */
  predicate Laid(p: Bytes, pos: nat, labels: seq<Bytes>)
    decreases |labels|
  {
    labels != [] ==> LaidLabel(p, pos, labels[0]) && Laid(p, pos + 1 + |labels[0]|, labels[1..])
  }

  lemma {:induction false} EncodedIsLaid(p: Bytes, pos: nat, labels: seq<Bytes>)
    requires GoodLabels(labels) && At(p, pos, EncodeLabels(labels))
    ensures |EncodeLabels(labels)| == SizeAll(labels) && Laid(p, pos, labels)
    decreases |labels|
  {
    if labels != [] {
      AtParts(p, pos, Vec8(labels[0]), EncodeLabels(labels[1..]));
      AtVec8(p, pos, labels[0]);
      AtSlice(p, pos + 1, labels[0]);
      EncodedIsLaid(p, pos + 1 + |labels[0]|, labels[1..]);
    }
  }

  lemma CutLabel(p: Bytes, start: nat, text: Bytes, one: Bytes, room: nat)
    requires |text| < room && start + |one| <= |p| && p[start..start + |one|] == one
    ensures
      var n := Min(|one|, room - |text|);
      WithLabel(p, start, n, room, text) == Cut(text + one + [DOT], room)
    ensures |text + one| < room ==> Cut(text + one + [DOT], room) == text + one + [DOT]
  {
    var n := Min(|one|, room - |text|);
    assert p[start..start + n] == one[..n];
    if |text + one| < room {
      assert one[..n] == one;
    } else {
      assert text + one[..n] == Cut(text + one + [DOT], room);
    }
  }

  /** The walk from pos on, with this text, ends with that text. */
  ghost predicate WalksTo(p: Bytes, len: int, pos: nat, room: nat, text: Bytes, result: Bytes) {
    |text| <= room && Reach(p, len, pos, room - |text|).Read? && Walk(p, len, pos, room, text) == result
  }

  lemma WalkEnd(p: Bytes, len: int, pos: nat, room: nat, text: Bytes, rest: Bytes)
    requires |text| == room || (|text| <= room && Ends(p, len, pos) && rest == [])
    ensures WalksTo(p, len, pos, room, text, Cut(text + rest, room))
  {
    assert Cut(text + rest, room) == text;
  }

  /** A label that is there in full is written as far as there is room, with a dot if there is room for that too. */
  lemma WalkLabel(p: Bytes, len: int, pos: nat, room: nat, text: Bytes, one: Bytes, result: Bytes)
    requires LaidLabel(p, pos, one) && 1 <= |one| <= 63 && |text| < room && pos + 1 + |one| <= len
    requires if |text + one| < room then WalksTo(p, len, pos + 1 + |one|, room, text + one + [DOT], result)
      else result == Cut(text + one + [DOT], room)
    ensures WalksTo(p, len, pos, room, text, result)
  {
    var n := Copied(|one|, len - pos - 1, room - |text|);
    WalkStep(p, len, pos, room, text);
    CutLabel(p, pos + 1, text, one, room);
    if |text + one| >= room {
      WalkEnd(p, len, pos + 1 + n, room, result, []);
    }
  }

  lemma Regroup(text: Bytes, one: Bytes, later: Bytes, room: nat)
    ensures text + one + [DOT] + later == text + (one + [DOT] + later)
    ensures |text + one| >= room ==> Cut(text + one + [DOT], room) == Cut(text + (one + [DOT] + later), room)
  {
  }

  /** Where the labels end: with the length, at the empty label, or at a byte that is no length of a label, such as
      that of a pointer. */
  predicate Ends(p: Bytes, len: int, end: nat) {
    end == len || (end < len && end < |p| && (p[end] == 0 || p[end] > 63))
  }

  /** The labels, each with a dot behind it, and more. */
  function DottedThen(labels: seq<Bytes>, more: Bytes): Bytes
    decreases |labels|
  {
    if labels == [] then more else labels[0] + [DOT] + DottedThen(labels[1..], more)
  }

  lemma {:induction false} DottedJoined(labels: seq<Bytes>, more: Bytes)
    ensures DottedThen(labels, more) == Dotted(labels) + more
    decreases |labels|
  {
    if labels != [] {
      DottedJoined(labels[1..], more);
    }
  }

  /** What follows the labels: their end, or a label of which only these bytes are there, by the length. */
  predicate Follows(p: Bytes, len: int, at: nat, cut: Option<Bytes>) {
    match cut
    case None => Ends(p, len, at)
    case Some(one) => len == at + 1 + |one| && len <= |p| && p[at + 1..len] == one && |one| < p[at] <= 63
  }

  function Behind(cut: Option<Bytes>): Bytes {
    match cut
    case None => []
    case Some(one) => one + [DOT]
  }

  lemma EndWritten(p: Bytes, len: int, at: nat, room: nat, text: Bytes, cut: Option<Bytes>)
    requires Follows(p, len, at, cut) && |text| < room
    ensures WalksTo(p, len, at, room, text, Cut(text + Behind(cut), room))
  {
    match cut
    case None => WalkEnd(p, len, at, room, text, []);
    case Some(one) =>
      var m := Copied(p[at], len - at - 1, room - |text|);
      WalkStep(p, len, at, room, text);
      CutLabel(p, at + 1, text, one, room);
      assert text + one + [DOT] == text + (one + [DOT]);
      WalkEnd(p, len, at + 1 + m, room, Cut(text + (one + [DOT]), room), []);
  }

  lemma {:induction false} WalkLaid(p: Bytes, len: int, pos: nat, room: nat, text: Bytes, labels: seq<Bytes>,
                                    cut: Option<Bytes>)
    requires GoodLabels(labels) && Laid(p, pos, labels) && |text| <= room
    requires pos + SizeAll(labels) <= len && Follows(p, len, pos + SizeAll(labels), cut)
    ensures WalksTo(p, len, pos, room, text, Cut(text + DottedThen(labels, Behind(cut)), room))
    decreases |labels|
  {
    if |text| == room {
      WalkEnd(p, len, pos, room, text, DottedThen(labels, Behind(cut)));
    } else if labels == [] {
      EndWritten(p, len, pos, room, text, cut);
    } else {
      var one, later := labels[0], labels[1..];
      Regroup(text, one, DottedThen(later, Behind(cut)), room);
      if |text + one| < room {
        WalkLaid(p, len, pos + 1 + |one|, room, text + one + [DOT], later, cut);
      }
      WalkLabel(p, len, pos, room, text, one, Cut(text + DottedThen(labels, Behind(cut)), room));
    }
  }

  lemma NameParts(p: Bytes, labels: seq<Bytes>)
    requires GoodLabels(labels) && At(p, HEADER, EncodeName(labels))
    ensures Laid(p, HEADER, labels) && |EncodeName(labels)| == SizeAll(labels) + 1
    ensures HEADER + SizeAll(labels) < |p| && p[HEADER + SizeAll(labels)] == 0
  {
    var end: Bytes := [0];
    AtParts(p, HEADER, EncodeLabels(labels), end);
    EncodedIsLaid(p, HEADER, labels);
    assert end[0] == p[HEADER + SizeAll(labels)];
  }

  lemma LaidText(p: Bytes, len: int, labels: seq<Bytes>, room: nat, cut: Option<Bytes>)
    requires GoodLabels(labels) && Laid(p, HEADER, labels)
    requires HEADER + SizeAll(labels) <= len && Follows(p, len, HEADER + SizeAll(labels), cut)
    ensures DnsText(p, len, room + 1) == Read(Cut(DottedThen(labels, Behind(cut)), room))
  {
    WalkLaid(p, len, HEADER, room, [], labels, cut);
    var text := DottedThen(labels, Behind(cut));
    assert [] + text == text;
    assert WalksTo(p, len, HEADER, room, [], Cut(text, room));
  }

  lemma LaidName(p: Bytes, len: int, labels: seq<Bytes>, outMax: nat)
    requires GoodLabels(labels) && Laid(p, HEADER, labels) && HEADER + SizeAll(labels) <= len && outMax > 0
    requires Ends(p, len, HEADER + SizeAll(labels))
    ensures DnsText(p, len, outMax) == Read(Cut(Dotted(labels), outMax - 1))
  {
    LaidText(p, len, labels, outMax - 1, None);
    DottedJoined(labels, []);
    assert Dotted(labels) + [] == Dotted(labels);
  }

  /** Round trip: the encoded name, with anything behind it, is read as its labels with a dot behind each, as far as
      the output goes, even if the length claims more than is held. */
  lemma NameRoundTrip(p: Bytes, len: int, labels: seq<Bytes>, outMax: nat)
    requires GoodLabels(labels) && At(p, HEADER, EncodeName(labels)) && outMax > 0
    requires len >= HEADER + |EncodeName(labels)|
    ensures DnsText(p, len, outMax) == Read(Cut(Dotted(labels), outMax - 1))
  {
    NameParts(p, labels);
    LaidName(p, len, labels, outMax);
  }

  /** The same for labels behind which the message ends, by its length, or a byte above 63 follows. */
  lemma LabelsThenEnd(p: Bytes, len: int, labels: seq<Bytes>, outMax: nat)
    requires GoodLabels(labels) && At(p, 12, EncodeLabels(labels)) && outMax > 0
    requires
      var end := 12 + |EncodeLabels(labels)|;
      len == end || (len > end && end < |p| && p[end] > 63)
    ensures DnsText(p, len, outMax) == Read(Cut(Dotted(labels), outMax - 1))
  {
    EncodedIsLaid(p, HEADER, labels);
    LaidName(p, len, labels, outMax);
  }

  /** A message that ends, by its length, within a label: the part that is there is read like a label. */
  lemma LastLabelIsCut(p: Bytes, len: int, labels: seq<Bytes>, one: Bytes, outMax: nat)
    requires GoodLabels(labels) && At(p, 12, EncodeLabels(labels)) && outMax > 0
    requires
      var at := 12 + |EncodeLabels(labels)|;
      len == at + 1 + |one| && len <= |p| && p[at + 1..len] == one && |one| < p[at] <= 63
    ensures DnsText(p, len, outMax) == Read(Cut(Dotted(labels) + (one + [0x2e]), outMax - 1))
  {
    EncodedIsLaid(p, HEADER, labels);
    LaidText(p, len, labels, outMax - 1, Some(one));
    DottedJoined(labels, one + [DOT]);
  }

  // ----- Reads beyond the bytes held -----

  /** Behind these labels, each with its dot, there is room and, by the length, more to come; but there the bytes end,
      at once or within the part of a label that would be copied. */
  predicate RunsOut(p: Bytes, len: int, at: nat, room: nat, labels: seq<Bytes>) {
    var used := SizeAll(labels);
    var end := at + used;
    && GoodLabels(labels) && Laid(p, at, labels) && used < room && end < len
    && (end < |p| ==> 1 <= p[end] <= MAX_LABEL && end + 1 + Copied(p[end], len - end - 1, room - used) > |p|)
  }

  lemma {:induction false} RanOut(p: Bytes, len: int, pos: nat, room: nat, labels: seq<Bytes>)
    requires RunsOut(p, len, pos, room, labels)
    ensures Reach(p, len, pos, room) == Beyond
    decreases |labels|
  {
    if labels != [] {
      var n := |labels[0]|;
      RanOut(p, len, pos + 1 + n, room - n - 1, labels[1..]);
    }
  }

  lemma RunsOutLater(p: Bytes, len: int, at: nat, room: nat, one: Bytes, later: seq<Bytes>)
    requires LaidLabel(p, at, one) && 1 <= |one| <= MAX_LABEL && |one| < room
    requires RunsOut(p, len, at + 1 + |one|, room - |one| - 1, later)
    ensures RunsOut(p, len, at, room, [one] + later)
  {
    var labels := [one] + later;
    assert labels[1..] == later && SizeAll(labels) == 1 + |one| + SizeAll(later);
  }

  lemma {:induction false} WhatRanOut(p: Bytes, len: int, pos: nat, room: nat) returns (labels: seq<Bytes>)
    requires Reach(p, len, pos, room) == Beyond
    ensures RunsOut(p, len, pos, room, labels)
    decreases len - pos
  {
    labels := [];
    if pos < |p| {
      var n := Copied(p[pos], len - pos - 1, room);
      if pos + 1 + n <= |p| {
        var later := WhatRanOut(p, len, pos + 1 + n, RoomAfter(room, n));
        RunsOutLater(p, len, pos, room, p[pos + 1..pos + 1 + n], later);
        labels := [p[pos + 1..pos + 1 + n]] + later;
      }
    }
  }

  /** The same for a message and an output of that many bytes. */
  predicate HoldsTooLittle(p: Bytes, len: int, outMax: nat, labels: seq<Bytes>) {
    len >= HEADER && outMax > 0 && RunsOut(p, len, HEADER, outMax - 1, labels)
  }

  lemma NeverBeyondOwnLength(p: Bytes, len: int, outMax: nat, labels: seq<Bytes>)
    requires len <= |p|
    ensures !HoldsTooLittle(p, len, outMax, labels)
  {
  }

  /** The walk reads beyond the bytes held exactly if they are the beginning of a name that they do not hold in full,
      that the length says is there, and for which there is room; so never if the length is that of the bytes. */
  lemma DnsBeyondMeaning(p: Bytes, len: int, outMax: nat)
    ensures DnsText(p, len, outMax) == Beyond <==> exists labels :: HoldsTooLittle(p, len, outMax, labels)
    ensures len <= |p| ==> DnsText(p, len, outMax).Read?
  {
    if DnsText(p, len, outMax) == Beyond {
      var labels := WhatRanOut(p, len, HEADER, outMax - 1);
      assert HoldsTooLittle(p, len, outMax, labels);
      if len <= |p| {
        NeverBeyondOwnLength(p, len, outMax, labels);
      }
    } else if labels :| HoldsTooLittle(p, len, outMax, labels) {
      RanOut(p, len, HEADER, outMax - 1, labels);
    }
  }

  /** A bare header in a UDP packet whose length field says 21, so that the length is 13. */
  lemma DnsLeadsBeyond(p: Bytes)
    requires |p| == HEADER
    ensures DnsText(p, 21 - 8, 64) == Beyond
  {
  }

  lemma {:induction false} StrippedIsJoined(labels: seq<Bytes>)
    requires labels != []
    ensures Dotted(labels) != [] && Stripped(Dotted(labels)) == Joined(labels)
    ensures Dotted(labels) == Joined(labels) + [DOT]
    decreases |labels|
  {
    if |labels| == 1 {
      assert labels[1..] == [];
    } else {
      StrippedIsJoined(labels[1..]);
    }
  }

  lemma JoinedAnswer(before: Bytes, joined: Bytes)
    requires |joined| + 1 < |before|
    ensures Answer(before, Cut(joined + [DOT], |before| - 1)) == joined + [0] + before[|joined| + 1..]
  {
    assert Cut(joined + [DOT], |before| - 1) == joined + [DOT];
    assert Stripped(joined + [DOT]) == joined;
  }

  lemma JoinedCut(before: Bytes, joined: Bytes)
    requires 1 < |before| <= |joined| + 1
    ensures
      var kept := joined[..|before| - 1];
      Answer(before, Cut(joined + [DOT], |before| - 1)) ==
        if kept[|kept| - 1] == DOT then kept[..|kept| - 1] + [0] + before[|kept|..] else kept + [0]
  {
    var kept := joined[..|before| - 1];
    assert Cut(joined + [DOT], |before| - 1) == kept;
    assert before[|kept| + 1..] == [];
  }

  /** The output for these labels. If there is room for them, they come out with dots in between, and a NUL behind
      them; if not, as much of that as there is room for, with a NUL behind it, or in place of a dot at its end. */
  ghost predicate ComesOut(labels: seq<Bytes>, before: Bytes, after: Bytes)
    requires |before| > 1
  {
    var joined := Joined(labels);
    if |joined| + 1 < |before| then after == joined + [0] + before[|joined| + 1..]
    else
      var kept := joined[..|before| - 1];
      after == if kept[|kept| - 1] == 0x2e then kept[..|kept| - 1] + [0] + before[|kept|..] else kept + [0]
  }

  lemma AnswerComesOut(labels: seq<Bytes>, before: Bytes)
    requires labels != [] && |before| > 1
    ensures ComesOut(labels, before, Answer(before, Cut(Dotted(labels), |before| - 1)))
  {
    StrippedIsJoined(labels);
    if |Joined(labels)| + 1 < |before| {
      JoinedAnswer(before, Joined(labels));
    } else {
      JoinedCut(before, Joined(labels));
    }
  }

  /** For every name of labels of 1 to 63 bytes, behind a header of 12, and every output of more than one byte. */
  lemma NameComesOut(p: Bytes, len: int, labels: seq<Bytes>, before: Bytes)
    requires GoodLabels(labels) && labels != [] && At(p, 12, EncodeName(labels)) && len >= 12 + |EncodeName(labels)|
    requires |before| > 1
    ensures DnsText(p, len, |before|).Read?
    ensures ComesOut(labels, before, Answer(before, DnsText(p, len, |before|).value))
  {
    NameRoundTrip(p, len, labels, |before|);
    AnswerComesOut(labels, before);
  }
}

/** The server name in a TLS ClientHello (section 4.1.2 of RFC 8446, section 3 of RFC 6066). */
module TlsSni {
  import opened Words
  import opened NetworkBytes

  // Bytes before the session id: record header, handshake header, version and random.
  const LEAD: nat := 43

  // Where the name is, as far as it is copied.
  datatype Lookup = Absent | Found(at: nat, len: nat)

  /** The specification of the walk over the hello, with room for so many bytes of the name. The length is what the
      headers in front of the payload say, which nobody compares with the bytes p that are held; every read is
      checked. */
  function FindSni(p: Bytes, len: int, room: nat): (found: Checked<Lookup>)
    ensures Inside(found, |p|, room)
  {
    if len < LEAD then Read(Absent)
    else
      var contentType :- ByteAt(p, 0);
      if contentType != 0x16 then Read(Absent)
      else
        var messageType :- ByteAt(p, 5);
        if messageType != 0x01 then Read(Absent)
        else
          var sidLen :- ByteAt(p, LEAD);
          AfterSessionId(p, len, room, LEAD + 1 + sidLen)
  }

  /** A name that was found lies before `end`, and there is room for it. */
  predicate Inside(found: Checked<Lookup>, end: nat, room: nat) {
    found.Read? && found.value.Found? ==> found.value.at + found.value.len <= end && found.value.len <= room
  }

  function AfterSessionId(p: Bytes, len: int, room: nat, pos: nat): (found: Checked<Lookup>)
    ensures Inside(found, |p|, room)
  {
    if pos + 2 >= len then Read(Absent)
    else
      var csLen :- U16At(p, pos);
      AfterCiphers(p, len, room, pos + 2 + csLen)
  }

  function AfterCiphers(p: Bytes, len: int, room: nat, pos: nat): (found: Checked<Lookup>)
    ensures Inside(found, |p|, room)
  {
    if pos + 1 >= len then Read(Absent)
    else
      var compLen :- ByteAt(p, pos);
      AfterCompression(p, len, room, pos + 1 + compLen)
  }

  function AfterCompression(p: Bytes, len: int, room: nat, pos: nat): (found: Checked<Lookup>)
    ensures Inside(found, |p|, room)
  {
    if pos + 2 >= len then Read(Absent)
    else
      var extTotalLen :- U16At(p, pos);
      FindExtension(p, room, pos + 2, Min(pos + 2 + extTotalLen, len))
  }

  function FindExtension(p: Bytes, room: nat, pos: nat, end: nat): (found: Checked<Lookup>)
    ensures Inside(found, |p|, room)
    decreases end - pos
  {
    if pos + 4 > end then Read(Absent)
    else
      var kind :- U16At(p, pos);
      var len :- U16At(p, pos + 2);
      var at := pos + 4;
      if kind == 0 && at + 5 <= end then
        var nameLen :- U16At(p, at + 3);
        if at + 5 + nameLen <= end then
          var name :- Extent(p, at + 5, Min(nameLen, room));
          Read(Found(name, Min(nameLen, room)))
        else FindExtension(p, room, at + len, end)
      else FindExtension(p, room, at + len, end)
  }

  /** The name that was found. */
  function Name(p: Bytes, found: Lookup): Bytes
    requires found.Found? && found.at + found.len <= |p|
  {
    p[found.at..found.at + found.len]
  }

  /** What the output holds afterwards. */
  function Answer(before: Bytes, p: Bytes, found: Checked<Lookup>): Bytes
    requires before != [] && Inside(found, |p|, |before| - 1)
  {
    if found.Read? && found.value.Found? then Terminated(before, Name(p, found.value)) else before
  }

  method CopyName(name: Bytes, out: array<Byte>)
    requires |name| < out.Length
    modifies out
    ensures out[..] == Terminated(old(out[..]), name)
  {
    forall i | 0 <= i < |name| {
      out[i] := name[i];
    }
    out[|name|] := 0;
    assert out[|name| + 1..] == old(out[..])[|name| + 1..];
  }

  /** dissect_tls_sni; p are the bytes held from the payload on. The result, which the source does not return, says what
      was found, or that the source reads beyond the bytes held, where the model stops. */
  method DissectTlsSni(p: Bytes, len: int, out: array<Byte>) returns (found: Checked<Lookup>)
    requires out.Length >= 1
    modifies out
    ensures found == FindSni(p, len, out.Length - 1) && out[..] == Answer(old(out[..]), p, found)
  {
    if len < 43 {
      return Read(Absent);
    }
    var contentType :- ByteAt(p, 0);
    if contentType != 0x16 {
      return Read(Absent);
    }
    var messageType :- ByteAt(p, 5);
    if messageType != 0x01 {
      return Read(Absent);
    }
    var pos := 5 + 38;
    var sidLen :- ByteAt(p, pos);
    pos := pos + 1 + sidLen;
    if pos + 2 >= len {
      return Read(Absent);
    }
    var csLen :- U16At(p, pos);
    found := SkipCompression(p, len, pos + 2 + csLen, out);
  }

  /** The rest of it, from the compression methods on. */
  method SkipCompression(p: Bytes, len: int, start: nat, out: array<Byte>) returns (found: Checked<Lookup>)
    requires out.Length >= 1
    modifies out
    ensures found == AfterCiphers(p, len, out.Length - 1, start) && out[..] == Answer(old(out[..]), p, found)
  {
    if start + 1 >= len {
      return Read(Absent);
    }
    var compLen :- ByteAt(p, start);
    var pos := start + 1 + compLen;
    if pos + 2 >= len {
      return Read(Absent);
    }
    var extTotalLen :- U16At(p, pos);
    pos := pos + 2;
    found := ScanExtensions(p, pos, Min(pos + extTotalLen, len), out);
  }

  /** Its loop over the extensions. */
  method ScanExtensions(p: Bytes, start: nat, extEnd: nat, out: array<Byte>) returns (found: Checked<Lookup>)
    requires out.Length >= 1
    modifies out
    ensures found == FindExtension(p, out.Length - 1, start, extEnd) && out[..] == Answer(old(out[..]), p, found)
  {
    var pos := start;
    while pos + 4 <= extEnd
      invariant pos >= 0
      invariant out[..] == old(out[..])
      invariant FindExtension(p, out.Length - 1, start, extEnd) == FindExtension(p, out.Length - 1, pos, extEnd)
    {
      var extType :- U16At(p, pos);
      var extLen :- U16At(p, pos + 2);
      pos := pos + 4;
      if extType == 0 && pos + 5 <= extEnd {
        var nameLen :- U16At(p, pos + 3);
        if pos + 5 + nameLen <= extEnd {
          var actualCopy := Min(nameLen, out.Length - 1);
          var name :- BytesAt(p, pos + 5, actualCopy);
          CopyName(name, out);
          return Read(Found(pos + 5, actualCopy));
        }
      }
      pos := pos + extLen;
    }
    return Read(Absent);
  }

  // ----- The ClientHello itself -----

  // A server_name extension holds a list of names, of which the first matters; the head of the list is its length and
  // the type of that name.
  datatype Extension =
    | ServerName(listHead: Bytes, host: Bytes, more: Bytes)
    | Other(kind: U16, data: Bytes)

  datatype Hello = Hello(lead: Bytes, sessionId: Bytes, ciphers: Bytes, compression: Bytes, extensions: seq<Extension>)

  function ExtensionData(e: Extension): Bytes
    requires e.ServerName? ==> |e.host| < 0x1_0000
  {
    match e
    case ServerName(listHead, host, more) => listHead + (Vec16(host) + more)
    case Other(_, data) => data
  }

  predicate GoodExtension(e: Extension) {
    && (e.ServerName? ==> |e.listHead| == 3 && |e.host| < 0x1_0000)
    && |ExtensionData(e)| < 0x1_0000
    && (e.Other? ==> e.kind != 0)
  }

  predicate AllGood(es: seq<Extension>) {
    forall i :: 0 <= i < |es| ==> GoodExtension(es[i])
  }

  function EncodeExtension(e: Extension): (b: Bytes)
    requires GoodExtension(e)
    ensures |b| == 4 + |ExtensionData(e)|
  {
    PutBe16(if e.ServerName? then 0 else e.kind) + Vec16(ExtensionData(e))
  }

  function EncodeExtensions(es: seq<Extension>): Bytes
    requires AllGood(es)
  {
    if es == [] then [] else EncodeExtension(es[0]) + EncodeExtensions(es[1..])
  }

  predicate WellFormed(h: Hello) {
    && |h.lead| == 43 && h.lead[0] == 0x16 && h.lead[5] == 0x01
    && |h.sessionId| < 0x100 && |h.ciphers| < 0x1_0000 && |h.compression| < 0x100
    && AllGood(h.extensions) && |EncodeExtensions(h.extensions)| < 0x1_0000
  }

  function Encode(h: Hello): Bytes
    requires WellFormed(h)
  {
    h.lead + (Vec8(h.sessionId) + (Vec16(h.ciphers) + (Vec8(h.compression) + Vec16(EncodeExtensions(h.extensions)))))
  }

  /** The host name of the first server_name extension, if there is one. */
  function FirstName(es: seq<Extension>): Option<Bytes> {
    if es == [] then None
    else if es[0].ServerName? then Some(es[0].host)
    else FirstName(es[1..])
  }

  /** Where that name is, if the extensions are encoded from position pos on, and how much of it there is room for. */
  function FirstAt(room: nat, pos: nat, es: seq<Extension>): Lookup
    requires AllGood(es)
    decreases |es|
  {
    if es == [] then Absent
    else if es[0].ServerName? then Found(pos + 9, Min(|es[0].host|, room))
    else FirstAt(room, pos + 4 + |ExtensionData(es[0])|, es[1..])
  }

  lemma ExtensionAt(p: Bytes, pos: nat, e: Extension)
    requires GoodExtension(e) && At(p, pos, EncodeExtension(e))
    ensures Be16(p, pos) == if e.ServerName? then 0 else e.kind
    ensures Be16(p, pos + 2) == |ExtensionData(e)| && At(p, pos + 4, ExtensionData(e))
  {
    var kind := if e.ServerName? then 0 else e.kind;
    AtParts(p, pos, PutBe16(kind), Vec16(ExtensionData(e)));
    AtBe16(p, pos, kind);
    AtVec16(p, pos + 2, ExtensionData(e));
  }

  lemma ServerNameAt(p: Bytes, pos: nat, e: Extension)
    requires GoodExtension(e) && e.ServerName? && At(p, pos, EncodeExtension(e))
    ensures Be16(p, pos + 7) == |e.host| && At(p, pos + 9, e.host)
  {
    ExtensionAt(p, pos, e);
    AtParts(p, pos + 4, e.listHead, Vec16(e.host) + e.more);
    AtParts(p, pos + 7, Vec16(e.host), e.more);
    AtVec16(p, pos + 7, e.host);
  }

  lemma {:induction false} FoundNameIsFirst(p: Bytes, room: nat, pos: nat, es: seq<Extension>)
    requires AllGood(es) && At(p, pos, EncodeExtensions(es))
    ensures
      var found := FirstAt(room, pos, es);
      match FirstName(es)
      case None => found == Absent
      case Some(host) => found.Found? && found.len == Min(|host|, room) && At(p, found.at, host)
    decreases |es|
  {
    if es != [] {
      AtParts(p, pos, EncodeExtension(es[0]), EncodeExtensions(es[1..]));
      if es[0].ServerName? {
        ServerNameAt(p, pos, es[0]);
      } else {
        FoundNameIsFirst(p, room, pos + 4 + |ExtensionData(es[0])|, es[1..]);
      }
    }
  }

  /** What the walk does at an extension, whether all of it is there (len <= end - at) or it is cut. */
  lemma WalkStep(p: Bytes, room: nat, pos: nat, e: Extension, end: nat)
    requires GoodExtension(e) && At(p, pos, EncodeExtension(e))
    ensures
      var after := pos + 4 + |ExtensionData(e)|;
      var found := FindExtension(p, room, pos, end);
      var name := Found(pos + 9, if e.ServerName? then Min(|e.host|, room) else 0);
      if after <= end then found == if e.ServerName? then Read(name) else FindExtension(p, room, after, end)
      else found == Read(Absent) || (e.ServerName? && found == Read(name))
  {
    ExtensionAt(p, pos, e);
    var after := pos + 4 + |ExtensionData(e)|;
    assert after > end ==> FindExtension(p, room, after, end) == Read(Absent);
    if e.ServerName? {
      ServerNameAt(p, pos, e);
    }
  }

  /** The walk up to some end within the extensions: the name if it is there, or nothing if it may be cut. */
  lemma {:induction false} WalkFindsFirst(p: Bytes, room: nat, pos: nat, es: seq<Extension>, end: nat)
    requires AllGood(es) && At(p, pos, EncodeExtensions(es)) && end <= pos + |EncodeExtensions(es)|
    ensures FindExtension(p, room, pos, end) == Read(FirstAt(room, pos, es))
      || (end < pos + |EncodeExtensions(es)| && FindExtension(p, room, pos, end) == Read(Absent))
    decreases |es|
  {
    if es != [] {
      var after := pos + 4 + |ExtensionData(es[0])|;
      AtParts(p, pos, EncodeExtension(es[0]), EncodeExtensions(es[1..]));
      WalkStep(p, room, pos, es[0], end);
      if after <= end {
        WalkFindsFirst(p, room, after, es[1..], end);
      }
    }
  }

  // Where the parts of a hello end.

  function CiphersAt(h: Hello): nat {
    LEAD + 1 + |h.sessionId|
  }

  function CompressionAt(h: Hello): nat {
    CiphersAt(h) + 2 + |h.ciphers|
  }

  function ExtensionsAt(h: Hello): nat {
    CompressionAt(h) + 1 + |h.compression|
  }

  /** The parts of a hello, each in its place. */
  lemma HelloParts(h: Hello, p: Bytes)
    requires WellFormed(h) && At(p, 0, Encode(h))
    ensures p[0] == 0x16 && p[5] == 0x01
    ensures p[LEAD] == |h.sessionId| && Be16(p, CiphersAt(h)) == |h.ciphers| && p[CompressionAt(h)] == |h.compression|
    ensures At(p, ExtensionsAt(h), Vec16(EncodeExtensions(h.extensions)))
  {
    var extensions := Vec16(EncodeExtensions(h.extensions));
    var compression, ciphers, sessionId := Vec8(h.compression), Vec16(h.ciphers), Vec8(h.sessionId);
    AtParts(p, 0, h.lead, sessionId + (ciphers + (compression + extensions)));
    assert h.lead[0] == p[0] && h.lead[5] == p[5];
    AtParts(p, LEAD, sessionId, ciphers + (compression + extensions));
    AtVec8(p, LEAD, h.sessionId);
    AtParts(p, CiphersAt(h), ciphers, compression + extensions);
    AtVec16(p, CiphersAt(h), h.ciphers);
    AtParts(p, CompressionAt(h), compression, extensions);
    AtVec8(p, CompressionAt(h), h.compression);
  }

  /** The walk up to the extensions goes by three lengths; it ends early only with the length. */
  lemma ReachExtensions(p: Bytes, len: int, room: nat, sessionId: nat, ciphers: nat, compression: nat)
    requires |p| > LEAD && p[0] == 0x16 && p[5] == 0x01 && p[LEAD] == sessionId
    requires
      var at := LEAD + 1 + sessionId;
      at + 1 < |p| && Be16(p, at) == ciphers
    requires
      var at := LEAD + 1 + sessionId + 2 + ciphers;
      at < |p| && p[at] == compression
    ensures
      var at := LEAD + 1 + sessionId + 2 + ciphers + 1 + compression;
      || FindSni(p, len, room) == AfterCompression(p, len, room, at)
      || (len <= at && FindSni(p, len, room) == Read(Absent))
  {
  }

  lemma ExtensionsRead(p: Bytes, len: int, room: nat, pos: nat, body: nat)
    requires pos + 1 < |p| && Be16(p, pos) == body
    ensures
      var end := Min(pos + 2 + body, len);
      if pos + 2 >= len then AfterCompression(p, len, room, pos) == Read(Absent)
      else AfterCompression(p, len, room, pos) == FindExtension(p, room, pos + 2, end)
  {
  }

  lemma ExtensionsFound(p: Bytes, len: int, room: nat, pos: nat, es: seq<Extension>)
    requires AllGood(es) && |EncodeExtensions(es)| < 0x1_0000 && At(p, pos, Vec16(EncodeExtensions(es)))
    ensures AfterCompression(p, len, room, pos) == Read(FirstAt(room, pos + 2, es))
      || (len < pos + 2 + |EncodeExtensions(es)| && AfterCompression(p, len, room, pos) == Read(Absent))
  {
    var body := EncodeExtensions(es);
    AtVec16(p, pos, body);
    ExtensionsRead(p, len, room, pos, |body|);
    if pos + 2 < len {
      WalkFindsFirst(p, room, pos + 2, es, Min(pos + 2 + |body|, len));
    }
  }

  lemma HelloWalk(h: Hello, p: Bytes, len: int, room: nat)
    requires WellFormed(h) && At(p, 0, Encode(h))
    ensures FindSni(p, len, room) == Read(FirstAt(room, ExtensionsAt(h) + 2, h.extensions))
      || (len < |Encode(h)| && FindSni(p, len, room) == Read(Absent))
  {
    HelloParts(h, p);
    ReachExtensions(p, len, room, |h.sessionId|, |h.ciphers|, |h.compression|);
    ExtensionsFound(p, len, room, ExtensionsAt(h), h.extensions);
  }

  /** The first host name in the hello, as far as there is room for it. */
  function FirstCut(h: Hello, room: nat): Option<Bytes> {
    match FirstName(h.extensions)
    case None => None
    case Some(host) => Some(host[..Min(|host|, room)])
  }

  lemma NameIsFirst(h: Hello, p: Bytes, room: nat)
    requires WellFormed(h) && At(p, 0, Encode(h))
    ensures
      var found := FirstAt(room, ExtensionsAt(h) + 2, h.extensions);
      match FirstCut(h, room)
      case None => found == Absent
      case Some(host) => found.Found? && found.at + found.len <= |p| && Name(p, found) == host
  {
    HelloParts(h, p);
    AtVec16(p, ExtensionsAt(h), EncodeExtensions(h.extensions));
    FoundNameIsFirst(p, room, ExtensionsAt(h) + 2, h.extensions);
    if FirstName(h.extensions).Some? {
      var host, at := FirstName(h.extensions).value, FirstAt(room, ExtensionsAt(h) + 2, h.extensions).at;
      AtSlice(p, at, host);
      assert host[..Min(|host|, room)] == p[at..at + Min(|host|, room)];
    }
  }

  /** Round trip: wherever the server_name extension sits, its host name is what the walk finds in the encoded hello,
      as far as there is room for it, whatever follows and however much the length claims; and nothing is found when
      no such extension is there. */
  lemma HelloRoundTrip(h: Hello, p: Bytes, len: int, room: nat)
    requires WellFormed(h) && At(p, 0, Encode(h)) && len >= |Encode(h)|
    ensures
      var found := FindSni(p, len, room);
      match FirstCut(h, room)
      case None => found == Read(Absent)
      case Some(host) => found.Read? && found.value.Found? && Name(p, found.value) == host
  {
    HelloWalk(h, p, len, room);
    NameIsFirst(h, p, room);
  }

  /** What the output holds afterwards: as much of that name as there is room for, then a NUL, and behind it what was
      there before; or all that was there before, if there is no such name. */
  lemma HelloOutput(h: Hello, p: Bytes, len: int, before: Bytes)
    requires WellFormed(h) && At(p, 0, Encode(h)) && len >= |Encode(h)| && before != []
    ensures
      var after := Answer(before, p, FindSni(p, len, |before| - 1));
      match FirstName(h.extensions)
      case None => after == before
      case Some(host) =>
        if |host| < |before| then after == host + [0] + before[|host| + 1..]
        else after == host[..|before| - 1] + [0]
  {
    HelloRoundTrip(h, p, len, |before| - 1);
    if FirstName(h.extensions).Some? {
      var host := FirstName(h.extensions).value;
      if |host| < |before| {
        assert host[..Min(|host|, |before| - 1)] == host;
      } else {
        assert before[|before| - 1 + 1..] == [];
      }
    }
  }

  // ----- Hellos that were cut short -----

  lemma {:induction false} SameWalk(p: Bytes, q: Bytes, room: nat, pos: nat, end: nat)
    requires At(q, 0, p) && FindExtension(p, room, pos, end).Read?
    ensures FindExtension(q, room, pos, end) == FindExtension(p, room, pos, end)
    decreases end - pos
  {
    if pos + 4 <= end {
      SameBe16(p, q, pos);
      SameBe16(p, q, pos + 2);
      var kind, after := Be16(p, pos), pos + 4 + Be16(p, pos + 2);
      if kind == 0 && pos + 9 <= end {
        SameBe16(p, q, pos + 7);
        if pos + 9 + Be16(p, pos + 7) > end {
          SameWalk(p, q, room, after, end);
        }
      } else {
        SameWalk(p, q, room, after, end);
      }
    }
  }

  lemma SameCompression(p: Bytes, q: Bytes, len: int, room: nat, pos: nat)
    requires At(q, 0, p) && AfterCompression(p, len, room, pos).Read?
    ensures AfterCompression(q, len, room, pos) == AfterCompression(p, len, room, pos)
  {
    if pos + 2 < len {
      SameBe16(p, q, pos);
      SameWalk(p, q, room, pos + 2, Min(pos + 2 + Be16(p, pos), len));
    }
  }

  lemma SameCiphers(p: Bytes, q: Bytes, len: int, room: nat, pos: nat)
    requires At(q, 0, p) && AfterSessionId(p, len, room, pos).Read?
    ensures AfterSessionId(q, len, room, pos) == AfterSessionId(p, len, room, pos)
  {
    if pos + 2 < len {
      SameBe16(p, q, pos);
      var next := pos + 2 + Be16(p, pos);
      if next + 1 < len {
        assert p[next] == q[0 + next];
        SameCompression(p, q, len, room, next + 1 + p[next]);
      }
    }
  }

  /** While all reads stay inside the bytes held, what lies behind them does not matter. */
  lemma MoreBytes(p: Bytes, q: Bytes, len: int, room: nat)
    requires At(q, 0, p) && FindSni(p, len, room).Read?
    ensures FindSni(q, len, room) == FindSni(p, len, room)
  {
    if len >= LEAD {
      assert p[0] == q[0 + 0];
      if p[0] == 0x16 {
        assert p[5] == q[0 + 5];
        if p[5] == 0x01 {
          assert p[LEAD] == q[0 + LEAD];
          SameCiphers(p, q, len, room, LEAD + 1 + p[LEAD]);
        }
      }
    }
  }

  lemma SameName(p: Bytes, q: Bytes, found: Lookup)
    requires At(q, 0, p) && found.Found? && found.at + found.len <= |p|
    ensures Name(p, found) == Name(q, found)
  {
    AtSlice(q, 0, p);
    assert p == q[..|p|];
  }

  /** A hello of which only a beginning is held gives the right name or none, whatever the length says; and all reads
      stay inside what is held if the length is not more than that, and it is not the 43 bytes before the session id.
      */
  lemma CutHelloIsNeverWrong(h: Hello, p: Bytes, len: int, room: nat)
    requires WellFormed(h) && At(Encode(h), 0, p)
    ensures
      var found := FindSni(p, len, room);
      && (found.Read? && found.value.Found? ==> FirstCut(h, room) == Some(Name(p, found.value)))
      && (len <= |p| && |p| != LEAD ==> found.Read?)
  {
    var found := FindSni(p, len, room);
    if found.Read? && found.value.Found? {
      var q := Encode(h);
      MoreBytes(p, q, len, room);
      HelloWalk(h, q, len, room);
      NameIsFirst(h, q, room);
      SameName(p, q, found.value);
    }
    if len <= |p| {
      BeyondOwnLength(p, len, room);
    }
  }

  // ----- Reads beyond the bytes held -----

  lemma {:induction false} ExtensionsInReach(p: Bytes, room: nat, pos: nat, end: nat)
    requires end <= |p|
    ensures FindExtension(p, room, pos, end).Read?
    decreases end - pos
  {
    if pos + 4 <= end {
      ExtensionsInReach(p, room, pos + 4 + Be16(p, pos + 2), end);
    }
  }

  lemma CompressionInReach(p: Bytes, len: int, room: nat, pos: nat)
    requires len <= |p|
    ensures AfterCompression(p, len, room, pos).Read?
  {
    if pos + 2 < len {
      ExtensionsInReach(p, room, pos + 2, Min(pos + 2 + Be16(p, pos), len));
    }
  }

  lemma SessionIdInReach(p: Bytes, len: int, room: nat, pos: nat)
    requires len <= |p|
    ensures AfterSessionId(p, len, room, pos).Read?
  {
    if pos + 2 < len {
      var next := pos + 2 + Be16(p, pos);
      if next + 1 < len {
        CompressionInReach(p, len, room, next + 1 + p[next]);
      }
    }
  }

  /** If the length says no more than is held, only the read of the session id's length can leave the bytes, and it
      does so exactly for 43 bytes that begin like a hello. */
  lemma BeyondOwnLength(p: Bytes, len: int, room: nat)
    requires len <= |p|
    ensures FindSni(p, len, room) == Beyond <==> len == |p| == 43 && p[0] == 0x16 && p[5] == 0x01
  {
    if |p| > LEAD {
      SessionIdInReach(p, len, room, LEAD + 1 + p[LEAD]);
    }
  }

  // The type and length of an extension.
  datatype Head = Head(kind: U16, len: U16)

  /** It is held whole as far as the walk reads it, and does not hold a name that lies before the end. */
  predicate PassedBy(p: Bytes, pos: nat, x: Head, end: nat) {
    && pos + 4 <= |p| && Be16(p, pos) == x.kind && Be16(p, pos + 2) == x.len
    && (x.kind == 0 && pos + 9 <= end ==> pos + 9 <= |p| && pos + 9 + Be16(p, pos + 7) > end)
  }

  /** Where the next extension begins, by these lengths. */
  function After(pos: nat, xs: seq<Head>): nat
    decreases |xs|
  {
    if xs == [] then pos else After(pos + 4 + xs[0].len, xs[1..])
  }

  predicate AllPassedBy(p: Bytes, pos: nat, xs: seq<Head>, end: nat)
    decreases |xs|
  {
    xs != [] ==> PassedBy(p, pos, xs[0], end) && AllPassedBy(p, pos + 4 + xs[0].len, xs[1..], end)
  }

  /** Here another extension begins before the end, of which the type, the lengths or the part of the name that there is
      room for is not all held. */
  predicate BreaksOff(p: Bytes, room: nat, pos: nat, end: nat) {
    && pos + 4 <= end
    && (pos + 4 <= |p| ==>
          && Be16(p, pos) == 0 && pos + 9 <= end
          && (pos + 9 <= |p| ==>
                var n := Be16(p, pos + 7);
                pos + 9 + n <= end && pos + 9 + Min(n, room) > |p|))
  }

  predicate RunsOut(p: Bytes, room: nat, pos: nat, end: nat, xs: seq<Head>) {
    AllPassedBy(p, pos, xs, end) && BreaksOff(p, room, After(pos, xs), end)
  }

  lemma {:induction false} RanOut(p: Bytes, room: nat, pos: nat, end: nat, xs: seq<Head>)
    requires RunsOut(p, room, pos, end, xs)
    ensures pos <= After(pos, xs) && FindExtension(p, room, pos, end) == Beyond
    decreases |xs|
  {
    if xs != [] {
      RanOut(p, room, pos + 4 + xs[0].len, end, xs[1..]);
    }
  }

  lemma {:induction false} WhatRanOut(p: Bytes, room: nat, pos: nat, end: nat) returns (xs: seq<Head>)
    requires FindExtension(p, room, pos, end) == Beyond
    ensures RunsOut(p, room, pos, end, xs)
    decreases end - pos
  {
    xs := [];
    if !BreaksOff(p, room, pos, end) {
      var x := Head(Be16(p, pos), Be16(p, pos + 2));
      var later := WhatRanOut(p, room, pos + 4 + x.len, end);
      xs := [x] + later;
      assert xs[1..] == later;
    }
  }

  // The fields in front of the extensions, from the last to the first: by the length this one is there, but it is not
  // held, or a later one is not.

  predicate RunsOutAfter(p: Bytes, len: int, room: nat, pos: nat, xs: seq<Head>)
    requires pos + 2 < len && pos + 2 <= |p|
  {
    RunsOut(p, room, pos + 2, Min(pos + 2 + Be16(p, pos), len), xs)
  }

  ghost predicate ExtensionsRunOut(p: Bytes, len: int, room: nat, pos: nat) {
    pos + 2 < len && (pos + 2 <= |p| ==> exists xs :: RunsOutAfter(p, len, room, pos, xs))
  }

  ghost predicate CompressionRunsOut(p: Bytes, len: int, room: nat, pos: nat) {
    pos + 1 < len && (pos < |p| ==> ExtensionsRunOut(p, len, room, pos + 1 + p[pos]))
  }

  ghost predicate CiphersRunOut(p: Bytes, len: int, room: nat, pos: nat) {
    pos + 2 < len && (pos + 2 <= |p| ==> CompressionRunsOut(p, len, room, pos + 2 + Be16(p, pos)))
  }

  /** As far as they are held, the two types are those of a hello. */
  predicate BeginsLikeHello(p: Bytes) {
    (|p| > 0 ==> p[0] == 0x16) && (|p| > 5 ==> p[5] == 0x01)
  }

  lemma ExtensionsBeyond(p: Bytes, len: int, room: nat, pos: nat)
    ensures AfterCompression(p, len, room, pos) == Beyond <==> ExtensionsRunOut(p, len, room, pos)
  {
    if pos + 2 < len && pos + 2 <= |p| {
      var end := Min(pos + 2 + Be16(p, pos), len);
      if FindExtension(p, room, pos + 2, end) == Beyond {
        var xs := WhatRanOut(p, room, pos + 2, end);
        assert RunsOutAfter(p, len, room, pos, xs);
      } else if xs :| RunsOutAfter(p, len, room, pos, xs) {
        RanOut(p, room, pos + 2, end, xs);
      }
    }
  }

  lemma CiphersBeyond(p: Bytes, len: int, room: nat, pos: nat)
    ensures AfterSessionId(p, len, room, pos) == Beyond <==> CiphersRunOut(p, len, room, pos)
  {
    if pos + 2 < len && pos + 2 <= |p| {
      var next := pos + 2 + Be16(p, pos);
      if next + 1 < len && next < |p| {
        ExtensionsBeyond(p, len, room, next + 1 + p[next]);
      }
    }
  }

  /** When the walk reads beyond the bytes held: they begin like a hello and end before a field that is there by the
      length, be it the types or the session id in front, one of the lengths, or a later extension or the name in it.
      */
  lemma BeyondMeaning(p: Bytes, len: int, room: nat)
    ensures FindSni(p, len, room) == Beyond <==>
      && len >= LEAD && BeginsLikeHello(p)
      && (|p| > LEAD ==> CiphersRunOut(p, len, room, LEAD + 1 + p[LEAD]))
  {
    if |p| > LEAD {
      CiphersBeyond(p, len, room, LEAD + 1 + p[LEAD]);
    }
  }
}

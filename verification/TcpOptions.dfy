/** The option list of a TCP header (section 3.2 of RFC 9293, section 3 of RFC 2018), and its two readers. */
module TcpOptions {
  import opened Words
  import opened NetworkBytes

  datatype Opt = Opt(kind: Byte, data: Bytes)

  const EDGES_SIZE: nat := 32

  /** The fields of a packet record that options set. */
  datatype Fields = Fields(
    mss: U16, ws: Byte, sack: Byte, sackEdges: Bytes, tsVal: U32, tsEcr: U32, hasAo: Byte)

  /** The options from position k on: NOPs are skipped, and the list ends at an end-of-list mark, at an option whose
      length is wrong, or where the bytes end. */
  function Parse(opts: Bytes, k: nat): (os: seq<Opt>)
    requires k <= |opts|
    decreases |opts| - k
  {
    if k == |opts| || opts[k] == 0 then []
    else if opts[k] == 1 then Parse(opts, k + 1)
    else if Broken(opts, k) then []
    else [Opt(opts[k], opts[k + 2..k + opts[k + 1]])] + Parse(opts, k + opts[k + 1])
  }

  predicate Broken(opts: Bytes, k: nat)
    requires k < |opts|
  {
    k + 1 >= |opts| || opts[k + 1] < 2 || k + opts[k + 1] > |opts|
  }

  function SackBytes(data: Bytes): (n: nat)
    ensures n <= |data| && n <= EDGES_SIZE
  {
    8 * Min(|data| / 8, 4)
  }

  /** What one option does to the fields. */
  function Update(f: Fields, o: Opt): (r: Fields)
    requires |f.sackEdges| == EDGES_SIZE
    ensures |r.sackEdges| == EDGES_SIZE
  {
    if o.kind == 2 && |o.data| == 2 then f.(mss := Be16(o.data, 0))
    else if o.kind == 3 && |o.data| == 1 then f.(ws := o.data[0])
    else if o.kind == 4 && |o.data| == 0 then f.(sack := 1)
    else if o.kind == 5 && |o.data| >= 8 then
      f.(sackEdges := o.data[..SackBytes(o.data)] + f.sackEdges[SackBytes(o.data)..])
    else if o.kind == 8 && |o.data| == 8 then f.(tsVal := Be32(o.data, 0), tsEcr := Be32(o.data, 4))
    else if o.kind == 29 then f.(hasAo := 1)
    else f
  }

  function UpdateAll(f: Fields, os: seq<Opt>): (r: Fields)
    requires |f.sackEdges| == EDGES_SIZE
    ensures |r.sackEdges| == EDGES_SIZE
    decreases |os|
  {
    if os == [] then f else UpdateAll(Update(f, os[0]), os[1..])
  }

  /** The part of a packet record that parse_tcp_options_extended writes to. */
  class OptionFields {
    var tcpMss: U16
    var tcpWs: Byte
    var tcpSack: Byte
    const tcpSackEdges: array<Byte>
    var tcpTsVal: U32
    var tcpTsEcr: U32
    var hasTcpAo: Byte

    ghost predicate Valid()
      reads this
    {
      tcpSackEdges.Length == EDGES_SIZE
    }

    function Value(): (f: Fields)
      requires Valid()
      reads this, tcpSackEdges
      ensures |f.sackEdges| == EDGES_SIZE
    {
      Fields(tcpMss, tcpWs, tcpSack, tcpSackEdges[..], tcpTsVal, tcpTsEcr, hasTcpAo)
    }

    /** A cleared record. */
    constructor ()
      ensures Valid() && fresh(tcpSackEdges) && Value() == Fields(0, 0, 0, seq(EDGES_SIZE, _ => 0), 0, 0, 0)
    {
      tcpMss, tcpWs, tcpSack, tcpTsVal, tcpTsEcr, hasTcpAo := 0, 0, 0, 0, 0, 0;
      tcpSackEdges := new Byte[EDGES_SIZE](_ => 0);
    }

    /** The body of the loop for one option of length l at position k. */
    method Store(opts: Bytes, k: nat, l: nat)
      requires Valid() && k < |opts| && !Broken(opts, k) && l == opts[k + 1]
      modifies this, tcpSackEdges
      ensures Value() == Update(old(Value()), Opt(opts[k], opts[k + 2..k + l]))
    {
      var kind := opts[k];
      if kind == 2 && l == 4 {
        tcpMss := Be16(opts, k + 2);
      } else if kind == 3 && l == 3 {
        tcpWs := opts[k + 2];
      } else if kind == 4 && l == 2 {
        tcpSack := 1;
      } else if kind == 5 && l >= 10 {
        var blocks := Min((l - 2) / 8, 4);
        forall i | 0 <= i < blocks * 8 {
          tcpSackEdges[i] := opts[k + 2 + i];
        }
        assert tcpSackEdges[..] == opts[k + 2..k + l][..blocks * 8] + old(tcpSackEdges[..])[blocks * 8..];
      } else if kind == 8 && l == 10 {
        tcpTsVal := Be32(opts, k + 2);
        tcpTsEcr := Be32(opts, k + 6);
      } else if kind == 29 {
        hasTcpAo := 1;
      }
    }

    /** parse_tcp_options_extended: p holds the header, of h bytes, at offset o. */
    method ParseExtended(p: Bytes, o: nat, h: nat)
      requires Valid() && (h > 20 ==> o + h <= |p|)
      modifies this, tcpSackEdges
      ensures Value() == if h <= 20 then old(Value()) else UpdateAll(old(Value()), Parse(p[o + 20..o + h], 0))
    {
      if h <= 20 {
        return;
      }
      var opts := p[o + 20..o + h];
      var len := h - 20;
      var k := 0;
      while k < len
        invariant k <= len == |opts|
        invariant UpdateAll(old(Value()), Parse(opts, 0)) == UpdateAll(Value(), Parse(opts, k))
      {
        var kind := opts[k];
        if kind == 0 {
          break;
        }
        if kind == 1 {
          k := k + 1;
          continue;
        }
        if k + 1 >= len {
          break;
        }
        var l := opts[k + 1];
        if l < 2 || k + l > len {
          break;
        }
        Store(opts, k, l);
        k := k + l;
      }
    }
  }

  // ----- The other reader -----

  datatype Basic = Basic(mss: U16, ws: Byte, hasAo: bool)

  function BasicUpdate(b: Basic, o: Opt): Basic {
    if o.kind == 2 && |o.data| == 2 then b.(mss := Be16(o.data, 0))
    else if o.kind == 3 && |o.data| == 1 then b.(ws := o.data[0])
    else if o.kind == 29 then b.(hasAo := true)
    else b
  }

  function BasicUpdateAll(b: Basic, os: seq<Opt>): Basic
    decreases |os|
  {
    if os == [] then b else BasicUpdateAll(BasicUpdate(b, os[0]), os[1..])
  }

  /** The part of a transport record that parse_tcp_options writes to. */
  class TransportFields {
    var mss: U16
    var ws: Byte
    var hasAo: bool

    function Value(): Basic
      reads this
    {
      Basic(mss, ws, hasAo)
    }

    /** The body of the loop for one option of length len at position i. */
    method Store(options: Bytes, i: nat, len: nat)
      requires i < |options| && !Broken(options, i) && len == options[i + 1]
      modifies this
      ensures Value() == BasicUpdate(old(Value()), Opt(options[i], options[i + 2..i + len]))
    {
      var kind := options[i];
      if kind == 2 && len == 4 {
        mss := Be16(options, i + 2);
      } else if kind == 3 && len == 3 {
        ws := options[i + 2];
      } else if kind == 29 {
        hasAo := true;
      }
    }

    /** parse_tcp_options: the packet holds the header, of tcpHlen bytes, at the offset. */
    method ParseBasic(packet: Bytes, offset: nat, tcpHlen: nat)
      requires tcpHlen > 20 ==> offset + tcpHlen <= |packet|
      modifies this
      ensures Value() ==
        if tcpHlen <= 20 then old(Value())
        else BasicUpdateAll(old(Value()), Parse(packet[offset + 20..offset + tcpHlen], 0))
    {
      if tcpHlen <= 20 {
        return;
      }
      var options := packet[offset + 20..offset + tcpHlen];
      var optLen := tcpHlen - 20;
      var i := 0;
      while i < optLen
        invariant i <= optLen == |options|
        invariant BasicUpdateAll(old(Value()), Parse(options, 0))
               == BasicUpdateAll(Value(), Parse(options, i))
      {
        var kind := options[i];
        if kind == 0 {
          break;
        }
        if kind == 1 {
          i := i + 1;
          continue;
        }
        if i + 1 >= optLen {
          break;
        }
        var len := options[i + 1];
        if len < 2 || i + len > optLen {
          break;
        }
        Store(options, i, len);
        i := i + len;
      }
    }
  }

  function BasicOf(f: Fields): Basic {
    Basic(f.mss, f.ws, f.hasAo != 0)
  }

  /** The two readers agree on MSS, window scale and authentication, for any options and any state to start from. */
  lemma {:induction false} ReadersAgree(f: Fields, os: seq<Opt>)
    requires |f.sackEdges| == EDGES_SIZE
    ensures BasicOf(UpdateAll(f, os)) == BasicUpdateAll(BasicOf(f), os)
    decreases |os|
  {
    if os != [] {
      assert BasicOf(Update(f, os[0])) == BasicUpdate(BasicOf(f), os[0]);
      ReadersAgree(Update(f, os[0]), os[1..]);
    }
  }

  // ----- Lists of options as a sender writes them -----

  datatype Item = Nop | Item(opt: Opt)

  predicate GoodItem(item: Item) {
    item.Item? ==> item.opt.kind >= 2 && |item.opt.data| <= 253
  }

  predicate AllGood(items: seq<Item>) {
    forall i :: 0 <= i < |items| ==> GoodItem(items[i])
  }

  function EncodeItem(item: Item): (b: Bytes)
    requires GoodItem(item)
    ensures |b| >= 1
  {
    match item
    case Nop => [1]
    case Item(o) => [o.kind, 2 + |o.data|] + o.data
  }

  function Encode(items: seq<Item>): Bytes
    requires AllGood(items)
    decreases |items|
  {
    if items == [] then [] else EncodeItem(items[0]) + Encode(items[1..])
  }

  /** The options among the items, that is, all but the NOPs, followed by the rest. */
  function OptionsThen(items: seq<Item>, rest: seq<Opt>): seq<Opt>
    decreases |items|
  {
    if items == [] then rest
    else if items[0].Nop? then OptionsThen(items[1..], rest)
    else [items[0].opt] + OptionsThen(items[1..], rest)
  }

  function Options(items: seq<Item>): seq<Opt> {
    OptionsThen(items, [])
  }

  function Size(item: Item): (n: nat)
    ensures n >= 1
  {
    if item.Nop? then 1 else 2 + |item.opt.data|
  }

  function SizeAll(items: seq<Item>): nat
    decreases |items|
  {
    if items == [] then 0 else Size(items[0]) + SizeAll(items[1..])
  }

  predicate LaidItem(p: Bytes, k: nat, item: Item) {
    && k + Size(item) <= |p|
    && match item
       case Nop => p[k] == 1
       case Item(o) => p[k] == o.kind && p[k + 1] == 2 + |o.data| && p[k + 2..k + 2 + |o.data|] == o.data
  }

  /** The items are laid out in the bytes from position k on. */
  predicate Laid(p: Bytes, k: nat, items: seq<Item>)
    decreases |items|
  {
    if items == [] then k <= |p| else LaidItem(p, k, items[0]) && Laid(p, k + Size(items[0]), items[1..])
  }

  lemma ItemIsLaid(p: Bytes, k: nat, item: Item)
    requires GoodItem(item)
    ensures |EncodeItem(item)| == Size(item) && (At(p, k, EncodeItem(item)) <==> LaidItem(p, k, item))
  {
    var b := EncodeItem(item);
    if item.Item? {
      var head: Bytes := [item.opt.kind, 2 + |item.opt.data|];
      assert head + item.opt.data == b;
      AtSlice(p, k + 2, item.opt.data);
      if At(p, k, b) {
        AtParts(p, k, head, item.opt.data);
        assert head[0] == p[k] && head[1] == p[k + 1];
      } else if LaidItem(p, k, item) {
        AtJoin(p, k, head, item.opt.data);
      }
    } else if At(p, k, b) {
      assert b[0] == p[k];
    }
  }

  lemma {:induction false} EncodedSize(items: seq<Item>)
    requires AllGood(items)
    ensures |Encode(items)| == SizeAll(items)
    decreases |items|
  {
    if items != [] {
      ItemIsLaid([], 0, items[0]);
      EncodedSize(items[1..]);
    }
  }

  lemma FirstIsLaid(p: Bytes, k: nat, items: seq<Item>)
    requires AllGood(items) && items != [] && At(p, k, Encode(items))
    ensures LaidItem(p, k, items[0]) && At(p, k + Size(items[0]), Encode(items[1..]))
  {
    AtParts(p, k, EncodeItem(items[0]), Encode(items[1..]));
    ItemIsLaid(p, k, items[0]);
  }

  lemma {:induction false} EncodedIsLaid(p: Bytes, k: nat, items: seq<Item>)
    requires AllGood(items) && At(p, k, Encode(items))
    ensures Laid(p, k, items)
    decreases |items|
  {
    if items != [] {
      FirstIsLaid(p, k, items);
      EncodedIsLaid(p, k + Size(items[0]), items[1..]);
    }
  }

  lemma {:induction false} LaidIsEncoded(p: Bytes, k: nat, items: seq<Item>)
    requires AllGood(items) && Laid(p, k, items)
    ensures At(p, k, Encode(items))
    decreases |items|
  {
    if items != [] {
      ItemIsLaid(p, k, items[0]);
      LaidIsEncoded(p, k + Size(items[0]), items[1..]);
      AtJoin(p, k, EncodeItem(items[0]), Encode(items[1..]));
    }
  }

  lemma {:induction false} ParseLaid(p: Bytes, k: nat, items: seq<Item>)
    requires AllGood(items) && Laid(p, k, items) && k + SizeAll(items) <= |p|
    ensures Parse(p, k) == OptionsThen(items, Parse(p, k + SizeAll(items)))
    decreases |items|
  {
    if items != [] {
      assert items[0].Item? ==> !Broken(p, k);
      ParseLaid(p, k + Size(items[0]), items[1..]);
    }
  }

  lemma WhereLaid(p: Bytes, k: nat, items: seq<Item>) returns (n: nat)
    requires AllGood(items) && At(p, k, Encode(items))
    ensures n == |Encode(items)| && k + n <= |p| && Parse(p, k) == OptionsThen(items, Parse(p, k + n))
  {
    n := SizeAll(items);
    EncodedSize(items);
    EncodedIsLaid(p, k, items);
    ParseLaid(p, k, items);
  }

  /** Round trip: any items, wherever they sit in the bytes, are read back as their options, in order; NOPs leave no
      trace; reading goes on behind them. */
  lemma ParseEncoded(p: Bytes, k: nat, items: seq<Item>)
    requires AllGood(items) && At(p, k, Encode(items))
    ensures Parse(p, k) == OptionsThen(items, Parse(p, k + |Encode(items)|))
  {
    var n := WhereLaid(p, k, items);
    assert Parse(p, k) == OptionsThen(items, Parse(p, k + n));
  }

  lemma ParseWhole(items: seq<Item>)
    requires AllGood(items)
    ensures Parse(Encode(items), 0) == Options(items)
  {
    ParseEncoded(Encode(items), 0, items);
  }

  lemma {:induction false} OptionsSplit(front: seq<Item>, back: seq<Item>)
    ensures Options(front + back) == OptionsThen(front, Options(back))
    decreases |front|
  {
    if front == [] {
      assert front + back == back;
    } else {
      assert (front + back)[1..] == front[1..] + back;
      OptionsSplit(front[1..], back);
    }
  }

  /** A NOP put in between two options, or before or behind them, changes nothing. */
  lemma NopChangesNothing(front: seq<Item>, back: seq<Item>)
    requires AllGood(front) && AllGood(back)
    ensures AllGood(front + back) && AllGood(front + ([Nop] + back))
    ensures Parse(Encode(front + ([Nop] + back)), 0) == Parse(Encode(front + back), 0)
  {
    OptionsSplit(front, back);
    OptionsSplit(front, [Nop] + back);
    assert ([Nop] + back)[1..] == back;
    ParseWhole(front + back);
    ParseWhole(front + ([Nop] + back));
  }

  /** Behind an end-of-list mark nothing matters. */
  lemma EndOfListEnds(items: seq<Item>, p: Bytes)
    requires AllGood(items) && At(p, 0, Encode(items)) && |Encode(items)| < |p| && p[|Encode(items)|] == 0
    ensures Parse(p, 0) == Options(items)
  {
    ParseEncoded(p, 0, items);
  }

  /** Where reading stops: at the end of the bytes, at an end-of-list mark, or at an option of a wrong length. */
  predicate Stops(p: Bytes, k: nat)
    requires k <= |p|
  {
    k == |p| || p[k] == 0 || (p[k] != 1 && Broken(p, k))
  }

  lemma {:induction false} ParsedIsLaid(p: Bytes, k: nat) returns (items: seq<Item>)
    requires k <= |p|
    ensures AllGood(items) && Laid(p, k, items) && k + SizeAll(items) <= |p|
    ensures Stops(p, k + SizeAll(items)) && Parse(p, k) == Options(items)
    decreases |p| - k
  {
    items := [];
    if !Stops(p, k) {
      var item := if p[k] == 1 then Nop else Item(Opt(p[k], p[k + 2..k + p[k + 1]]));
      var later := ParsedIsLaid(p, k + Size(item));
      items := [item] + later;
      assert items[1..] == later;
    }
  }

  /** Conversely, whatever the bytes are, what is read are the options of the items in front, up to where reading
      stops. */
  lemma ParsedIsEncoded(p: Bytes, k: nat) returns (items: seq<Item>)
    requires k <= |p|
    ensures AllGood(items) && At(p, k, Encode(items))
    ensures Stops(p, k + |Encode(items)|) && Parse(p, k) == Options(items)
  {
    items := ParsedIsLaid(p, k);
    EncodedSize(items);
    LaidIsEncoded(p, k, items);
  }

  // ----- What the fields hold afterwards -----

  /** The last option that says something, or what was there before. */
  function Last<T>(os: seq<Opt>, says: Opt -> Option<T>, before: T): T
    decreases |os|
  {
    if os == [] then before
    else
      var last := says(os[|os| - 1]);
      if last.Some? then last.value else Last(os[..|os| - 1], says, before)
  }

  // Two bytes, and four, as the digits of a number, the most significant first.

  function Digits2(b: Bytes): (v: U16)
    requires |b| == 2
  {
    var b0: int, b1: int := b[0], b[1];
    0x100 * b0 + b1
  }

  function Digits4(b: Bytes): (v: U32)
    requires |b| == 4
  {
    var b0: int, b1: int, b2: int, b3: int := b[0], b[1], b[2], b[3];
    0x100_0000 * b0 + 0x1_0000 * b1 + 0x100 * b2 + b3
  }

  function SaysMss(o: Opt): Option<U16> {
    if o.kind == 2 && |o.data| == 2 then Some(Digits2(o.data)) else None
  }

  function SaysWs(o: Opt): Option<Byte> {
    if o.kind == 3 && |o.data| == 1 then Some(o.data[0]) else None
  }

  function SaysSack(o: Opt): Option<Byte> {
    if o.kind == 4 && |o.data| == 0 then Some(1) else None
  }

  /** A SACK option says the bytes of its whole blocks of eight, of which there are at most four. */
  function SaysEdge(j: nat): Opt -> Option<Byte> {
    (o: Opt) => if o.kind == 5 && j < 32 && j < 8 * (|o.data| / 8) then Some(o.data[j]) else None
  }

  function SaysTimes(o: Opt): Option<(U32, U32)> {
    if o.kind == 8 && |o.data| == 8 then Some((Digits4(o.data[..4]), Digits4(o.data[4..]))) else None
  }

  function SaysAo(o: Opt): Option<Byte> {
    if o.kind == 29 then Some(1) else None
  }

  lemma {:induction false} UpdateLast(f: Fields, os: seq<Opt>)
    requires |f.sackEdges| == EDGES_SIZE && os != []
    ensures UpdateAll(f, os) == Update(UpdateAll(f, os[..|os| - 1]), os[|os| - 1])
    decreases |os|
  {
    var before := os[..|os| - 1];
    if |os| > 1 {
      UpdateLast(Update(f, os[0]), os[1..]);
      assert os[1..][..|os| - 2] == before[1..];
    } else {
      assert os[1..] == [] && before == [];
    }
  }

  /** Every field ends up with what the last option about it says; the SACK edges, byte by byte. */
  lemma {:induction false} LaterOptionsOverwrite(f: Fields, os: seq<Opt>)
    requires |f.sackEdges| == EDGES_SIZE
    ensures
      var r := UpdateAll(f, os);
      && r.mss == Last(os, SaysMss, f.mss) && r.ws == Last(os, SaysWs, f.ws)
      && r.sack == Last(os, SaysSack, f.sack) && r.hasAo == Last(os, SaysAo, f.hasAo)
      && (r.tsVal, r.tsEcr) == Last(os, SaysTimes, (f.tsVal, f.tsEcr))
      && forall j :: 0 <= j < EDGES_SIZE ==> r.sackEdges[j] == Last(os, SaysEdge(j), f.sackEdges[j])
    decreases |os|
  {
    if os != [] {
      var o := os[|os| - 1];
      LaterOptionsOverwrite(f, os[..|os| - 1]);
      UpdateLast(f, os);
      assert o.kind == 8 && |o.data| == 8 ==>
        Digits4(o.data[..4]) == Be32(o.data, 0) && Digits4(o.data[4..]) == Be32(o.data, 4);
    }
  }

  lemma {:induction false} UpdateAllInTwo(f: Fields, a: seq<Opt>, b: seq<Opt>)
    requires |f.sackEdges| == EDGES_SIZE
    ensures UpdateAll(f, a + b) == UpdateAll(UpdateAll(f, a), b)
    decreases |a|
  {
    if a == [] {
      assert a + b == b;
    } else {
      assert (a + b)[1..] == a[1..] + b;
      UpdateAllInTwo(Update(f, a[0]), a[1..], b);
    }
  }

  /** No option among them stores SACK edges. */
  ghost predicate NoSack(os: seq<Opt>) {
    forall i :: 0 <= i < |os| ==> os[i].kind != 5 || |os[i].data| < 8
  }

  lemma {:induction false} EdgesKept(f: Fields, os: seq<Opt>)
    requires |f.sackEdges| == EDGES_SIZE && NoSack(os)
    ensures UpdateAll(f, os).sackEdges == f.sackEdges
    decreases |os|
  {
    if os != [] {
      assert os[0].kind != 5 || |os[0].data| < 8;
      assert forall i :: 0 <= i < |os[1..]| ==> os[1..][i] == os[i + 1];
      EdgesKept(Update(f, os[0]), os[1..]);
    }
  }

  lemma {:induction false} OptionsThenJoined(items: seq<Item>, rest: seq<Opt>)
    ensures OptionsThen(items, rest) == Options(items) + rest
    decreases |items|
  {
    if items != [] {
      OptionsThenJoined(items[1..], rest);
    }
  }

  lemma OptionsAround(front: seq<Item>, o: Opt, back: seq<Item>)
    ensures Options(front + ([Item(o)] + back)) == Options(front) + ([o] + Options(back))
  {
    OptionsSplit(front, [Item(o)] + back);
    OptionsThenJoined(front, Options([Item(o)] + back));
    assert ([Item(o)] + back)[1..] == back;
  }

  /** A SACK option in an encoded list, with anything before it and no other SACK option behind it: of its whole
      blocks of eight bytes the first four are stored, byte by byte, and behind them the edges are what they were
      before it. */
  lemma SackIsStored(f: Fields, front: seq<Item>, data: Bytes, back: seq<Item>)
    requires |f.sackEdges| == 32 && AllGood(front) && AllGood(back) && 8 <= |data| <= 253 && NoSack(Options(back))
    ensures AllGood(front + ([Item(Opt(5, data))] + back))
    ensures
      var items := front + ([Item(Opt(5, data))] + back);
      var before, after := UpdateAll(f, Options(front)), UpdateAll(f, Parse(Encode(items), 0));
      forall j :: 0 <= j < 32 ==>
        after.sackEdges[j] == if j < 8 * (|data| / 8) then data[j] else before.sackEdges[j]
    ensures NoSack(Options(front)) ==> UpdateAll(f, Options(front)).sackEdges == f.sackEdges
  {
    var o := Opt(5, data);
    var items := front + ([Item(o)] + back);
    var before := UpdateAll(f, Options(front));
    ParseWhole(items);
    OptionsAround(front, o, back);
    UpdateAllInTwo(f, Options(front), [o] + Options(back));
    assert ([o] + Options(back))[1..] == Options(back);
    EdgesKept(Update(before, o), Options(back));
    if NoSack(Options(front)) {
      EdgesKept(f, Options(front));
    }
  }
}

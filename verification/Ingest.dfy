/** The dashboard's packet intake: numbering, the set of addresses seen, and admission to the history. */
module Ingest {
  import RingBuffer

  const SEEN_LIMIT: nat := 10000

  datatype Packet = Packet(
    index: nat,
    srcIp: string,
    dstIp: string,
    country: string,
    countryCode: string,
    city: string,
    isp: string)

  datatype State = State(scanning: bool, counter: nat, seen: set<string>, history: seq<Packet>)

  // An arrival carries the lookups made for it and the verdict of the filter then in force.
  datatype Event =
    | Arrive(pkt: Packet, country: string, countryCode: string, matches: bool)
    | Toggle
    | Clear
    | GeoUpdate(ip: string, country: string, countryCode: string, city: string, isp: string)

  function Located(p: Packet, e: Event): Packet
    requires e.GeoUpdate?
  {
    if p.srcIp == e.ip || p.dstIp == e.ip then
      p.(country := e.country, countryCode := e.countryCode, city := e.city, isp := e.isp)
    else p
  }

  function Numbered(counter: nat, e: Event): Packet
    requires e.Arrive?
  {
    e.pkt.(index := counter, country := e.country, countryCode := e.countryCode)
  }

  /** The addresses kept after a packet: starting over once there are more than the limit. */
  function SeenAfter(seen: set<string>, src: string, dst: string): (r: set<string>)
    ensures |r| <= 10002 && src in r && dst in r
  {
    (if |seen| > SEEN_LIMIT then {} else seen) + {src} + {dst}
  }

  /** Up to 10000 addresses none is forgotten, and beyond that all but the packet's own. */
  lemma SeenStartsOver(seen: set<string>, src: string, dst: string)
    ensures SeenAfter(seen, src, dst) == if |seen| <= 10000 then seen + {src, dst} else {src, dst}
  {
  }

  function Apply(size: nat, s: State, e: Event): State {
    match e
    case Arrive(pkt, _, _, matches) =>
      if !s.scanning then s
      else
        var n := s.counter + 1;
        var seen := SeenAfter(s.seen, pkt.srcIp, pkt.dstIp);
        var history := if matches then RingBuffer.LastN(s.history + [Numbered(n, e)], size) else s.history;
        State(true, n, seen, history)
    case Toggle => s.(scanning := !s.scanning)
    case Clear => s.(history := [])
    case GeoUpdate(_, _, _, _, _) => s.(history := RingBuffer.Mapped(s.history, p => Located(p, e)))
  }

  function Run(size: nat, s: State, es: seq<Event>): State
    decreases |es|
  {
    if es == [] then s else Run(size, Apply(size, s, es[0]), es[1..])
  }

  class Dashboard {
    var isScanning: bool
    var packetCounter: nat
    var seenIPs: set<string>
    const historyBuffer: RingBuffer.Ring<Packet>

    ghost predicate Valid()
      reads this, historyBuffer, historyBuffer.data
    {
      historyBuffer.Valid()
    }

    ghost function View(): State
      reads this, historyBuffer
    {
      State(isScanning, packetCounter, seenIPs, historyBuffer.Items)
    }

    constructor (size: nat)
      requires size > 0
      ensures Valid() && View() == State(true, 0, {}, []) && historyBuffer.size == size
      ensures fresh(historyBuffer) && fresh(historyBuffer.data)
    {
      isScanning, packetCounter, seenIPs := true, 0, {};
      historyBuffer := new RingBuffer.Ring(size);
    }

    method Arrive(pkt: Packet, country: string, countryCode: string, matches: bool)
      requires Valid()
      modifies this, historyBuffer, historyBuffer.data
      ensures Valid()
      ensures View() == Apply(historyBuffer.size, old(View()), Event.Arrive(pkt, country, countryCode, matches))
    {
      if !isScanning {
        return;
      }
      packetCounter := packetCounter + 1;
      var p := pkt.(index := packetCounter);
      NoteAddresses(p.srcIp, p.dstIp);
      p := p.(country := country, countryCode := countryCode);
      if matches {
        historyBuffer.Add(p);
      }
    }

    method NoteAddresses(src: string, dst: string)
      modifies this`seenIPs
      ensures seenIPs == SeenAfter(old(seenIPs), src, dst)
    {
      if |seenIPs| > SEEN_LIMIT {
        seenIPs := {};
      }
      seenIPs := seenIPs + {src};
      seenIPs := seenIPs + {dst};
    }

    method Toggle()
      requires Valid()
      modifies this
      ensures Valid() && View() == Apply(historyBuffer.size, old(View()), Event.Toggle)
      ensures isScanning == !old(isScanning)
    {
      isScanning := !isScanning;
    }

    method Clear()
      requires Valid()
      modifies historyBuffer
      ensures Valid() && View() == Apply(historyBuffer.size, old(View()), Event.Clear)
      ensures historyBuffer.Items == []
    {
      historyBuffer.Clear();
    }

    method GeoUpdate(ip: string, country: string, countryCode: string, city: string, isp: string)
      requires Valid()
      modifies historyBuffer, historyBuffer.data
      ensures Valid()
      ensures View()
              == Apply(historyBuffer.size, old(View()), Event.GeoUpdate(ip, country, countryCode, city, isp))
      ensures |historyBuffer.Items| == |old(historyBuffer.Items)|
      ensures forall i :: 0 <= i < |historyBuffer.Items| ==>
        var before, after := old(historyBuffer.Items)[i], historyBuffer.Items[i];
        if before.srcIp == ip || before.dstIp == ip then
          after == Packet(before.index, before.srcIp, before.dstIp, country, countryCode, city, isp)
        else after == before
    {
      ghost var e := Event.GeoUpdate(ip, country, countryCode, city, isp);
      historyBuffer.Update((p: Packet) =>
        if p.srcIp == ip || p.dstIp == ip then
          p.(country := country, countryCode := countryCode, city := city, isp := isp)
        else p);
      assert historyBuffer.Items == RingBuffer.Mapped(old(historyBuffer.Items), p => Located(p, e));
    }
  }

  // ----- Whole runs -----

  /** Numbered from 1 to the counter, strictly increasing from the oldest to the newest. */
  ghost predicate Ordered(h: seq<Packet>, counter: nat) {
    && (forall i :: 0 <= i < |h| ==> 1 <= h[i].index <= counter)
    && (forall i, j :: 0 <= i < j < |h| ==> h[i].index < h[j].index)
  }

  ghost predicate Good(size: nat, s: State) {
    |s.seen| <= SEEN_LIMIT + 2 && |s.history| <= size && Ordered(s.history, s.counter)
  }

  lemma OrderedAfterAdd(h: seq<Packet>, counter: nat, p: Packet, size: nat)
    requires Ordered(h, counter) && p.index == counter + 1
    ensures Ordered(RingBuffer.LastN(h + [p], size), counter + 1)
    ensures |h| <= size ==> |RingBuffer.LastN(h + [p], size)| <= size
  {
  }

  lemma OrderedAfterUpdate(h: seq<Packet>, counter: nat, e: Event)
    requires Ordered(h, counter) && e.GeoUpdate?
    ensures Ordered(RingBuffer.Mapped(h, p => Located(p, e)), counter)
  {
  }

  lemma GoodArrival(size: nat, s: State, e: Event)
    requires Good(size, s) && e.Arrive? && s.scanning
    ensures Good(size, Apply(size, s, e))
  {
    var p := Numbered(s.counter + 1, e);
    OrderedAfterAdd(s.history, s.counter, p, size);
    assert |SeenAfter(s.seen, e.pkt.srcIp, e.pkt.dstIp)| <= 10002;
  }

  lemma GoodStep(size: nat, s: State, e: Event)
    requires Good(size, s)
    ensures Good(size, Apply(size, s, e))
  {
    match e
    case Arrive(_, _, _, _) =>
      if s.scanning {
        GoodArrival(size, s, e);
      }
    case GeoUpdate(_, _, _, _, _) => OrderedAfterUpdate(s.history, s.counter, e);
    case _ =>
  }

  /** Through arrivals, pauses, clears, filter changes and location updates, the history's indices grow
      strictly from the oldest item to the newest, and at most 10002 addresses are kept. */
  lemma {:induction false} HistoryIsOrdered(size: nat, s: State, es: seq<Event>)
    requires Good(size, s)
    ensures Good(size, Run(size, s, es))
    decreases |es|
  {
    if es != [] {
      GoodStep(size, s, es[0]);
      HistoryIsOrdered(size, Apply(size, s, es[0]), es[1..]);
    }
  }

  /** What the intake does to the history: it adds the packets that it numbers and the filter lets through, and passes
      on clears and location updates. */
  function HistoryOpsBy(scanning: bool, counter: nat, e: Event): seq<RingBuffer.Op<Packet>> {
    match e
    case Arrive(_, _, _, matches) => if scanning && matches then [RingBuffer.Add(Numbered(counter + 1, e))] else []
    case Toggle => []
    case Clear => [RingBuffer.Clear]
    case GeoUpdate(_, _, _, _, _) => [RingBuffer.Update(p => Located(p, e))]
  }

  function HistoryOps(scanning: bool, counter: nat, es: seq<Event>): seq<RingBuffer.Op<Packet>>
    decreases |es|
  {
    if es == [] then []
    else
      var e := es[0];
      var counted := if e.Arrive? && scanning then counter + 1 else counter;
      HistoryOpsBy(scanning, counter, e) + HistoryOps(if e.Toggle? then !scanning else scanning, counted, es[1..])
  }

  lemma HistoryStep(size: nat, s: State, e: Event)
    ensures Apply(size, s, e).history == RingBuffer.Run(size, s.history, HistoryOpsBy(s.scanning, s.counter, e))
  {
    var ops := HistoryOpsBy(s.scanning, s.counter, e);
    if ops != [] {
      assert ops[1..] == [];
    }
  }

  lemma {:induction false} HistoryIsRing(size: nat, s: State, es: seq<Event>)
    ensures Run(size, s, es).history == RingBuffer.Run(size, s.history, HistoryOps(s.scanning, s.counter, es))
    decreases |es|
  {
    if es != [] {
      var s1 := Apply(size, s, es[0]);
      HistoryStep(size, s, es[0]);
      HistoryIsRing(size, s1, es[1..]);
      RingBuffer.RunInTwo(size, s.history, HistoryOpsBy(s.scanning, s.counter, es[0]),
                          HistoryOps(s1.scanning, s1.counter, es[1..]));
    }
  }

  /** After any run from the start the history is the last `size` packets admitted since the last clear,
      each with the location updates that came after it. */
  lemma HistoryShowsTheLast(size: nat, es: seq<Event>)
    requires size > 0
    ensures var start := State(true, 0, {}, []);
            Run(size, start, es).history
            == RingBuffer.LastN(RingBuffer.Everything([], HistoryOps(true, 0, es)), size)
  {
    HistoryIsRing(size, State(true, 0, {}, []), es);
    RingBuffer.ShowsTheLast<Packet>(size, [], HistoryOps(true, 0, es));
  }

  // ----- The same from the events alone -----

  /** Whether packets are taken in after these events: every toggle changes it. */
  function Scanning(scanning: bool, es: seq<Event>): bool
    decreases |es|
  {
    if es == [] then scanning else Scanning(if es[0].Toggle? then !scanning else scanning, es[1..])
  }

  /** How many packets arrive while they are taken in. */
  function Counted(scanning: bool, es: seq<Event>): nat
    decreases |es|
  {
    if es == [] then 0
    else if es[0].Toggle? then Counted(!scanning, es[1..])
    else Counted(scanning, es[1..]) + if es[0].Arrive? && scanning then 1 else 0
  }

  /** Whether the filter lets one of them through by this event. */
  function AdmittedBy(scanning: bool, e: Event): nat {
    if e.Arrive? && scanning && e.matches then 1 else 0
  }

  function Admitted(scanning: bool, es: seq<Event>): nat
    decreases |es|
  {
    if es == [] then 0
    else AdmittedBy(scanning, es[0]) + Admitted(if es[0].Toggle? then !scanning else scanning, es[1..])
  }

  function RelocatedBy(p: Packet, e: Event): Packet {
    if e.GeoUpdate? && (e.ip == p.srcIp || e.ip == p.dstIp) then
      Packet(p.index, p.srcIp, p.dstIp, e.country, e.countryCode, e.city, e.isp)
    else p
  }

  /** The packet after the location updates for one of its addresses. */
  function Relocated(p: Packet, es: seq<Event>): Packet
    decreases |es|
  {
    if es == [] then p else Relocated(RelocatedBy(p, es[0]), es[1..])
  }

  predicate NoClear(es: seq<Event>)
    decreases |es|
  {
    es != [] ==> !es[0].Clear? && NoClear(es[1..])
  }

  lemma {:induction false} StateByEvents(size: nat, s: State, es: seq<Event>)
    ensures Run(size, s, es).scanning == Scanning(s.scanning, es)
    ensures Run(size, s, es).counter == s.counter + Counted(s.scanning, es)
    ensures |s.history| <= size ==> |Run(size, s, es).history| <= size
    decreases |es|
  {
    if es != [] {
      if es[0].Arrive? {
        RingBuffer.LastNItems(s.history + [Numbered(s.counter + 1, es[0])], size);
      }
      StateByEvents(size, Apply(size, s, es[0]), es[1..]);
    }
  }

  lemma {:induction false} RunInTwo(size: nat, s: State, a: seq<Event>, b: seq<Event>)
    ensures Run(size, s, a + b) == Run(size, Run(size, s, a), b)
    decreases |a|
  {
    if a == [] {
      assert a + b == b;
    } else {
      assert (a + b)[1..] == a[1..] + b;
      RunInTwo(size, Apply(size, s, a[0]), a[1..], b);
    }
  }

  lemma StaysAtArrival(size: nat, s: State, k: nat, p: Packet, e: Event)
    requires RingBuffer.Nth(s.history, k, p) && |s.history| <= size && e.Arrive?
    requires k + 1 < size || !s.scanning || !e.matches
    ensures
      var s' := Apply(size, s, e);
      && |s'.history| <= size && s'.scanning == s.scanning
      && RingBuffer.Nth(s'.history, k + if s.scanning && e.matches then 1 else 0, p)
  {
    if s.scanning && e.matches {
      RingBuffer.NthAfterAdd(size, s.history, k, p, Numbered(s.counter + 1, e));
    }
  }

  lemma StaysAtUpdate(size: nat, s: State, k: nat, p: Packet, e: Event)
    requires RingBuffer.Nth(s.history, k, p) && e.GeoUpdate?
    ensures
      var s' := Apply(size, s, e);
      |s'.history| == |s.history| && s'.scanning == s.scanning && RingBuffer.Nth(s'.history, k, RelocatedBy(p, e))
  {
    RingBuffer.NthMapped(s.history, k, p, q => Located(q, e));
  }

  lemma StaysAfterOne(size: nat, s: State, k: nat, p: Packet, e: Event)
    requires RingBuffer.Nth(s.history, k, p) && |s.history| <= size && !e.Clear?
    requires k + AdmittedBy(s.scanning, e) < size
    ensures
      var s' := Apply(size, s, e);
      && |s'.history| <= size && s'.scanning == (if e.Toggle? then !s.scanning else s.scanning)
      && RingBuffer.Nth(s'.history, k + AdmittedBy(s.scanning, e), RelocatedBy(p, e))
  {
    match e
    case Arrive(_, _, _, _) => StaysAtArrival(size, s, k, p, e);
    case GeoUpdate(_, _, _, _, _) => StaysAtUpdate(size, s, k, p, e);
    case Toggle =>
  }

  lemma {:induction false} StaysInHistory(size: nat, s: State, k: nat, p: Packet, es: seq<Event>)
    requires RingBuffer.Nth(s.history, k, p) && |s.history| <= size && NoClear(es)
    requires k + Admitted(s.scanning, es) < size
    ensures RingBuffer.Nth(Run(size, s, es).history, k + Admitted(s.scanning, es), Relocated(p, es))
    decreases |es|
  {
    if es != [] {
      StaysAfterOne(size, s, k, p, es[0]);
      StaysInHistory(size, Apply(size, s, es[0]), k + AdmittedBy(s.scanning, es[0]), RelocatedBy(p, es[0]), es[1..]);
    }
  }

  lemma Arrived(size: nat, before: seq<Event>, e: Event, after: seq<Event>)
    requires Scanning(true, before) && e.Arrive? && e.matches && size > 0
    ensures
      var start := State(true, 0, {}, []);
      var s := Run(size, start, before);
      var s' := Apply(size, s, e);
      && s.scanning && s'.scanning && s.counter == Counted(true, before)
      && Run(size, start, before + ([e] + after)) == Run(size, s', after)
      && |s'.history| <= size && RingBuffer.Nth(s'.history, 0, Numbered(s.counter + 1, e))
  {
    var start := State(true, 0, {}, []);
    var s := Run(size, start, before);
    RunInTwo(size, start, before, [e] + after);
    assert ([e] + after)[1..] == after;
    StateByEvents(size, start, before);
    RingBuffer.NewestAfterAdd(size, s.history, Numbered(s.counter + 1, e));
  }

  /** In any run from the start: a packet that arrives while packets are taken in, and that the filter lets through,
      is in the history, with as many newer ones as were admitted after it, until that is `size`, or until a clear. It
      has its number among all that were taken in, and the location of the lookup at its arrival or of a later update.
      */
  lemma AdmittedIsShown(size: nat, before: seq<Event>, e: Event, after: seq<Event>)
    requires Scanning(true, before) && e.Arrive? && e.matches
    requires NoClear(after) && Admitted(true, after) < size
    ensures
      var n := Counted(true, before) + 1;
      var p := Packet(n, e.pkt.srcIp, e.pkt.dstIp, e.country, e.countryCode, e.pkt.city, e.pkt.isp);
      RingBuffer.Nth(
        Run(size, State(true, 0, {}, []), before + ([e] + after)).history, Admitted(true, after), Relocated(p, after))
  {
    var s := Run(size, State(true, 0, {}, []), before);
    Arrived(size, before, e, after);
    StaysInHistory(size, Apply(size, s, e), 0, Numbered(s.counter + 1, e), after);
  }

  /** An address that was seen is kept as long as the set has no more than 10000. */
  lemma {:induction false} AddressesAreKept(size: nat, s: State, es: seq<Event>)
    requires |s.seen| + 2 * Counted(s.scanning, es) <= 10000
    ensures s.seen <= Run(size, s, es).seen
    ensures forall i :: 0 <= i < |es| && es[i].Arrive? && Scanning(s.scanning, es[..i]) ==>
      es[i].pkt.srcIp in Run(size, s, es).seen && es[i].pkt.dstIp in Run(size, s, es).seen
    decreases |es|
  {
    if es != [] {
      var s1 := Apply(size, s, es[0]);
      AddressesAreKept(size, s1, es[1..]);
      forall i | 0 < i < |es| && es[i].Arrive? && Scanning(s.scanning, es[..i])
        ensures es[i].pkt.srcIp in Run(size, s, es).seen && es[i].pkt.dstIp in Run(size, s, es).seen
      {
        assert es[..i][1..] == es[1..][..i - 1] && es[1..][i - 1] == es[i];
      }
    }
  }
}

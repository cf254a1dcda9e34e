/**
 The capture pipeline: the capture callback, any number of dissecting workers, the sender, and the flag
 that asks them to stop. The two queues are first-in first-out; an operation on a queue may refuse
 although it is neither full nor empty, because another thread holds a ticket of it. Every interleaving
 of the threads' steps is a run. A dissected packet is written as the raw packet it came from.
 */
module Pipeline {
  import opened Words
  import opened Sequences

  // One constructor per place in the worker's code: the test of the flag, the pop, the push, the test of
  // the flag after a refused push; then the drain's pop and push, and the end.
  datatype WorkerPc<T> = Loop | TryPop | TryPush(p: T) | Recheck(p: T) | DrainPop | DrainPush(p: T) | Done

  datatype Worker<T> = Worker(pc: WorkerPc<T>, dropped: seq<T>)

  datatype Sender<T> = SLoop | STryPop | SSend(p: T) | SDrainPop | SDrainSend(p: T) | SDone

  datatype State<T> = State(
    running: bool,
    raw: seq<T>,
    workers: seq<Worker<T>>,
    dissected: seq<T>,
    sender: Sender<T>,
    captured: seq<T>,
    rejected: seq<T>,
    sent: seq<T>)

  // `ok` is what the queue answers, in the events that ask it something.
  datatype Event<T> =
    | Stop
    | Capture(p: T, ok: bool)
    | WorkerTests(i: nat)
    | WorkerPops(i: nat, ok: bool)
    | WorkerPushes(i: nat, ok: bool)
    | SenderTests
    | SenderPops(ok: bool)
    | SenderSends

  const QUEUE_CAPACITY: nat := 8192

  predicate Enabled<T>(s: State<T>, e: Event<T>) {
    match e
    case Stop => true
    case Capture(_, ok) => ok ==> |s.raw| < QUEUE_CAPACITY
    case WorkerTests(i) => i < |s.workers| && (s.workers[i].pc.Loop? || s.workers[i].pc.Recheck?)
    case WorkerPops(i, ok) =>
      i < |s.workers| && (s.workers[i].pc.TryPop? || s.workers[i].pc.DrainPop?) && (ok ==> s.raw != [])
    case WorkerPushes(i, ok) =>
      && i < |s.workers| && (s.workers[i].pc.TryPush? || s.workers[i].pc.DrainPush?)
      && (ok ==> |s.dissected| < QUEUE_CAPACITY)
    case SenderTests => s.sender.SLoop?
    case SenderPops(ok) => (s.sender.STryPop? || s.sender.SDrainPop?) && (ok ==> s.dissected != [])
    case SenderSends => s.sender.SSend? || s.sender.SDrainSend?
  }

  // Where a thread goes on with what its queue returned: the value if a pop succeeded, None if it returned false.

  function AfterPop<T>(pc: WorkerPc<T>, result: Option<T>): WorkerPc<T> {
    match result
    case Some(p) => if pc.TryPop? then TryPush(p) else DrainPush(p)
    case None => if pc.TryPop? then Loop else Done
  }

  function AfterPush<T>(pc: WorkerPc<T>, ok: bool): WorkerPc<T> {
    match pc
    case TryPush(p) => if ok then Loop else Recheck(p)
    case _ => if ok then DrainPop else pc
  }

  function AfterSenderPop<T>(sender: Sender<T>, result: Option<T>): Sender<T> {
    match result
    case Some(p) => if sender.STryPop? then SSend(p) else SDrainSend(p)
    case None => if sender.STryPop? then SLoop else SDone
  }

  function Move<T>(s: State<T>, i: nat, w: Worker<T>): State<T>
    requires i < |s.workers|
  {
    s.(workers := s.workers[i := w])
  }

  function Apply<T>(s: State<T>, e: Event<T>): State<T>
    requires Enabled(s, e)
  {
    match e
    case Stop => s.(running := false)
    case Capture(p, ok) =>
      var s1 := s.(captured := s.captured + [p]);
      if ok then s1.(raw := s.raw + [p]) else s1.(rejected := s.rejected + [p])
    case WorkerTests(i) =>
      var w := s.workers[i];
      if w.pc.Loop? then Move(s, i, w.(pc := if s.running then TryPop else DrainPop))
      else if s.running then Move(s, i, w.(pc := TryPush(w.pc.p)))
      else Move(s, i, Worker(Loop, w.dropped + [w.pc.p]))
    case WorkerPops(i, ok) =>
      var w := s.workers[i];
      if ok then Move(s.(raw := s.raw[1..]), i, w.(pc := AfterPop(w.pc, Some(s.raw[0]))))
      else Move(s, i, w.(pc := AfterPop(w.pc, None)))
    case WorkerPushes(i, ok) =>
      var w := s.workers[i];
      var s1 := if ok then s.(dissected := s.dissected + [w.pc.p]) else s;
      Move(s1, i, w.(pc := AfterPush(w.pc, ok)))
    case SenderTests => s.(sender := if s.running then STryPop else SDrainPop)
    case SenderPops(ok) =>
      if ok then s.(dissected := s.dissected[1..], sender := AfterSenderPop(s.sender, Some(s.dissected[0])))
      else s.(sender := AfterSenderPop(s.sender, None))
    case SenderSends =>
      s.(sent := s.sent + [s.sender.p], sender := if s.sender.SSend? then SLoop else SDrainPop)
  }

  function Init<T>(workers: nat): State<T> {
    State(true, [], seq(workers, _ => Worker(Loop, [])), [], SLoop, [], [], [])
  }

  predicate Legal<T>(s: State<T>, es: seq<Event<T>>)
    decreases |es|
  {
    es == [] || (Enabled(s, es[0]) && Legal(Apply(s, es[0]), es[1..]))
  }

  function Run<T>(s: State<T>, es: seq<Event<T>>): State<T>
    requires Legal(s, es)
    decreases |es|
  {
    if es == [] then s else Run(Apply(s, es[0]), es[1..])
  }

  // ----- Where the packets are -----

  function InHand<T>(w: Worker<T>): seq<T> {
    match w.pc
    case TryPush(p) => [p]
    case Recheck(p) => [p]
    case DrainPush(p) => [p]
    case _ => []
  }

  function InHandOfSender<T>(r: Sender<T>): seq<T> {
    match r
    case SSend(p) => [p]
    case SDrainSend(p) => [p]
    case _ => []
  }

  ghost function Count<T>(s: seq<T>, x: T): nat {
    if s == [] then 0 else Count(s[1..], x) + if s[0] == x then 1 else 0
  }

  lemma {:induction false} CountSnoc<T>(s: seq<T>, p: T, x: T)
    ensures Count(s + [p], x) == Count(s, x) + if p == x then 1 else 0
  {
    if s == [] {
      assert [p][1..] == [];
    } else {
      assert (s + [p])[1..] == s[1..] + [p];
      CountSnoc(s[1..], p, x);
    }
  }

  ghost function AtWorker<T>(w: Worker<T>, x: T): nat {
    Count(InHand(w), x) + Count(w.dropped, x)
  }

  /** How often the workers hold x or have dropped it, together. */
  ghost function AtWorkers<T>(ws: seq<Worker<T>>, x: T): nat {
    if ws == [] then 0 else AtWorker(ws[0], x) + AtWorkers(ws[1..], x)
  }

  lemma {:induction false} AtWorkersUpdate<T>(ws: seq<Worker<T>>, i: nat, w: Worker<T>, x: T)
    requires i < |ws|
    ensures AtWorkers(ws[i := w], x) + AtWorker(ws[i], x) == AtWorkers(ws, x) + AtWorker(w, x)
  {
    if i == 0 {
      assert ws[0 := w][1..] == ws[1..];
    } else {
      AtWorkersUpdate(ws[1..], i - 1, w, x);
      assert ws[i := w][1..] == ws[1..][i - 1 := w];
    }
  }

  /** How often x is in one of the places where a captured packet can be. */
  ghost function Places<T>(s: State<T>, x: T): nat {
    Count(s.rejected, x) + Count(s.raw, x) + AtWorkers(s.workers, x)
    + Count(s.dissected, x) + Count(InHandOfSender(s.sender), x) + Count(s.sent, x)
  }

  /** Every captured packet is in exactly one place, as often as it was captured. */
  ghost predicate Conserved<T(!new)>(s: State<T>) {
    forall x :: Places(s, x) == Count(s.captured, x)
  }

  /** Nothing is dropped before the stop, and a worker that has dropped a packet never holds one in the
      loop that drops. */
  ghost predicate DropsOnce<T>(s: State<T>) {
    forall i :: 0 <= i < |s.workers| ==>
      var w := s.workers[i];
      && |w.dropped| <= 1
      && (w.dropped != [] ==> !s.running && !w.pc.TryPop? && !w.pc.TryPush? && !w.pc.Recheck?)
  }

  ghost predicate Inv<T(!new)>(s: State<T>) {
    && Conserved(s) && DropsOnce(s)
    && |s.raw| <= QUEUE_CAPACITY && |s.dissected| <= QUEUE_CAPACITY
  }

  lemma CountOne<T>(p: T, x: T)
    ensures Count([p], x) == if p == x then 1 else 0
  {
    assert [p][1..] == [];
  }

  lemma WorkerPlacesStep<T>(s: State<T>, e: Event<T>, x: T)
    requires Enabled(s, e) && (e.WorkerTests? || e.WorkerPops? || e.WorkerPushes?)
    ensures Places(Apply(s, e), x) == Places(s, x)
  {
    var w, w' := s.workers[e.i], Apply(s, e).workers[e.i];
    AtWorkersUpdate(s.workers, e.i, w', x);
    match e
    case WorkerTests(_) =>
      if w.pc.Recheck? {
        CountSnoc(w.dropped, w.pc.p, x);
        CountOne(w.pc.p, x);
      }
    case WorkerPops(_, ok) =>
      if ok {
        CountOne(s.raw[0], x);
      }
    case WorkerPushes(_, _) =>
      CountSnoc(s.dissected, w.pc.p, x);
      CountOne(w.pc.p, x);
  }

  lemma PlacesStep<T>(s: State<T>, e: Event<T>, x: T)
    requires Enabled(s, e) && Places(s, x) == Count(s.captured, x)
    ensures Places(Apply(s, e), x) == Count(Apply(s, e).captured, x)
  {
    match e
    case Stop =>
    case Capture(p, ok) =>
      CountSnoc(s.captured, p, x);
      CountSnoc(s.raw, p, x);
      CountSnoc(s.rejected, p, x);
    case SenderTests =>
    case SenderPops(ok) =>
      if ok {
        CountOne(s.dissected[0], x);
      }
    case SenderSends =>
      CountSnoc(s.sent, s.sender.p, x);
      CountOne(s.sender.p, x);
    case _ => WorkerPlacesStep(s, e, x);
  }

  lemma DropsOnceStep<T>(s: State<T>, e: Event<T>)
    requires DropsOnce(s) && Enabled(s, e)
    ensures DropsOnce(Apply(s, e))
  {
  }

  lemma InvStep<T(!new)>(s: State<T>, e: Event<T>)
    requires Inv(s) && Enabled(s, e)
    ensures Inv(Apply(s, e))
    ensures |Apply(s, e).workers| == |s.workers|
  {
    var s' := Apply(s, e);
    forall x ensures Places(s', x) == Count(s'.captured, x) {
      PlacesStep(s, e, x);
    }
    DropsOnceStep(s, e);
  }

  lemma {:induction false} InvRun<T(!new)>(s: State<T>, es: seq<Event<T>>)
    requires Inv(s) && Legal(s, es)
    ensures Inv(Run(s, es)) && |Run(s, es).workers| == |s.workers|
    decreases |es|
  {
    if es != [] {
      InvStep(s, es[0]);
      InvRun(Apply(s, es[0]), es[1..]);
    }
  }

  lemma {:induction false} NothingAtStart<T>(ws: seq<Worker<T>>, x: T)
    requires forall i :: 0 <= i < |ws| ==> ws[i] == Worker(Loop, [])
    ensures AtWorkers(ws, x) == 0
  {
    if ws != [] {
      NothingAtStart(ws[1..], x);
    }
  }

  /** In every reachable state with any number of workers the captured packets are partitioned, none
      twice, among their places; nothing is dropped while the flag is up; a worker drops at most one. */
  lemma PacketsAreConserved<T(!new)>(workers: nat, es: seq<Event<T>>)
    requires Legal(Init<T>(workers), es)
    ensures var s := Run(Init<T>(workers), es);
            && Conserved(s) && |s.workers| == workers
            && |s.raw| <= QUEUE_CAPACITY && |s.dissected| <= QUEUE_CAPACITY
            && forall i :: 0 <= i < workers ==>
                 |s.workers[i].dropped| <= 1 && (s.running ==> s.workers[i].dropped == [])
  {
    var s := Init<T>(workers);
    forall x: T ensures Places(s, x) == Count(s.captured, x) {
      NothingAtStart(s.workers, x);
    }
    InvRun(Init<T>(workers), es);
  }

  // ----- The threads' loops -----

  ghost predicate InMainLoop<T>(pc: WorkerPc<T>) {
    pc.Loop? || pc.TryPop? || pc.TryPush? || pc.Recheck?
  }

  ghost predicate SenderInMainLoop<T>(sender: Sender<T>) {
    sender.SLoop? || sender.STryPop? || sender.SSend?
  }

  /** While the flag is up every thread is in its main loop. */
  ghost predicate Serving<T>(s: State<T>) {
    s.running ==>
      && SenderInMainLoop(s.sender)
      && forall i :: 0 <= i < |s.workers| ==> InMainLoop(s.workers[i].pc)
  }

  lemma {:induction false} ServingRun<T>(s: State<T>, es: seq<Event<T>>)
    requires Serving(s) && Legal(s, es)
    ensures Serving(Run(s, es))
    decreases |es|
  {
    if es != [] {
      ServingRun(Apply(s, es[0]), es[1..]);
    }
  }

  /** In every reachable state: while the flag is up, no worker is draining or done, and neither is the sender. */
  lemma ThreadsServe<T>(workers: nat, es: seq<Event<T>>)
    requires Legal(Init<T>(workers), es)
    ensures Serving(Run(Init<T>(workers), es))
  {
    ServingRun(Init<T>(workers), es);
  }

  /** Its pop in the drain was refused. */
  predicate WorkerEnds<T>(s: State<T>, e: Event<T>, i: nat)
    requires i < |s.workers|
  {
    e == WorkerPops(i, false) && s.workers[i].pc.DrainPop?
  }

  predicate SenderEnds<T>(s: State<T>, e: Event<T>) {
    e == SenderPops(false) && s.sender.SDrainPop?
  }

  /** In every reachable state: a step ends a thread if and only if it is its refused pop in the drain, and that comes
      after the stop; whoever has ended stays so. */
  lemma EndsOnlyDrained<T(!new)>(workers: nat, es: seq<Event<T>>, e: Event<T>, i: nat)
    requires Legal(Init<T>(workers), es) && Enabled(Run(Init<T>(workers), es), e) && i < workers
    ensures
      var s := Run(Init<T>(workers), es);
      var s' := Apply(s, e);
      && |s.workers| == |s'.workers| == workers
      && (s'.workers[i].pc.Done? <==> s.workers[i].pc.Done? || WorkerEnds(s, e, i))
      && (s'.sender.SDone? <==> s.sender.SDone? || SenderEnds(s, e))
      && (s'.workers[i].pc.Done? || s'.sender.SDone? ==> !s.running)
  {
    ThreadsServe<T>(workers, es);
    PacketsAreConserved<T>(workers, es);
  }

  // Steps that a worker or the sender can still take before its drain, once the flag is down.

  function StepsToDrain<T>(pc: WorkerPc<T>): nat {
    match pc
    case TryPop => 4
    case TryPush(_) => 3
    case Recheck(_) => 2
    case Loop => 1
    case _ => 0
  }

  function SenderStepsToDrain<T>(sender: Sender<T>): nat {
    match sender
    case STryPop => 3
    case SSend(_) => 2
    case SLoop => 1
    case _ => 0
  }

  ghost predicate OfWorker<T>(e: Event<T>, i: nat) {
    (e.WorkerTests? || e.WorkerPops? || e.WorkerPushes?) && e.i == i
  }

  ghost predicate OfSender<T>(e: Event<T>) {
    e.SenderTests? || e.SenderPops? || e.SenderSends?
  }

  lemma StopIsFollowed<T>(s: State<T>, e: Event<T>, i: nat)
    requires Enabled(s, e) && i < |s.workers| && !s.running
    ensures !Apply(s, e).running
    ensures
      var pc, pc' := s.workers[i].pc, Apply(s, e).workers[i].pc;
      if !OfWorker(e, i) then pc' == pc
      else if InMainLoop(pc) then StepsToDrain(pc') < StepsToDrain(pc) && !pc'.Done?
      else if pc.DrainPush? then pc' == if e.ok then DrainPop else pc
      else pc' == if e.ok then DrainPush(s.raw[0]) else Done
    ensures
      var r, r' := s.sender, Apply(s, e).sender;
      if !OfSender(e) then r' == r
      else if SenderInMainLoop(r) then SenderStepsToDrain(r') < SenderStepsToDrain(r) && !r'.SDone?
      else if r.SDrainSend? then r' == SDrainPop
      else r' == if e.ok then SDrainSend(s.dissected[0]) else SDone
  {
  }

  /** How many of these events are steps of a worker. */
  ghost function StepsOf<T>(es: seq<Event<T>>, i: nat): nat
    decreases |es|
  {
    if es == [] then 0 else StepsOf(es[1..], i) + if OfWorker(es[0], i) then 1 else 0
  }

  ghost function StepsOfSender<T>(es: seq<Event<T>>): nat
    decreases |es|
  {
    if es == [] then 0 else StepsOfSender(es[1..]) + if OfSender(es[0]) then 1 else 0
  }

  /** From the stop on, whatever the others do: after at most four steps of its own a worker has left its main loop for
      good, and so has the sender after at most three. */
  lemma {:induction false} MainLoopsEnd<T>(s: State<T>, es: seq<Event<T>>, i: nat)
    requires Legal(s, es) && i < |s.workers| && !s.running
    ensures
      var s' := Run(s, es);
      && i < |s'.workers| && !s'.running
      && (InMainLoop(s'.workers[i].pc) ==>
            && InMainLoop(s.workers[i].pc)
            && StepsOf(es, i) + StepsToDrain(s'.workers[i].pc) <= StepsToDrain(s.workers[i].pc))
      && (SenderInMainLoop(s'.sender) ==>
            && SenderInMainLoop(s.sender)
            && StepsOfSender(es) + SenderStepsToDrain(s'.sender) <= SenderStepsToDrain(s.sender))
    ensures StepsOf(es, i) >= 4 ==> !InMainLoop(Run(s, es).workers[i].pc)
    ensures StepsOfSender(es) >= 3 ==> !SenderInMainLoop(Run(s, es).sender)
    decreases |es|
  {
    if es != [] {
      StopIsFollowed(s, es[0], i);
      MainLoopsEnd(Apply(s, es[0]), es[1..], i);
    }
  }

  // ----- Order, with a single worker -----

  /** The packets on their way, from the one sent first to the one captured last. */
  ghost function OnTheWay<T>(s: State<T>): seq<T>
    requires |s.workers| == 1
  {
    s.sent + (InHandOfSender(s.sender) + (s.dissected + (InHand(s.workers[0]) + s.raw)))
  }

  /** Moving a packet on does not change the packets on their way. */
  lemma MovingOn<T>(s: State<T>, e: Event<T>)
    requires |s.workers| == 1 && Enabled(s, e)
    requires e.WorkerPops? || e.WorkerPushes? || e.SenderPops? || e.SenderSends?
    ensures OnTheWay(Apply(s, e)) == OnTheWay(s)
  {
    var s' := Apply(s, e);
    var hand, hand' := InHand(s.workers[0]), InHand(s'.workers[0]);
    match e
    case WorkerPops(_, _) =>
      assert hand' + s'.raw == hand + s.raw;
    case WorkerPushes(_, _) =>
      assert s'.dissected + (hand' + s'.raw) == s.dissected + (hand + s.raw);
    case SenderPops(_) =>
      var rest := hand + s.raw;
      assert InHandOfSender(s'.sender) + (s'.dissected + rest) == InHandOfSender(s.sender) + (s.dissected + rest);
    case SenderSends =>
      var rest := s.dissected + (hand + s.raw);
      assert s'.sent + ([] + rest) == s.sent + ([s.sender.p] + rest);
  }

  /** Dropping the packet in the worker's hand takes one packet out. */
  lemma Dropping<T>(s: State<T>, e: Event<T>)
    requires |s.workers| == 1 && Enabled(s, e) && e.WorkerTests? && s.workers[0].pc.Recheck? && !s.running
    ensures var i := |s.sent| + |InHandOfSender(s.sender)| + |s.dissected|;
            i < |OnTheWay(s)| && OnTheWay(Apply(s, e)) == DropAt(OnTheWay(s), i)
  {
    var before := s.sent + (InHandOfSender(s.sender) + s.dissected);
    assert OnTheWay(s) == before + ([s.workers[0].pc.p] + s.raw);
    assert OnTheWay(Apply(s, e)) == before + ([] + s.raw);
  }

  lemma Capturing<T>(s: State<T>, p: T)
    requires |s.workers| == 1 && Sub(OnTheWay(s), s.captured)
    ensures Sub(OnTheWay(s), s.captured + [p]) && Sub(OnTheWay(s) + [p], s.captured + [p])
    ensures OnTheWay(s.(raw := s.raw + [p])) == OnTheWay(s) + [p]
  {
    SubSnoc(OnTheWay(s), s.captured, p);
  }

  lemma OrderStep<T>(s: State<T>, e: Event<T>)
    requires |s.workers| == 1 && Sub(OnTheWay(s), s.captured) && Enabled(s, e)
    ensures |Apply(s, e).workers| == 1 && Sub(OnTheWay(Apply(s, e)), Apply(s, e).captured)
  {
    match e
    case Stop =>
    case SenderTests =>
    case Capture(p, ok) =>
      Capturing(s, p);
      assert OnTheWay(Apply(s, e)) == OnTheWay(if ok then s.(raw := s.raw + [p]) else s);
    case WorkerTests(_) =>
      if s.workers[0].pc.Recheck? && !s.running {
        Dropping(s, e);
        SubDrop(OnTheWay(s), s.captured, |s.sent| + |InHandOfSender(s.sender)| + |s.dissected|);
      } else {
        assert InHand(Apply(s, e).workers[0]) == InHand(s.workers[0]);
      }
    case _ => MovingOn(s, e);
  }

  lemma {:induction false} OrderRun<T>(s: State<T>, es: seq<Event<T>>)
    requires |s.workers| == 1 && Sub(OnTheWay(s), s.captured) && Legal(s, es)
    ensures |Run(s, es).workers| == 1 && Sub(OnTheWay(Run(s, es)), Run(s, es).captured)
    decreases |es|
  {
    if es != [] {
      OrderStep(s, es[0]);
      OrderRun(Apply(s, es[0]), es[1..]);
    }
  }

  /** With one worker, packets are sent in the order in which they were captured. */
  lemma OneWorkerKeepsOrder<T>(es: seq<Event<T>>)
    requires Legal(Init<T>(1), es)
    ensures Sub(Run(Init<T>(1), es).sent, Run(Init<T>(1), es).captured)
  {
    OrderRun(Init<T>(1), es);
    var s := Run(Init<T>(1), es);
    SubPrefix(s.sent, InHandOfSender(s.sender) + (s.dissected + (InHand(s.workers[0]) + s.raw)), s.captured);
  }

  lemma {:induction false} SubPrefix<T>(a: seq<T>, more: seq<T>, b: seq<T>)
    requires Sub(a + more, b)
    ensures Sub(a, b)
    decreases |more|
  {
    if more == [] {
      assert a + more == a;
    } else {
      SubDrop(a + more, b, |a| + |more| - 1);
      assert DropAt(a + more, |a| + |more| - 1) == a + more[..|more| - 1];
      SubPrefix(a, more[..|more| - 1], b);
    }
  }
}

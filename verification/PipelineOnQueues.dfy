/**
 The pipeline with its two queues as they run: a call to push or pop takes as many atomic steps as QueueProtocol says,
 and between them every other thread may take steps of its own. Thread 0 of the raw queue is the capture callback,
 thread 0 of the dissected queue the sender, and thread i + 1 of both is worker i. Seen from outside, these runs are
 those of Pipeline, whose events take a whole call at once.
 */
module PipelineOnQueues {
  import opened Words
  import opened Sequences
  import opened QueueRefinement
  import Q = QueueProtocol
  import P = Pipeline
  import QueueProgress

  // What the threads have outside the queues; `offered` is the packet in the hands of the capture callback.
  datatype Local<T> = Local(
    running: bool,
    offered: Option<T>,
    workers: seq<P.Worker<T>>,
    sender: P.Sender<T>,
    captured: seq<T>,
    rejected: seq<T>,
    sent: seq<T>)

  datatype State<T> = State(raw: Q.Config<T>, dissected: Q.Config<T>, local: Local<T>)

  datatype Event<T> =
    | Stop
    | OnRaw(q: Q.Event<T>)
    | OnDissected(q: Q.Event<T>)
    | WorkerTests(i: nat)
    | SenderTests
    | SenderSends

  // ----- Who calls what, and what a thread does with the answer -----

  predicate Pops<T>(pc: P.WorkerPc<T>) {
    pc.TryPop? || pc.DrainPop?
  }

  predicate Pushes<T>(pc: P.WorkerPc<T>) {
    pc.TryPush? || pc.DrainPush?
  }

  predicate SenderPops<T>(sender: P.Sender<T>) {
    sender.STryPop? || sender.SDrainPop?
  }

  predicate CallsRaw<T>(l: Local<T>, p: nat, act: Act<T>) {
    && p <= |l.workers|
    && (act.AskPush? ==> p == 0)
    && (act.AskPop? ==> p > 0 && Pops(l.workers[p - 1].pc))
  }

  ghost predicate CallsDissected<T>(l: Local<T>, p: nat, act: Act<T>) {
    && p <= |l.workers|
    && (act.AskPush? ==> p > 0 && Pushes(l.workers[p - 1].pc) && l.workers[p - 1].pc.p == act.v)
    && (act.AskPop? ==> p == 0 && SenderPops(l.sender))
  }

  function Goto<T>(l: Local<T>, i: nat, pc: P.WorkerPc<T>): Local<T>
    requires i < |l.workers|
  {
    l.(workers := l.workers[i := l.workers[i].(pc := pc)])
  }

  /** A packet counts as captured when its push is called. */
  function AfterRaw<T>(l: Local<T>, p: nat, act: Act<T>): (after: Local<T>)
    requires CallsRaw(l, p, act)
    ensures |after.workers| == |l.workers|
  {
    match act
    case AskPush(v) => l.(offered := Some(v), captured := l.captured + [v])
    case Return(result) =>
      if p > 0 then Goto(l, p - 1, P.AfterPop(l.workers[p - 1].pc, result))
      else if result.None? && l.offered.Some? then
        l.(offered := None, rejected := l.rejected + [l.offered.value])
      else l.(offered := None)
    case _ => l
  }

  function AfterDissected<T>(l: Local<T>, p: nat, act: Act<T>): (after: Local<T>)
    requires CallsDissected(l, p, act)
    ensures |after.workers| == |l.workers|
  {
    match act
    case Return(result) =>
      if p > 0 then Goto(l, p - 1, P.AfterPush(l.workers[p - 1].pc, result.Some?))
      else l.(sender := P.AfterSenderPop(l.sender, result))
    case _ => l
  }

  predicate OwnEnabled<T>(l: Local<T>, e: Event<T>) {
    match e
    case Stop => true
    case WorkerTests(i) => i < |l.workers| && (l.workers[i].pc.Loop? || l.workers[i].pc.Recheck?)
    case SenderTests => l.sender.SLoop?
    case SenderSends => l.sender.SSend? || l.sender.SDrainSend?
    case _ => false
  }

  /** A step that no queue has a part in. */
  function Own<T>(l: Local<T>, e: Event<T>): Local<T>
    requires OwnEnabled(l, e)
  {
    match e
    case Stop => l.(running := false)
    case WorkerTests(i) =>
      var w := l.workers[i];
      if w.pc.Loop? then Goto(l, i, if l.running then P.TryPop else P.DrainPop)
      else if l.running then Goto(l, i, P.TryPush(w.pc.p))
      else l.(workers := l.workers[i := P.Worker(P.Loop, w.dropped + [w.pc.p])])
    case SenderTests => l.(sender := if l.running then P.STryPop else P.SDrainPop)
    case SenderSends =>
      l.(sent := l.sent + [l.sender.p], sender := if l.sender.SSend? then P.SLoop else P.SDrainPop)
  }

  ghost predicate Enabled<T>(s: State<T>, e: Event<T>) {
    match e
    case OnRaw(q) => Q.Enabled(s.raw.m, q) && CallsRaw(s.local, q.p, ActOf(Q.Ideal, s.raw.m, q))
    case OnDissected(q) => Q.Enabled(s.dissected.m, q) && CallsDissected(s.local, q.p, ActOf(Q.Ideal, s.dissected.m, q))
    case _ => OwnEnabled(s.local, e)
  }

  function Apply<T>(s: State<T>, e: Event<T>): State<T>
    requires Enabled(s, e)
  {
    match e
    case OnRaw(q) => s.(raw := Q.Step(s.raw, q), local := AfterRaw(s.local, q.p, ActOf(Q.Ideal, s.raw.m, q)))
    case OnDissected(q) =>
      s.(dissected := Q.Step(s.dissected, q), local := AfterDissected(s.local, q.p, ActOf(Q.Ideal, s.dissected.m, q)))
    case _ => s.(local := Own(s.local, e))
  }

  /** The threads 0 to n. */
  function Threads(n: nat): set<Q.Tid> {
    {n} + if n == 0 then {} else Threads(n - 1)
  }

  function Begin<T>(workers: nat): Local<T> {
    Local(true, None, seq(workers, _ => P.Worker(P.Loop, [])), P.SLoop, [], [], [])
  }

  function Start<T>(workers: nat): State<T> {
    var queue := Q.Start<T>(P.QUEUE_CAPACITY, Threads(workers));
    State(queue, queue, Begin(workers))
  }

  ghost predicate Legal<T>(s: State<T>, es: seq<Event<T>>)
    decreases |es|
  {
    es == [] || (Enabled(s, es[0]) && Legal(Apply(s, es[0]), es[1..]))
  }

  function Run<T>(s: State<T>, es: seq<Event<T>>): State<T>
    requires Legal(s, es)
    decreases |es|
  {
    if es == [] then s else Run(Apply(s, es[0]), es[1..])
  }

  // ----- Calls and callers belong together -----

  // The queues by their contents and calls.
  datatype View<T> = View(raw: Line<T>, dissected: Line<T>, local: Local<T>)

  /** The packet offered is the one being pushed, and until that is decided the last one captured. */
  ghost predicate CaptureGood<T>(l: Local<T>, onRaw: Phase<T>) {
    match onRaw
    case Outside => l.offered == None
    case Putting(v) => l.offered == Some(v) && l.captured != [] && l.captured[|l.captured| - 1] == v
    case HasPut(v) => l.offered == Some(v)
    case _ => false
  }

  ghost predicate WorkerGood<T>(pc: P.WorkerPc<T>, onRaw: Phase<T>, onDissected: Phase<T>) {
    && (onRaw == Outside || (Pops(pc) && (onRaw == Taking || onRaw.HasTaken?)))
    && (onDissected == Outside || (Pushes(pc) && (onDissected == Putting(pc.p) || onDissected == HasPut(pc.p))))
  }

  ghost predicate SenderGood<T>(sender: P.Sender<T>, onDissected: Phase<T>) {
    onDissected == Outside || (SenderPops(sender) && (onDissected == Taking || onDissected.HasTaken?))
  }

  ghost predicate Good<T>(v: View<T>) {
    && |v.raw.phases| == |v.dissected.phases| == |v.local.workers| + 1
    && CaptureGood(v.local, v.raw.phases[0]) && SenderGood(v.local.sender, v.dissected.phases[0])
    && forall i :: 0 <= i < |v.local.workers| ==>
         WorkerGood(v.local.workers[i].pc, v.raw.phases[i + 1], v.dissected.phases[i + 1])
  }

  // ----- As if every call took one step -----

  /** Where a worker is if a call that has taken effect counts as over. */
  function SeenPc<T>(pc: P.WorkerPc<T>, onRaw: Phase<T>, onDissected: Phase<T>): P.WorkerPc<T> {
    if onRaw.HasTaken? then P.AfterPop(pc, Some(onRaw.v))
    else if onDissected.HasPut? then P.AfterPush(pc, true)
    else pc
  }

  ghost function SeenWorker<T>(v: View<T>, i: nat): P.Worker<T>
    requires Good(v) && i < |v.local.workers|
  {
    v.local.workers[i].(pc := SeenPc(v.local.workers[i].pc, v.raw.phases[i + 1], v.dissected.phases[i + 1]))
  }

  function SeenSender<T>(sender: P.Sender<T>, onDissected: Phase<T>): P.Sender<T> {
    if onDissected.HasTaken? then P.AfterSenderPop(sender, Some(onDissected.v)) else sender
  }

  /** The packets whose push is decided. */
  function SeenCaptured<T>(captured: seq<T>, onRaw: Phase<T>): seq<T> {
    if onRaw.Putting? && captured != [] then captured[..|captured| - 1] else captured
  }

  ghost function SeenState<T>(v: View<T>): P.State<T>
    requires Good(v)
  {
    var l := v.local;
    P.State(
      l.running,
      v.raw.list,
      seq(|l.workers|, i requires 0 <= i < |l.workers| => SeenWorker(v, i)),
      v.dissected.list,
      SeenSender(l.sender, v.dissected.phases[0]),
      SeenCaptured(l.captured, v.raw.phases[0]),
      l.rejected,
      l.sent)
  }

  /** Whether an act decides a call, and how. */
  function Decision<T>(act: Act<T>): Option<bool> {
    match act
    case Claim => Some(true)
    case Return(None) => Some(false)
    case _ => None
  }

  /** The pipeline's event that an act on the raw queue is, if it is one. */
  function SeenOnRaw<T>(l: Local<T>, p: nat, act: Act<T>): Option<P.Event<T>> {
    match Decision(act)
    case None => None
    case Some(ok) =>
      if p > 0 then Some(P.WorkerPops(p - 1, ok))
      else if l.offered.Some? then Some(P.Capture(l.offered.value, ok))
      else None
  }

  function SeenOnDissected<T>(p: nat, act: Act<T>): Option<P.Event<T>> {
    match Decision(act)
    case None => None
    case Some(ok) => Some(if p > 0 then P.WorkerPushes(p - 1, ok) else P.SenderPops(ok))
  }

  function OwnSeen<T>(e: Event<T>): Option<P.Event<T>> {
    match e
    case Stop => Some(P.Stop)
    case WorkerTests(i) => Some(P.WorkerTests(i))
    case SenderTests => Some(P.SenderTests)
    case SenderSends => Some(P.SenderSends)
    case _ => None
  }

  function Seen<T>(s: State<T>, e: Event<T>): Option<P.Event<T>>
    requires Enabled(s, e)
  {
    match e
    case OnRaw(q) => SeenOnRaw(s.local, q.p, ActOf(Q.Ideal, s.raw.m, q))
    case OnDissected(q) => SeenOnDissected(q.p, ActOf(Q.Ideal, s.dissected.m, q))
    case _ => OwnSeen(e)
  }

  /** Nothing happens in the pipeline, or that event does. */
  ghost predicate Follows<T>(before: P.State<T>, seen: Option<P.Event<T>>, after: P.State<T>) {
    match seen
    case None => after == before
    case Some(e) => P.Enabled(before, e) && P.Apply(before, e) == after
  }

  lemma CaptureStep<T>(v: View<T>, act: Act<T>, raw': Line<T>)
    requires Good(v) && CallsRaw(v.local, 0, act) && LineStep(P.QUEUE_CAPACITY, v.raw, 0, act, raw')
    ensures
      var v' := v.(raw := raw', local := AfterRaw(v.local, 0, act));
      Good(v') && Follows(SeenState(v), SeenOnRaw(v.local, 0, act), SeenState(v'))
  {
  }

  lemma PopStep<T>(v: View<T>, p: nat, act: Act<T>, raw': Line<T>)
    requires p > 0 && Good(v) && CallsRaw(v.local, p, act) && LineStep(P.QUEUE_CAPACITY, v.raw, p, act, raw')
    ensures
      var v' := v.(raw := raw', local := AfterRaw(v.local, p, act));
      Good(v') && Follows(SeenState(v), SeenOnRaw(v.local, p, act), SeenState(v'))
  {
    var v' := v.(raw := raw', local := AfterRaw(v.local, p, act));
    assert SeenState(v').workers == SeenState(v).workers[p - 1 := SeenWorker(v', p - 1)];
  }

  lemma PushStep<T>(v: View<T>, p: nat, act: Act<T>, dissected': Line<T>)
    requires p > 0 && Good(v) && CallsDissected(v.local, p, act)
    requires LineStep(P.QUEUE_CAPACITY, v.dissected, p, act, dissected')
    ensures
      var v' := v.(dissected := dissected', local := AfterDissected(v.local, p, act));
      Good(v') && Follows(SeenState(v), SeenOnDissected(p, act), SeenState(v'))
  {
  }

  lemma SenderPopStep<T>(v: View<T>, act: Act<T>, dissected': Line<T>)
    requires Good(v) && CallsDissected(v.local, 0, act)
    requires LineStep(P.QUEUE_CAPACITY, v.dissected, 0, act, dissected')
    ensures
      var v' := v.(dissected := dissected', local := AfterDissected(v.local, 0, act));
      Good(v') && Follows(SeenState(v), SeenOnDissected(0, act), SeenState(v'))
  {
  }

  lemma RawStep<T>(v: View<T>, p: nat, act: Act<T>, raw': Line<T>)
    requires Good(v) && CallsRaw(v.local, p, act) && LineStep(P.QUEUE_CAPACITY, v.raw, p, act, raw')
    ensures
      var v' := v.(raw := raw', local := AfterRaw(v.local, p, act));
      Good(v') && Follows(SeenState(v), SeenOnRaw(v.local, p, act), SeenState(v'))
  {
    if p == 0 {
      CaptureStep(v, act, raw');
    } else {
      PopStep(v, p, act, raw');
    }
  }

  lemma DissectedStep<T>(v: View<T>, p: nat, act: Act<T>, dissected': Line<T>)
    requires Good(v) && CallsDissected(v.local, p, act)
    requires LineStep(P.QUEUE_CAPACITY, v.dissected, p, act, dissected')
    ensures
      var v' := v.(dissected := dissected', local := AfterDissected(v.local, p, act));
      Good(v') && Follows(SeenState(v), SeenOnDissected(p, act), SeenState(v'))
  {
    if p == 0 {
      SenderPopStep(v, act, dissected');
    } else {
      PushStep(v, p, act, dissected');
    }
  }

  lemma OwnStep<T>(v: View<T>, e: Event<T>, seen: P.Event<T>)
    requires Good(v) && OwnEnabled(v.local, e) && OwnSeen(e) == Some(seen)
    ensures var v' := v.(local := Own(v.local, e)); Good(v') && Follows(SeenState(v), Some(seen), SeenState(v'))
  {
  }

  // ----- Whole runs -----

  ghost predicate QueueSound<T>(c: Q.Config<T>) {
    Q.Inv(c) && c.m.cap == P.QUEUE_CAPACITY
  }

  ghost predicate Viewable<T>(s: State<T>) {
    s.raw.m.deq <= |s.raw.h.pushed| && s.dissected.m.deq <= |s.dissected.h.pushed|
  }

  ghost function ViewOf<T>(s: State<T>): View<T>
    requires Viewable(s)
  {
    var n := |s.local.workers| + 1;
    View(LineOf(s.raw, n), LineOf(s.dissected, n), s.local)
  }

  ghost predicate Matched<T>(s: State<T>) {
    Viewable(s) && Good(ViewOf(s))
  }

  ghost predicate Sound<T>(s: State<T>) {
    QueueSound(s.raw) && QueueSound(s.dissected) && Matched(s)
  }

  lemma RawTurn<T>(s: State<T>, p: nat, act: Act<T>, raw': Q.Config<T>)
    requires Matched(s) && CallsRaw(s.local, p, act) && raw'.m.deq <= |raw'.h.pushed|
    requires
      var n := |s.local.workers| + 1;
      LineStep(P.QUEUE_CAPACITY, LineOf(s.raw, n), p, act, LineOf(raw', n))
    ensures
      var s' := s.(raw := raw', local := AfterRaw(s.local, p, act));
      Matched(s') && Follows(SeenState(ViewOf(s)), SeenOnRaw(s.local, p, act), SeenState(ViewOf(s')))
  {
    RawStep(ViewOf(s), p, act, LineOf(raw', |s.local.workers| + 1));
  }

  lemma DissectedTurn<T>(s: State<T>, p: nat, act: Act<T>, dissected': Q.Config<T>)
    requires Matched(s) && CallsDissected(s.local, p, act) && dissected'.m.deq <= |dissected'.h.pushed|
    requires
      var n := |s.local.workers| + 1;
      LineStep(P.QUEUE_CAPACITY, LineOf(s.dissected, n), p, act, LineOf(dissected', n))
    ensures
      var s' := s.(dissected := dissected', local := AfterDissected(s.local, p, act));
      Matched(s') && Follows(SeenState(ViewOf(s)), SeenOnDissected(p, act), SeenState(ViewOf(s')))
  {
    DissectedStep(ViewOf(s), p, act, LineOf(dissected', |s.local.workers| + 1));
  }

  lemma RawFollows<T>(s: State<T>, q: Q.Event<T>)
    requires Sound(s) && Enabled(s, OnRaw(q))
    ensures Sound(Apply(s, OnRaw(q)))
    ensures Follows(SeenState(ViewOf(s)), Seen(s, OnRaw(q)), SeenState(ViewOf(Apply(s, OnRaw(q)))))
  {
    LineTurns(s.raw, q, |s.local.workers| + 1);
    RawTurn(s, q.p, ActOf(Q.Ideal, s.raw.m, q), Q.Step(s.raw, q));
  }

  lemma DissectedFollows<T>(s: State<T>, q: Q.Event<T>)
    requires Sound(s) && Enabled(s, OnDissected(q))
    ensures Sound(Apply(s, OnDissected(q)))
    ensures Follows(SeenState(ViewOf(s)), Seen(s, OnDissected(q)), SeenState(ViewOf(Apply(s, OnDissected(q)))))
  {
    LineTurns(s.dissected, q, |s.local.workers| + 1);
    DissectedTurn(s, q.p, ActOf(Q.Ideal, s.dissected.m, q), Q.Step(s.dissected, q));
  }

  lemma OwnFollows<T>(s: State<T>, e: Event<T>)
    requires Sound(s) && Enabled(s, e) && !e.OnRaw? && !e.OnDissected?
    ensures Sound(Apply(s, e))
    ensures Follows(SeenState(ViewOf(s)), Seen(s, e), SeenState(ViewOf(Apply(s, e))))
  {
    OwnStep(ViewOf(s), e, OwnSeen(e).value);
  }

  /** Every atomic step is one event of the pipeline or none. */
  lemma StepFollows<T>(s: State<T>, e: Event<T>)
    requires Sound(s) && Enabled(s, e)
    ensures Sound(Apply(s, e))
    ensures Follows(SeenState(ViewOf(s)), Seen(s, e), SeenState(ViewOf(Apply(s, e))))
  {
    match e
    case OnRaw(q) => RawFollows(s, q);
    case OnDissected(q) => DissectedFollows(s, q);
    case _ => OwnFollows(s, e);
  }

  /** The pipeline's events of a run. */
  ghost function SeenRun<T>(s: State<T>, es: seq<Event<T>>): seq<P.Event<T>>
    requires Legal(s, es)
    decreases |es|
  {
    if es == [] then []
    else
      var later := SeenRun(Apply(s, es[0]), es[1..]);
      match Seen(s, es[0])
      case None => later
      case Some(e) => [e] + later
  }

  lemma {:induction false} RunFollows<T>(s: State<T>, es: seq<Event<T>>)
    requires Sound(s) && Legal(s, es)
    ensures Sound(Run(s, es))
    ensures P.Legal(SeenState(ViewOf(s)), SeenRun(s, es))
    ensures P.Run(SeenState(ViewOf(s)), SeenRun(s, es)) == SeenState(ViewOf(Run(s, es)))
    decreases |es|
  {
    if es != [] {
      StepFollows(s, es[0]);
      RunFollows(Apply(s, es[0]), es[1..]);
    }
  }

  lemma StartIsSound<T>(workers: nat)
    ensures Sound(Start<T>(workers)) && SeenState(ViewOf(Start<T>(workers))) == P.Init<T>(workers)
  {
    Q.InitInv<T>(P.QUEUE_CAPACITY, Threads(workers));
  }

  /** Every run of the capture callback, any number of workers and the sender on the two queues is, with each call taken
      at the step that decides it, a run of the pipeline. */
  lemma RunsAreThePipelines<T>(workers: nat, es: seq<Event<T>>)
    requires Legal(Start<T>(workers), es)
    ensures
      var s := Run(Start<T>(workers), es);
      var seen := SeenRun(Start<T>(workers), es);
      && Sound(s) && P.Legal(P.Init<T>(workers), seen)
      && P.Run(P.Init<T>(workers), seen) == SeenState(ViewOf(s))
  {
    StartIsSound<T>(workers);
    RunFollows(Start<T>(workers), es);
  }

  /** While no call is under way, the pipeline's state is that of the queues and threads. */
  lemma BetweenCalls<T>(s: State<T>)
    requires Matched(s)
    requires forall p :: 0 <= p <= |s.local.workers| ==>
      ViewOf(s).raw.phases[p] == Outside && ViewOf(s).dissected.phases[p] == Outside
    ensures
      var l := s.local;
      SeenState(ViewOf(s)) == P.State(
        l.running, Q.Contents(s.raw), l.workers, Q.Contents(s.dissected), l.sender, l.captured, l.rejected, l.sent)
  {
  }

  /** The packet whose push is under way and not decided yet. */
  function BeingPut<T>(onRaw: Phase<T>): seq<T> {
    if onRaw.Putting? then [onRaw.v] else []
  }

  ghost function Undecided<T>(s: State<T>): seq<T>
    requires Matched(s)
  {
    BeingPut(ViewOf(s).raw.phases[0])
  }

  lemma LastCaptured<T>(l: Local<T>, onRaw: Phase<T>)
    requires CaptureGood(l, onRaw)
    ensures l.captured == SeenCaptured(l.captured, onRaw) + BeingPut(onRaw)
  {
  }

  lemma CountBeingPut<T>(before: seq<T>, onRaw: Phase<T>, x: T)
    ensures P.Count(before + BeingPut(onRaw), x) == P.Count(before, x) + P.Count(BeingPut(onRaw), x)
  {
    if onRaw.Putting? {
      P.CountSnoc(before, onRaw.v, x);
      P.CountOne(onRaw.v, x);
    } else {
      assert before + [] == before;
    }
  }

  /** In every reachable state of the threads and queues every captured packet is being offered, or is in exactly one of
      the pipeline's places, as often as it was captured. */
  lemma PacketsAreConserved<T(!new)>(workers: nat, es: seq<Event<T>>, x: T)
    requires Legal(Start<T>(workers), es)
    ensures
      var s := Run(Start<T>(workers), es);
      && Matched(s)
      && P.Count(s.local.captured, x) == P.Count(Undecided(s), x) + P.Places(SeenState(ViewOf(s)), x)
  {
    var s := Run(Start<T>(workers), es);
    RunsAreThePipelines<T>(workers, es);
    P.PacketsAreConserved<T>(workers, SeenRun(Start<T>(workers), es));
    var onRaw := ViewOf(s).raw.phases[0];
    LastCaptured(s.local, onRaw);
    CountBeingPut(SeenCaptured(s.local.captured, onRaw), onRaw, x);
  }

  /** What the workers have dropped in the threads is what they have dropped in the pipeline: nothing before the stop,
      and never more than one packet each. */
  lemma DroppedAtTheStopOnly<T(!new)>(workers: nat, es: seq<Event<T>>)
    requires Legal(Start<T>(workers), es)
    ensures
      var l := Run(Start<T>(workers), es).local;
      && |l.workers| == workers
      && forall i :: 0 <= i < workers ==> |l.workers[i].dropped| <= 1 && (l.running ==> l.workers[i].dropped == [])
  {
    var s := Run(Start<T>(workers), es);
    RunsAreThePipelines<T>(workers, es);
    P.PacketsAreConserved<T>(workers, SeenRun(Start<T>(workers), es));
    var seen := SeenState(ViewOf(s));
    forall i | 0 <= i < workers
      ensures |s.local.workers[i].dropped| <= 1 && (s.local.running ==> s.local.workers[i].dropped == [])
    {
      assert seen.workers[i].dropped == s.local.workers[i].dropped;
    }
  }

  /** With one worker, the threads and queues send the packets in the order in which they were captured. */
  lemma OneWorkerKeepsOrder<T>(es: seq<Event<T>>)
    requires Legal(Start<T>(1), es)
    ensures var l := Run(Start<T>(1), es).local; Sub(l.sent, l.captured)
  {
    var s := Run(Start<T>(1), es);
    var l := s.local;
    RunsAreThePipelines<T>(1, es);
    P.OneWorkerKeepsOrder<T>(SeenRun(Start<T>(1), es));
    var onRaw := ViewOf(s).raw.phases[0];
    LastCaptured(l, onRaw);
    if onRaw.Putting? {
      SubSnoc(l.sent, SeenCaptured(l.captured, onRaw), onRaw.v);
    }
  }

  // ----- The threads' loops -----

  /** In every reachable state of the threads and queues: while the flag is up, every worker and the sender are in their
      main loops. */
  lemma ThreadsServe<T>(workers: nat, es: seq<Event<T>>)
    requires Legal(Start<T>(workers), es)
    ensures
      var l := Run(Start<T>(workers), es).local;
      l.running ==>
        && P.SenderInMainLoop(l.sender)
        && forall i :: 0 <= i < |l.workers| ==> P.InMainLoop(l.workers[i].pc)
  {
    var s := Run(Start<T>(workers), es);
    RunsAreThePipelines<T>(workers, es);
    P.ThreadsServe<T>(workers, SeenRun(Start<T>(workers), es));
    var seen := SeenState(ViewOf(s));
    forall i | 0 <= i < |s.local.workers| && s.local.running
      ensures P.InMainLoop(s.local.workers[i].pc)
    {
      assert P.InMainLoop(seen.workers[i].pc);
    }
  }

  // Some of the workers, and the sender or not.
  datatype Crew = Crew(workers: set<nat>, sender: bool)

  ghost function Ended<T>(l: Local<T>): Crew {
    Crew((set i: nat | i < |l.workers| && l.workers[i].pc.Done?), l.sender.SDone?)
  }

  function Join(a: Crew, b: Crew): Crew {
    Crew(a.workers + b.workers, a.sender || b.sender)
  }

  // Who ends by this act: a worker or the sender whose pop in the drain returns false.

  ghost function EndedOnRaw<T>(l: Local<T>, p: nat, act: Act<T>): Crew
    requires p <= |l.workers|
  {
    Crew(if p > 0 && act == Return(None) && l.workers[p - 1].pc.DrainPop? then {p - 1} else {}, false)
  }

  ghost function EndedOnDissected<T>(l: Local<T>, p: nat, act: Act<T>): Crew {
    Crew({}, p == 0 && act == Return(None) && l.sender.SDrainPop?)
  }

  lemma EndedByRaw<T>(v: View<T>, p: nat, act: Act<T>, raw': Line<T>)
    requires Good(v) && CallsRaw(v.local, p, act) && LineStep(P.QUEUE_CAPACITY, v.raw, p, act, raw')
    ensures Ended(AfterRaw(v.local, p, act)) == Join(Ended(v.local), EndedOnRaw(v.local, p, act))
  {
    if p > 0 && act.Return? {
      assert WorkerGood(v.local.workers[p - 1].pc, v.raw.phases[p], v.dissected.phases[p]);
    }
  }

  lemma EndedByDissected<T>(v: View<T>, p: nat, act: Act<T>, dissected': Line<T>)
    requires Good(v) && CallsDissected(v.local, p, act)
    requires LineStep(P.QUEUE_CAPACITY, v.dissected, p, act, dissected')
    ensures Ended(AfterDissected(v.local, p, act)) == Join(Ended(v.local), EndedOnDissected(v.local, p, act))
  {
    if p > 0 && act.Return? {
      assert WorkerGood(v.local.workers[p - 1].pc, v.raw.phases[p], v.dissected.phases[p]);
    }
  }

  lemma EndedByOwn<T>(l: Local<T>, e: Event<T>)
    requires OwnEnabled(l, e)
    ensures Ended(Own(l, e)) == Ended(l)
  {
  }

  ghost function EndedBy<T>(s: State<T>, e: Event<T>): Crew
    requires Enabled(s, e)
  {
    match e
    case OnRaw(q) => EndedOnRaw(s.local, q.p, ActOf(Q.Ideal, s.raw.m, q))
    case OnDissected(q) => EndedOnDissected(s.local, q.p, ActOf(Q.Ideal, s.dissected.m, q))
    case _ => Crew({}, false)
  }

  lemma EndedOnRawStep<T>(s: State<T>, q: Q.Event<T>)
    requires Sound(s) && Enabled(s, OnRaw(q))
    ensures
      var act := ActOf(Q.Ideal, s.raw.m, q);
      Ended(AfterRaw(s.local, q.p, act)) == Join(Ended(s.local), EndedOnRaw(s.local, q.p, act))
  {
    var n := |s.local.workers| + 1;
    LineTurns(s.raw, q, n);
    EndedByRaw(ViewOf(s), q.p, ActOf(Q.Ideal, s.raw.m, q), LineOf(Q.Step(s.raw, q), n));
  }

  lemma EndedOnDissectedStep<T>(s: State<T>, q: Q.Event<T>)
    requires Sound(s) && Enabled(s, OnDissected(q))
    ensures
      var act := ActOf(Q.Ideal, s.dissected.m, q);
      Ended(AfterDissected(s.local, q.p, act)) == Join(Ended(s.local), EndedOnDissected(s.local, q.p, act))
  {
    var n := |s.local.workers| + 1;
    LineTurns(s.dissected, q, n);
    EndedByDissected(ViewOf(s), q.p, ActOf(Q.Ideal, s.dissected.m, q), LineOf(Q.Step(s.dissected, q), n));
  }

  /** In every state that keeps the invariant: the threads that have ended are those that had before, and the one whose
      pop in the drain returns false by this step. */
  lemma EndsOnlyDrained<T>(s: State<T>, e: Event<T>)
    requires Sound(s) && Enabled(s, e)
    ensures Ended(Apply(s, e).local) == Join(Ended(s.local), EndedBy(s, e))
  {
    match e
    case OnRaw(q) => EndedOnRawStep(s, q);
    case OnDissected(q) => EndedOnDissectedStep(s, q);
    case _ => EndedByOwn(s.local, e);
  }

  // ----- Nobody is stuck -----

  /** Every thread is known to both queues. */
  ghost predicate HasThreads<T>(s: State<T>) {
    && Q.Shape(s.raw.m) && Q.Shape(s.dissected.m)
    && forall p :: 0 <= p <= |s.local.workers| ==> p in s.raw.m.threads && p in s.dissected.m.threads
  }

  lemma {:induction false} ThreadsAreThere(n: nat, p: nat)
    requires p <= n
    ensures p in Threads(n)
  {
    if p < n {
      ThreadsAreThere(n - 1, p);
    }
  }

  lemma {:induction false} HasThreadsRun<T>(s: State<T>, es: seq<Event<T>>)
    requires HasThreads(s) && Legal(s, es)
    ensures HasThreads(Run(s, es)) && |Run(s, es).local.workers| == |s.local.workers|
    decreases |es|
  {
    if es != [] {
      HasThreadsRun(Apply(s, es[0]), es[1..]);
    }
  }

  /** A step of a worker's, alone or on a queue. */
  ghost predicate OfWorker<T>(e: Event<T>, i: nat) {
    e == WorkerTests(i) || (e.OnRaw? && e.q.p == i + 1) || (e.OnDissected? && e.q.p == i + 1)
  }

  lemma CallOnRaw<T>(s: State<T>, p: nat) returns (e: Event<T>)
    requires HasThreads(s) && 0 < p <= |s.local.workers| && Pops(s.local.workers[p - 1].pc)
    ensures Enabled(s, e) && e.OnRaw? && e.q.p == p
  {
    e := OnRaw(if s.raw.m.threads[p].Idle? then Q.CallPop(p) else QueueProgress.Next(s.raw.m, p));
  }

  lemma CallOnDissected<T>(s: State<T>, p: nat) returns (e: Event<T>)
    requires HasThreads(s) && 0 < p <= |s.local.workers| && Pushes(s.local.workers[p - 1].pc)
    ensures Enabled(s, e) && e.OnDissected? && e.q.p == p
  {
    e := OnDissected(
      if s.dissected.m.threads[p].Idle? then Q.CallPush(p, s.local.workers[p - 1].pc.p)
      else QueueProgress.Next(s.dissected.m, p));
  }

  lemma WorkerCanStep<T>(s: State<T>, i: nat) returns (e: Event<T>)
    requires HasThreads(s) && i < |s.local.workers| && !s.local.workers[i].pc.Done?
    ensures Enabled(s, e) && OfWorker(e, i)
  {
    var pc := s.local.workers[i].pc;
    if Pops(pc) {
      e := CallOnRaw(s, i + 1);
    } else if Pushes(pc) {
      e := CallOnDissected(s, i + 1);
    } else {
      e := WorkerTests(i);
    }
  }

  lemma StartHasThreads<T>(workers: nat)
    ensures HasThreads(Start<T>(workers))
  {
    forall p | 0 <= p <= workers ensures p in Threads(workers) {
      ThreadsAreThere(workers, p);
    }
  }

  /** In every reachable state every worker that has not ended can take a step, whatever the others are doing. */
  lemma NobodyIsStuck<T>(workers: nat, es: seq<Event<T>>, i: nat) returns (e: Event<T>)
    requires Legal(Start<T>(workers), es) && i < workers
    ensures
      var s := Run(Start<T>(workers), es);
      |s.local.workers| == workers && (!s.local.workers[i].pc.Done? ==> Enabled(s, e) && OfWorker(e, i))
  {
    StartHasThreads<T>(workers);
    HasThreadsRun(Start<T>(workers), es);
    if Run(Start<T>(workers), es).local.workers[i].pc.Done? {
      e := Stop;
    } else {
      e := WorkerCanStep(Run(Start<T>(workers), es), i);
    }
  }

  /** So can the sender. */
  lemma SenderIsNotStuck<T>(workers: nat, es: seq<Event<T>>) returns (e: Event<T>)
    requires Legal(Start<T>(workers), es) && !Run(Start<T>(workers), es).local.sender.SDone?
    ensures
      && Enabled(Run(Start<T>(workers), es), e)
      && (e.SenderTests? || e.SenderSends? || (e.OnDissected? && e.q.p == 0))
  {
    StartHasThreads<T>(workers);
    HasThreadsRun(Start<T>(workers), es);
    var s := Run(Start<T>(workers), es);
    var sender := s.local.sender;
    if SenderPops(sender) {
      e := OnDissected(if s.dissected.m.threads[0].Idle? then Q.CallPop(0) else QueueProgress.Next(s.dissected.m, 0));
    } else {
      e := if sender.SLoop? then SenderTests else SenderSends;
    }
  }

  /** And the capture callback: it goes on with its push, or begins one for any packet. */
  lemma CaptureIsNotStuck<T>(workers: nat, es: seq<Event<T>>, v: T) returns (e: Event<T>)
    requires Legal(Start<T>(workers), es)
    ensures Enabled(Run(Start<T>(workers), es), e) && e.OnRaw? && e.q.p == 0 && (e.q.CallPush? ==> e.q.v == v)
  {
    StartHasThreads<T>(workers);
    HasThreadsRun(Start<T>(workers), es);
    var m := Run(Start<T>(workers), es).raw.m;
    e := OnRaw(if m.threads[0].Idle? then Q.CallPush(0, v) else QueueProgress.Next(m, 0));
  }
}

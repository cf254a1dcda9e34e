/**
 What the pipeline takes for granted about its queues is what the queue does. Both are read as operations on one
 bounded first-in first-out list: the pipeline's events, which take a whole call at once, and the atomic steps of the
 queue's threads, of which the claims take effect and all others change nothing.
 */
module QueueRefinement {
  import Pipeline
  import opened Words
  import opened QueueProtocol

  datatype Op<T> = Put(x: T) | Take(x: T) | Refuse | Silent

  ghost predicate Allowed<T>(cap: nat, list: seq<T>, op: Op<T>) {
    match op
    case Put(_) => |list| < cap
    case Take(x) => list != [] && x == list[0]
    case _ => true
  }

  function Effect<T>(list: seq<T>, op: Op<T>): seq<T> {
    match op
    case Put(x) => list + [x]
    case Take(_) => if list == [] then [] else list[1..]
    case _ => list
  }

  ghost predicate FifoStep<T>(cap: nat, before: seq<T>, op: Op<T>, after: seq<T>) {
    Allowed(cap, before, op) && after == Effect(before, op)
  }

  /** From one list to another by these operations. */
  ghost predicate FifoRun<T>(cap: nat, before: seq<T>, ops: seq<Op<T>>, after: seq<T>)
    decreases |ops|
  {
    if ops == [] then before == after
    else Allowed(cap, before, ops[0]) && FifoRun(cap, Effect(before, ops[0]), ops[1..], after)
  }

  // ----- The queue's steps -----

  /** What a step of a thread inside push or pop does to the list. */
  function OpOf<T>(c: Config<T>, e: Event<T>): Op<T>
    requires Enabled(c.m, e)
  {
    var th := c.m.threads[e.p];
    if e.ClaimOk? && th.Pushing? then Put(th.value)
    else if e.ClaimOk? && th.pos < |c.h.pushed| then Take(c.h.pushed[th.pos])
    else if Refuses(Ideal, c.m, e) then Refuse
    else Silent
  }

  lemma QueueStepIsFifoStep<T>(c: Config<T>, e: Event<T>)
    requires Inv(c) && Enabled(c.m, e)
    ensures Inv(Step(c, e)) && FifoStep(c.m.cap, Contents(c), OpOf(c, e), Contents(Step(c, e)))
  {
    RefinesBoundedFifo(c, e);
    if e.ClaimOk? {
      ClaimIsSafe(c, e);
    }
  }

  function OpsOf<T>(c: Config<T>, es: seq<Event<T>>): seq<Op<T>>
    requires Legal(c, es)
    decreases |es|
  {
    if es == [] then [] else [OpOf(c, es[0])] + OpsOf(Step(c, es[0]), es[1..])
  }

  lemma {:induction false} RunIsFifoRun<T>(c: Config<T>, es: seq<Event<T>>)
    requires Inv(c) && Legal(c, es)
    ensures Inv(Run(c, es)) && FifoRun(c.m.cap, Contents(c), OpsOf(c, es), Contents(Run(c, es)))
    decreases |es|
  {
    if es != [] {
      QueueStepIsFifoStep(c, es[0]);
      RunIsFifoRun(Step(c, es[0]), es[1..]);
      assert OpsOf(c, es)[1..] == OpsOf(Step(c, es[0]), es[1..]);
    }
  }

  /** Every run of any number of threads on a queue of the pipeline's size is a run of the list the pipeline assumes,
      from empty; refusals and all steps but the claims leave it alone. */
  lemma QueueRunsAreFifoRuns<T>(tids: set<Tid>, es: seq<Event<T>>)
    requires Legal(Start<T>(Pipeline.QUEUE_CAPACITY, tids), es)
    ensures
      var c := Start<T>(Pipeline.QUEUE_CAPACITY, tids);
      && Inv(Run(c, es))
      && FifoRun(Pipeline.QUEUE_CAPACITY, [], OpsOf(c, es), Contents(Run(c, es)))
  {
    InitInv<T>(Pipeline.QUEUE_CAPACITY, tids);
    RunIsFifoRun(Start<T>(Pipeline.QUEUE_CAPACITY, tids), es);
  }

  // ----- A call as its caller sees it -----

  // No call; putting a value, before and after it is in; taking one, before and after it is out.
  datatype Phase<T> = Outside | Putting(v: T) | HasPut(v: T) | Taking | HasTaken(v: T)

  // A step of a call. What a call returns is None for false, and for true the value put or taken.
  datatype Act<T> = AskPush(v: T) | AskPop | Claim | Quiet | Return(result: Option<T>)

  function ActOf<T>(w: Width, m: Machine<T>, e: Event<T>): Act<T>
    requires Enabled(m, e)
  {
    var th := m.threads[e.p];
    match e
    case CallPush(_, v) => AskPush(v)
    case CallPop(_) => AskPop
    case ClaimOk(_) => Claim
    case StoreSeq(_) => Return(if th.Pushing? then Some(th.value) else th.got)
    case _ => if Refuses(w, m, e) then Return(None) else Quiet
  }

  ghost function PhaseOf<T>(c: Config<T>, p: Tid): Phase<T> {
    if p !in c.m.threads then Outside
    else
      var th := c.m.threads[p];
      match th
      case Idle => Outside
      case Pushing(v, _, _) => if Claimed(th) then HasPut(v) else Putting(v)
      case Popping(_, pos, _) => if Claimed(th) && pos < |c.h.pushed| then HasTaken(c.h.pushed[pos]) else Taking
  }

  /** A call takes effect once, at its claim, which only a call that returns true makes; what a pop takes out is what it
      returns. */
  ghost predicate Turns<T>(cap: nat, list: seq<T>, x: Phase<T>, act: Act<T>, list': seq<T>, x': Phase<T>) {
    match act
    case AskPush(v) => x == Outside && x' == Putting(v) && list' == list
    case AskPop => x == Outside && x' == Taking && list' == list
    case Claim =>
      || (x.Putting? && |list| < cap && x' == HasPut(x.v) && list' == list + [x.v])
      || (x == Taking && list != [] && x' == HasTaken(list[0]) && list' == list[1..])
    case Quiet => x != Outside && x' == x && list' == list
    case Return(None) => (x.Putting? || x == Taking) && x' == Outside && list' == list
    case Return(Some(v)) => (x == HasPut(v) || x == HasTaken(v)) && x' == Outside && list' == list
  }

  /** A thread's step is nobody else's. */
  lemma OthersStay<T>(c: Config<T>, e: Event<T>, q: Tid)
    requires Inv(c) && Enabled(c.m, e) && q != e.p
    ensures PhaseOf(Step(c, e), q) == PhaseOf(c, q)
  {
    if q in c.m.threads {
      assert ThreadInv(c, q);
    }
  }

  lemma CallTurns<T>(c: Config<T>, e: Event<T>)
    requires Inv(c) && Enabled(c.m, e)
    ensures Inv(Step(c, e))
    ensures
      var c' := Step(c, e);
      Turns(c.m.cap, Contents(c), PhaseOf(c, e.p), ActOf(Ideal, c.m, e), Contents(c'), PhaseOf(c', e.p))
  {
    assert ThreadInv(c, e.p);
    RefinesBoundedFifo(c, e);
  }

  // The values in the queue, and what the calls of the threads 0, 1, ... are doing.
  datatype Line<T> = Line(list: seq<T>, phases: seq<Phase<T>>)

  ghost function LineOf<T>(c: Config<T>, threads: nat): Line<T>
    requires c.m.deq <= |c.h.pushed|
  {
    Line(Contents(c), seq(threads, p requires 0 <= p < threads => PhaseOf(c, p)))
  }

  ghost predicate LineStep<T>(cap: nat, l: Line<T>, p: Tid, act: Act<T>, l': Line<T>) {
    && p < |l.phases| == |l'.phases|
    && l'.phases == l.phases[p := l'.phases[p]]
    && Turns(cap, l.list, l.phases[p], act, l'.list, l'.phases[p])
  }

  lemma LineTurns<T>(c: Config<T>, e: Event<T>, threads: nat)
    requires Inv(c) && Enabled(c.m, e) && e.p < threads
    ensures Inv(Step(c, e)) && Step(c, e).m.cap == c.m.cap
    ensures LineStep(c.m.cap, LineOf(c, threads), e.p, ActOf(Ideal, c.m, e), LineOf(Step(c, e), threads))
  {
    CallTurns(c, e);
    forall q | 0 <= q < threads && q != e.p
      ensures LineOf(Step(c, e), threads).phases[q] == LineOf(c, threads).phases[q]
    {
      OthersStay(c, e, q);
    }
  }
}

/** The pipeline whose queues count in 64-bit words has the runs of the one with unbounded counters. */
module PipelineWord64 {
  import opened Words
  import opened Sequences
  import opened QueueRefinement
  import opened PipelineOnQueues
  import Q = QueueProtocol
  import W = QueueWord64
  import P = Pipeline

  datatype State64<T> = State64(raw: Q.Machine<T>, dissected: Q.Machine<T>, local: Local<T>)

  ghost predicate Enabled64<T>(s: State64<T>, e: Event<T>) {
    match e
    case OnRaw(q) => Q.Enabled(s.raw, q) && CallsRaw(s.local, q.p, ActOf(Q.Bits64, s.raw, q))
    case OnDissected(q) => Q.Enabled(s.dissected, q) && CallsDissected(s.local, q.p, ActOf(Q.Bits64, s.dissected, q))
    case _ => OwnEnabled(s.local, e)
  }

  function Apply64<T>(s: State64<T>, e: Event<T>): State64<T>
    requires Enabled64(s, e)
  {
    match e
    case OnRaw(q) =>
      s.(raw := Q.Apply(Q.Bits64, s.raw, q), local := AfterRaw(s.local, q.p, ActOf(Q.Bits64, s.raw, q)))
    case OnDissected(q) =>
      s.(dissected := Q.Apply(Q.Bits64, s.dissected, q),
         local := AfterDissected(s.local, q.p, ActOf(Q.Bits64, s.dissected, q)))
    case _ => s.(local := Own(s.local, e))
  }

  function Start64<T>(workers: nat): State64<T> {
    var queue := Q.Init<T>(P.QUEUE_CAPACITY, Threads(workers));
    State64(queue, queue, Begin(workers))
  }

  ghost predicate Legal64<T>(s: State64<T>, es: seq<Event<T>>)
    decreases |es|
  {
    es == [] || (Enabled64(s, es[0]) && Legal64(Apply64(s, es[0]), es[1..]))
  }

  function Run64<T>(s: State64<T>, es: seq<Event<T>>): State64<T>
    requires Legal64(s, es)
    decreases |es|
  {
    if es == [] then s else Run64(Apply64(s, es[0]), es[1..])
  }

  /** The state seen through words, and without the history of the queues. */
  function Narrow<T>(s: State<T>): State64<T> {
    State64(W.Narrow(s.raw.m), W.Narrow(s.dissected.m), s.local)
  }

  lemma CapacityIsPower()
    ensures P.QUEUE_CAPACITY == Pow2(13)
  {
    assert Pow2(3) == 8;
    Pow2Values();
    Pow2Adds(10, 3);
  }

  /** A caller sees the same step, with either width. */
  lemma SameAct<T>(c: Q.Config<T>, q: Q.Event<T>)
    requires QueueSound(c) && W.NoLag(c.m) && Q.Enabled(c.m, q)
    ensures Q.Enabled(W.Narrow(c.m), q)
    ensures ActOf(Q.Bits64, W.Narrow(c.m), q) == ActOf(Q.Ideal, c.m, q)
  {
    W.NarrowEnabled(c, q);
    if q.LoadSeq? {
      CapacityIsPower();
      W.NarrowLoad(c, q.p, 13);
    }
  }

  lemma StepSimulates<T>(s: State<T>, e: Event<T>)
    requires QueueSound(s.raw) && QueueSound(s.dissected) && W.NoLag(s.raw.m) && W.NoLag(s.dissected.m)
    ensures Enabled64(Narrow(s), e) <==> Enabled(s, e)
    ensures Enabled(s, e) ==> Apply64(Narrow(s), e) == Narrow(Apply(s, e))
  {
    CapacityIsPower();
    match e
    case OnRaw(q) =>
      W.NarrowEnabled(s.raw, q);
      if Q.Enabled(s.raw.m, q) {
        SameAct(s.raw, q);
        W.StepSimulates(s.raw, q, 13);
      }
    case OnDissected(q) =>
      W.NarrowEnabled(s.dissected, q);
      if Q.Enabled(s.dissected.m, q) {
        SameAct(s.dissected, q);
        W.StepSimulates(s.dissected, q, 13);
      }
    case _ =>
  }

  /** In no state of the run does a thread that competes for a counter lag it by 2^61. */
  ghost predicate NoLagAlong<T>(s: State<T>, es: seq<Event<T>>)
    decreases |es|
  {
    && W.NoLag(s.raw.m) && W.NoLag(s.dissected.m)
    && (es != [] && Enabled(s, es[0]) ==> NoLagAlong(Apply(s, es[0]), es[1..]))
  }

  lemma {:induction false} RunSimulates<T>(s: State<T>, es: seq<Event<T>>)
    requires Sound(s) && NoLagAlong(s, es)
    ensures Legal64(Narrow(s), es) <==> Legal(s, es)
    ensures Legal(s, es) ==> Run64(Narrow(s), es) == Narrow(Run(s, es))
    decreases |es|
  {
    if es != [] {
      StepSimulates(s, es[0]);
      if Enabled(s, es[0]) {
        StepFollows(s, es[0]);
        RunSimulates(Apply(s, es[0]), es[1..]);
      }
    }
  }

  lemma StartNarrows<T>(workers: nat)
    ensures Narrow(Start<T>(workers)) == Start64<T>(workers)
  {
    var m := Q.Init<T>(P.QUEUE_CAPACITY, Threads(workers));
    forall i | 0 <= i < P.QUEUE_CAPACITY ensures i % WORD == i {
      DivModUnique(i, 0, i, WORD);
    }
    assert W.Narrow(m).seqs == m.seqs && W.Narrow(m).threads == m.threads;
  }

  /** With 64-bit counters the capture callback, any number of workers and the sender have exactly the runs that they
      have on the unbounded queues, and do the same in them. */
  lemma PipelineSimulates<T>(workers: nat, es: seq<Event<T>>)
    requires NoLagAlong(Start<T>(workers), es)
    ensures Legal64(Start64<T>(workers), es) <==> Legal(Start<T>(workers), es)
    ensures Legal(Start<T>(workers), es) ==>
      Run64(Start64<T>(workers), es) == Narrow(Run(Start<T>(workers), es))
  {
    StartIsSound<T>(workers);
    StartNarrows<T>(workers);
    RunSimulates(Start<T>(workers), es);
  }

  ghost predicate Young<T>(m: Q.Machine<T>, steps: nat) {
    Q.Shape(m) && m.enq + steps < W.MAX_LAG && m.deq + steps < W.MAX_LAG
  }

  lemma {:induction false} ShortRunsDoNotLag<T>(s: State<T>, es: seq<Event<T>>)
    requires Young(s.raw.m, |es|) && Young(s.dissected.m, |es|)
    ensures NoLagAlong(s, es)
    decreases |es|
  {
    if es != [] && Enabled(s, es[0]) {
      match es[0] {
        case OnRaw(q) => W.StepCounts(s.raw, q);
        case OnDissected(q) => W.StepCounts(s.dissected, q);
        case _ =>
      }
      ShortRunsDoNotLag(Apply(s, es[0]), es[1..]);
    }
  }

  /** The pipeline on 64-bit queues, in any interleaving of fewer than 2^61 steps: it is in a state of the unbounded
      one, so that its packets are conserved; and with one worker they are sent in the order of their capture. */
  lemma ShortRunsAreSafe<T(!new)>(workers: nat, es: seq<Event<T>>)
    requires |es| < W.MAX_LAG && Legal64(Start64<T>(workers), es)
    ensures Legal(Start<T>(workers), es)
    ensures
      var s := Run(Start<T>(workers), es);
      && Run64(Start64<T>(workers), es) == Narrow(s) && Matched(s)
      && (forall x ::
            P.Count(s.local.captured, x) == P.Count(Undecided(s), x) + P.Places(SeenState(ViewOf(s)), x))
      && (workers == 1 ==> Sub(s.local.sent, s.local.captured))
  {
    ShortRunsDoNotLag(Start<T>(workers), es);
    PipelineSimulates<T>(workers, es);
    forall x
      ensures
        var s := Run(Start<T>(workers), es);
        Matched(s) && P.Count(s.local.captured, x) == P.Count(Undecided(s), x) + P.Places(SeenState(ViewOf(s)), x)
    {
      PacketsAreConserved(workers, es, x);
    }
    RunsAreThePipelines<T>(workers, es);
    if workers == 1 {
      OneWorkerKeepsOrder<T>(es);
    }
  }
}

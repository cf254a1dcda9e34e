/** The queue with 64-bit counters, masked indices and signed differences behaves as the ideal one. */
module QueueWord64 {
  import opened Words
  import opened QueueProtocol

  const MAX_LAG: nat := 0x2000_0000_0000_0000

  // ----- The ideal machine seen through 64-bit words -----

  function NarrowThread<T>(th: Thread<T>): Thread<T> {
    match th
    case Idle => Idle
    case Pushing(v, pos, stage) => Pushing(v, pos % WORD, stage)
    case Popping(got, pos, stage) => Popping(got, pos % WORD, stage)
  }

  function Narrow<T>(m: Machine<T>): Machine<T> {
    m.(seqs := seq(|m.seqs|, i requires 0 <= i < |m.seqs| => m.seqs[i] % WORD),
       enq := m.enq % WORD,
       deq := m.deq % WORD,
       threads := map p | p in m.threads :: NarrowThread(m.threads[p]))
  }

  /** No thread that competes for a counter holds a position 2^61 or more behind it. */
  ghost predicate NoLag<T>(m: Machine<T>) {
    forall p :: p in m.threads && !m.threads[p].Idle? && !Claimed(m.threads[p]) ==>
      Counter(m, m.threads[p]) < m.threads[p].pos + MAX_LAG
  }

  // ----- Word arithmetic -----

  lemma NarrowAdd(x: nat, y: nat)
    ensures (x % WORD + y) % WORD == (x + y) % WORD
  {
    ModShift(x % WORD + y, x / WORD, WORD);
  }

  lemma NarrowSlot(pos: nat, k: nat)
    requires k <= 61
    ensures SlotOf(Bits64, pos % WORD, Pow2(k)) == SlotOf(Ideal, pos, Pow2(k))
  {
    Pow2Values();
    Pow2Adds(64 - k, k);
    MaskIsMod(pos % WORD, k);
    ModMod(pos, Pow2(k), Pow2(64 - k));
  }

  lemma NarrowDiff(a: nat, b: nat)
    requires -(WORD / 2) <= a - b < WORD / 2
    ensures Diff(Bits64, a % WORD, b % WORD) == Diff(Ideal, a, b)
  {
    var x := a % WORD - b % WORD + WORD / 2;
    var y := a - b + WORD / 2;
    assert x == y + (b / WORD - a / WORD) * WORD;
    ModShift(y, b / WORD - a / WORD, WORD);
    DivModUnique(y, 0, y, WORD);
  }

  // ----- One step -----

  /** A loaded sequence number is within 2^62 of the thread's position. */
  lemma LoadedIsNear<T>(c: Config<T>, p: Tid)
    requires Inv(c) && NoLag(c.m) && c.m.cap <= MAX_LAG
    requires p in c.m.threads && !c.m.threads[p].Idle? && !Claimed(c.m.threads[p])
    ensures var th := c.m.threads[p];
            -(WORD / 4) <= Loaded(Ideal, c.m, th) - Wanted(Ideal, th) <= WORD / 4
  {
    var th := c.m.threads[p];
    assert ThreadInv(c, p) && SlotInv(c, SlotOf(Ideal, th.pos, c.m.cap));
  }

  lemma NarrowLoaded<T>(m: Machine<T>, th: Thread<T>, k: nat)
    requires Shape(m) && k <= 61 && m.cap == Pow2(k) && !th.Idle?
    ensures Shape(Narrow(m)) && Loaded(Bits64, Narrow(m), NarrowThread(th)) == Loaded(Ideal, m, th) % WORD
  {
    NarrowSlot(th.pos, k);
  }

  lemma NarrowWanted<T>(th: Thread<T>)
    requires !th.Idle?
    ensures Wanted(Bits64, NarrowThread(th)) == Wanted(Ideal, th) % WORD
  {
    NarrowAdd(th.pos, 1);
  }

  lemma NarrowLoad<T>(c: Config<T>, p: Tid, k: nat)
    requires Inv(c) && NoLag(c.m) && k <= 61 && c.m.cap == Pow2(k)
    requires p in c.m.threads && !c.m.threads[p].Idle? && !Claimed(c.m.threads[p])
    ensures var th, th64 := c.m.threads[p], NarrowThread(c.m.threads[p]);
            Diff(Bits64, Loaded(Bits64, Narrow(c.m), th64), Wanted(Bits64, th64))
            == Diff(Ideal, Loaded(Ideal, c.m, th), Wanted(Ideal, th))
  {
    var th := c.m.threads[p];
    assert c.m.cap <= MAX_LAG by {
      Pow2Values();
      Pow2Monotone(k, 61);
    }
    LoadedIsNear(c, p);
    NarrowLoaded(c.m, th, k);
    NarrowWanted(th);
    NarrowDiff(Loaded(Ideal, c.m, th), Wanted(Ideal, th));
  }

  lemma NarrowEnabled<T>(c: Config<T>, e: Event<T>)
    requires Inv(c) && NoLag(c.m)
    ensures Enabled(Narrow(c.m), e) <==> Enabled(c.m, e)
  {
    if e.p in c.m.threads && e.ClaimOk? {
      var th := c.m.threads[e.p];
      if !th.Idle? && th.stage == TryClaim && Counter(c.m, th) % WORD == th.pos % WORD {
        assert ThreadInv(c, e.p);
        ModUnique(Counter(c.m, th), th.pos, WORD);
      }
    }
  }

  lemma NarrowBecome<T>(m: Machine<T>, p: Tid, th: Thread<T>)
    ensures Narrow(Become(m, p, th)) == Become(Narrow(m), p, NarrowThread(th))
  {
    assert Narrow(Become(m, p, th)).threads == Become(Narrow(m), p, NarrowThread(th)).threads;
  }

  lemma NarrowStore<T>(m: Machine<T>, i: nat, s: nat)
    requires i < |m.seqs|
    ensures Narrow(m.(seqs := m.seqs[i := s])) == Narrow(m).(seqs := Narrow(m).seqs[i := s % WORD])
  {
    assert Narrow(m.(seqs := m.seqs[i := s])).seqs == Narrow(m).seqs[i := s % WORD];
  }

  lemma StoreSimulates<T>(m: Machine<T>, e: Event<T>, k: nat)
    requires k <= 61 && m.cap == Pow2(k) && e.StoreSeq? && Enabled(m, e) && Enabled(Narrow(m), e)
    ensures Apply(Bits64, Narrow(m), e) == Narrow(Apply(Ideal, m, e))
  {
    var th := m.threads[e.p];
    var i := SlotOf(Ideal, th.pos, m.cap);
    var next := if th.Pushing? then th.pos + 1 else th.pos + m.cap;
    NarrowSlot(th.pos, k);
    NarrowAdd(th.pos, if th.Pushing? then 1 else m.cap);
    NarrowStore(m, i, next);
    NarrowBecome(m.(seqs := m.seqs[i := next]), e.p, Idle);
  }

  lemma TouchSimulates<T>(m: Machine<T>, e: Event<T>, k: nat)
    requires k <= 61 && m.cap == Pow2(k) && e.TouchData? && Enabled(m, e) && Enabled(Narrow(m), e)
    ensures Apply(Bits64, Narrow(m), e) == Narrow(Apply(Ideal, m, e))
  {
    var th := m.threads[e.p];
    var i := SlotOf(Ideal, th.pos, m.cap);
    NarrowSlot(th.pos, k);
    if th.Pushing? {
      NarrowBecome(m.(data := m.data[i := Some(th.value)]), e.p, Pushing(th.value, th.pos, Release));
    } else {
      NarrowBecome(m, e.p, Popping(m.data[i], th.pos, Release));
    }
  }

  lemma ClaimSimulates<T>(m: Machine<T>, e: Event<T>)
    requires e.ClaimOk? && Enabled(m, e) && Enabled(Narrow(m), e)
    ensures Apply(Bits64, Narrow(m), e) == Narrow(Apply(Ideal, m, e))
  {
    var th := m.threads[e.p];
    NarrowAdd(th.pos, 1);
    var m1 := if th.Pushing? then m.(enq := th.pos + 1) else m.(deq := th.pos + 1);
    NarrowBecome(m1, e.p, th.(stage := Access));
  }

  lemma MoveSimulates<T>(m: Machine<T>, e: Event<T>)
    requires e.CallPush? || e.CallPop? || e.ClaimFail? || e.ReloadPos?
    requires Enabled(m, e) && Enabled(Narrow(m), e)
    ensures Apply(Bits64, Narrow(m), e) == Narrow(Apply(Ideal, m, e))
  {
    NarrowBecome(m, e.p, Apply(Ideal, m, e).threads[e.p]);
  }

  lemma LoadSimulates<T>(c: Config<T>, e: Event<T>, k: nat)
    requires Inv(c) && NoLag(c.m) && k <= 61 && c.m.cap == Pow2(k)
    requires e.LoadSeq? && Enabled(c.m, e) && Enabled(Narrow(c.m), e)
    ensures Apply(Bits64, Narrow(c.m), e) == Narrow(Apply(Ideal, c.m, e))
  {
    NarrowLoad(c, e.p, k);
    NarrowBecome(c.m, e.p, Apply(Ideal, c.m, e).threads[e.p]);
  }

  /** One atomic step of the 64-bit machine is the step of the ideal machine, seen through words. */
  lemma StepSimulates<T>(c: Config<T>, e: Event<T>, k: nat)
    requires Inv(c) && NoLag(c.m) && 1 <= k <= 61 && c.m.cap == Pow2(k) && Enabled(c.m, e)
    ensures Enabled(Narrow(c.m), e)
    ensures Apply(Bits64, Narrow(c.m), e) == Narrow(Step(c, e).m)
  {
    NarrowEnabled(c, e);
    match e
    case LoadSeq(_) => LoadSimulates(c, e, k);
    case ClaimOk(_) => ClaimSimulates(c.m, e);
    case TouchData(_) => TouchSimulates(c.m, e, k);
    case StoreSeq(_) => StoreSimulates(c.m, e, k);
    case _ => MoveSimulates(c.m, e);
  }

  // ----- Whole runs -----

  predicate Legal64<T>(m: Machine<T>, es: seq<Event<T>>)
    decreases |es|
  {
    es == [] || (Enabled(m, es[0]) && Legal64(Apply(Bits64, m, es[0]), es[1..]))
  }

  function Run64<T>(m: Machine<T>, es: seq<Event<T>>): Machine<T>
    requires Legal64(m, es)
    decreases |es|
  {
    if es == [] then m else Run64(Apply(Bits64, m, es[0]), es[1..])
  }

  ghost predicate NoLagAlong<T>(c: Config<T>, es: seq<Event<T>>)
    decreases |es|
  {
    NoLag(c.m) && (es != [] && Enabled(c.m, es[0]) ==> NoLagAlong(Step(c, es[0]), es[1..]))
  }

  lemma {:induction false} RunSimulates<T>(c: Config<T>, es: seq<Event<T>>, k: nat)
    requires Inv(c) && 1 <= k <= 61 && c.m.cap == Pow2(k) && NoLagAlong(c, es)
    ensures Legal64(Narrow(c.m), es) <==> Legal(c, es)
    ensures Legal(c, es) ==> Run64(Narrow(c.m), es) == Narrow(Run(c, es).m)
    decreases |es|
  {
    if es != [] {
      NarrowEnabled(c, es[0]);
      if Enabled(c.m, es[0]) {
        StepSimulates(c, es[0], k);
        StepInv(c, es[0]);
        RunSimulates(Step(c, es[0]), es[1..], k);
      }
    }
  }

  /** From construction on, the 64-bit queue has exactly the runs of the ideal one, for every power of
      two from 2 to 2^61. */
  lemma QueueSimulates<T>(k: nat, tids: set<Tid>, es: seq<Event<T>>)
    requires 1 <= k <= 61 && NoLagAlong(Start<T>(Pow2(k), tids), es)
    ensures var c := Start<T>(Pow2(k), tids);
            && (Legal64(Init<T>(Pow2(k), tids), es) <==> Legal(c, es))
            && (Legal(c, es) ==> Run64(Init<T>(Pow2(k), tids), es) == Narrow(Run(c, es).m))
  {
    var cap := Pow2(k);
    Pow2Values();
    Pow2Monotone(k, 61);
    Pow2Monotone(1, k);
    InitInv<T>(cap, tids);
    var m := Init<T>(cap, tids);
    assert Narrow(m).seqs == m.seqs by {
      forall i | 0 <= i < cap ensures i % WORD == i {
        DivModUnique(i, 0, i, WORD);
      }
    }
    assert Narrow(m).threads == m.threads;
    RunSimulates(Start<T>(cap, tids), es, k);
  }

  // ----- About the lag -----

  lemma StepCounts<T>(c: Config<T>, e: Event<T>)
    requires Shape(c.m) && Enabled(c.m, e)
    ensures Shape(Step(c, e).m)
    ensures Step(c, e).m.enq <= c.m.enq + 1 && Step(c, e).m.deq <= c.m.deq + 1
  {
  }

  /** A counter that is below 2^61 leaves no thread that far behind; it takes a run of 2^61 steps to get there. */
  lemma {:induction false} ShortRunsDoNotLag<T>(c: Config<T>, es: seq<Event<T>>)
    requires Shape(c.m) && c.m.enq + |es| < MAX_LAG && c.m.deq + |es| < MAX_LAG
    ensures NoLagAlong(c, es)
    decreases |es|
  {
    if es != [] && Enabled(c.m, es[0]) {
      StepCounts(c, es[0]);
      ShortRunsDoNotLag(Step(c, es[0]), es[1..]);
    }
  }

  /** Without any premise about lag: the 64-bit queue has exactly the runs of the ideal one among those of fewer than
      2^61 steps. */
  lemma QueueSimulatesShortRuns<T>(k: nat, tids: set<Tid>, es: seq<Event<T>>)
    requires 1 <= k <= 61 && |es| < MAX_LAG
    ensures var c := Start<T>(Pow2(k), tids);
            && (Legal64(Init<T>(Pow2(k), tids), es) <==> Legal(c, es))
            && (Legal(c, es) ==> Run64(Init<T>(Pow2(k), tids), es) == Narrow(Run(c, es).m))
  {
    ShortRunsDoNotLag(Start<T>(Pow2(k), tids), es);
    QueueSimulates<T>(k, tids, es);
  }

  /** Why lag matters: a slot half a word ahead of a position looks as if it were behind, so the call would give up
      instead of trying again. */
  lemma LagMisleads(seqNo: nat, pos: nat)
    requires WORD / 2 <= seqNo - pos < WORD
    ensures Diff(Ideal, seqNo, pos) > 0 && Diff(Bits64, seqNo % WORD, pos % WORD) < 0
  {
    var d := seqNo - pos - WORD;
    var x := seqNo % WORD - pos % WORD + WORD / 2;
    var y := d + WORD / 2;
    assert x == y + (pos / WORD - seqNo / WORD + 1) * WORD;
    ModShift(y, pos / WORD - seqNo / WORD + 1, WORD);
    DivModUnique(y, 0, y, WORD);
  }
}

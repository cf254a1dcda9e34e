/**
 That calls to push and pop come to an end. A call tries again only after another thread has claimed a ticket of the
 same counter, or after a spurious failure of its own; so in every run some call succeeds while others repeat, and a
 call that runs alone is over after a few steps, wherever the other threads have stopped.
 */
module QueueProgress {
  import opened Words
  import opened QueueProtocol

  // ----- In every run -----

  // What the events since a thread's last call say: how often it loaded a slot's sequence number, how often its
  // compare-exchange failed although the counter was as expected, and how many tickets other threads claimed of the
  // counter that it competes for. `start` is that counter at the call.
  datatype Tally = Tally(start: nat, loads: nat, spurious: nat, others: nat)

  predicate SameKind<T>(a: Thread<T>, b: Thread<T>) {
    (a.Pushing? && b.Pushing?) || (a.Popping? && b.Popping?)
  }

  function Count<T>(m: Machine<T>, e: Event<T>, p: Tid, k: Tally): Tally
    requires Enabled(m, e) && p in m.threads
  {
    if e.p != p then
      if e.ClaimOk? && SameKind(m.threads[e.p], m.threads[p]) then k.(others := k.others + 1) else k
    else
      match e
      case CallPush(_, _) => Tally(m.enq, 0, 0, 0)
      case CallPop(_) => Tally(m.deq, 0, 0, 0)
      case LoadSeq(_) => k.(loads := k.loads + 1)
      case ClaimFail(_) => if Counter(m, m.threads[p]) == m.threads[p].pos then k.(spurious := k.spurious + 1) else k
      case _ => k
  }

  function Tallied<T>(c: Config<T>, es: seq<Event<T>>, p: Tid, k: Tally): Tally
    requires Legal(c, es) && p in c.m.threads
    decreases |es|
  {
    if es == [] then k else Tallied(Step(c, es[0]), es[1..], p, Count(c.m, es[0], p, k))
  }

  /** Each position the call has taken since it began cost another thread's claim, and was loaded once, or once more for
      every spurious failure. */
  ghost predicate Paid<T>(m: Machine<T>, p: Tid, k: Tally)
    requires p in m.threads
  {
    var th := m.threads[p];
    !th.Idle? ==>
      && k.start <= th.pos && th.pos - k.start <= k.others
      && (!Claimed(th) ==> Counter(m, th) == k.start + k.others)
      && k.loads <= k.spurious + (th.pos - k.start) + if th.stage == LoadSequence then 0 else 1
  }

  lemma PaidByOther<T>(c: Config<T>, e: Event<T>, p: Tid, k: Tally)
    requires Enabled(c.m, e) && e.p != p && p in c.m.threads && Paid(c.m, p, k)
    ensures Paid(Step(c, e).m, p, Count(c.m, e, p, k))
  {
  }

  lemma PaidByOwn<T>(c: Config<T>, e: Event<T>, p: Tid, k: Tally)
    requires Enabled(c.m, e) && e.p == p && Paid(c.m, p, k)
    requires e.ClaimFail? ==> c.m.threads[p].pos <= Counter(c.m, c.m.threads[p])
    requires e.ReloadPos? ==> c.m.threads[p].pos < Counter(c.m, c.m.threads[p])
    ensures Paid(Step(c, e).m, p, Count(c.m, e, p, k))
  {
  }

  lemma PaidStep<T>(c: Config<T>, e: Event<T>, p: Tid, k: Tally)
    requires Inv(c) && Enabled(c.m, e) && p in c.m.threads && Paid(c.m, p, k)
    ensures Paid(Step(c, e).m, p, Count(c.m, e, p, k))
  {
    if e.p == p {
      assert ThreadInv(c, p);
      PaidByOwn(c, e, p, k);
    } else {
      PaidByOther(c, e, p, k);
    }
  }

  lemma {:induction false} PaidRun<T>(c: Config<T>, es: seq<Event<T>>, p: Tid, k: Tally)
    requires Inv(c) && Legal(c, es) && p in c.m.threads && Paid(c.m, p, k)
    ensures p in Run(c, es).m.threads && Paid(Run(c, es).m, p, Tallied(c, es, p, k))
    decreases |es|
  {
    if es != [] {
      StepInv(c, es[0]);
      PaidStep(c, es[0], p, k);
      PaidRun(Step(c, es[0]), es[1..], p, Count(c.m, es[0], p, k));
    }
  }

  /** In every run: the running call of a thread has loaded sequence numbers at most once, and once more for each of its
      spurious failures and each ticket that another thread claimed of its counter since the call began. Where the next
      step is such a load, it is among these already. */
  lemma LoadsArePaidByOthers<T>(cap: nat, tids: set<Tid>, es: seq<Event<T>>, p: Tid)
    requires cap >= 2 && p in tids && Legal(Start<T>(cap, tids), es)
    ensures
      var k := Tallied(Start<T>(cap, tids), es, p, Tally(0, 0, 0, 0));
      var m := Run(Start<T>(cap, tids), es).m;
      && p in m.threads
      && (!m.threads[p].Idle? ==>
            k.loads + (if m.threads[p].stage == LoadSequence then 1 else 0) <= 1 + k.spurious + k.others)
  {
    InitInv<T>(cap, tids);
    PaidRun(Start<T>(cap, tids), es, p, Tally(0, 0, 0, 0));
  }

  // ----- A call that runs alone -----

  /** The next step of a thread inside push or pop, if its compare-exchange does not fail without cause. */
  function Next<T>(m: Machine<T>, p: Tid): (e: Event<T>)
    requires Shape(m) && p in m.threads && !m.threads[p].Idle?
    ensures Enabled(m, e) && e.p == p && !e.CallPush? && !e.CallPop?
    ensures e.ClaimFail? ==> Counter(m, m.threads[p]) != m.threads[p].pos
  {
    match m.threads[p].stage
    case LoadSequence => LoadSeq(p)
    case TryClaim => if Counter(m, m.threads[p]) == m.threads[p].pos then ClaimOk(p) else ClaimFail(p)
    case Reload => ReloadPos(p)
    case Access => TouchData(p)
    case Release => StoreSeq(p)
  }

  /** The state after n steps of this thread's call, or fewer if it ends before, while all other threads stand still. */
  function Alone<T>(c: Config<T>, p: Tid, n: nat): (c': Config<T>)
    requires Shape(c.m) && p in c.m.threads
    ensures Shape(c'.m) && c'.m.threads.Keys == c.m.threads.Keys
    decreases n
  {
    if n == 0 || c.m.threads[p].Idle? then c else Alone(Step(c, Next(c.m, p)), p, n - 1)
  }

  /** How many steps are left at most: with a position that is out of date, a load or a failed compare-exchange and a
      reload come first. */
  function StepsLeft<T>(m: Machine<T>, p: Tid): nat
    requires p in m.threads
  {
    var th := m.threads[p];
    if th.Idle? then 0
    else
      match th.stage
      case Release => 1
      case Access => 2
      case TryClaim => if th.pos == Counter(m, th) then 3 else 5
      case LoadSequence => if th.pos == Counter(m, th) then 4 else 6
      case Reload => 5
  }

  lemma StepIsProgress<T>(c: Config<T>, p: Tid)
    requires Shape(c.m) && p in c.m.threads && !c.m.threads[p].Idle?
    requires
      var th := c.m.threads[p];
      th.stage == LoadSequence && Loaded(Ideal, c.m, th) > Wanted(Ideal, th) ==> th.pos != Counter(c.m, th)
    ensures StepsLeft(Step(c, Next(c.m, p)).m, p) < StepsLeft(c.m, p)
  {
  }

  lemma OneStepLess<T>(c: Config<T>, p: Tid)
    requires Inv(c) && p in c.m.threads && !c.m.threads[p].Idle?
    ensures Inv(Step(c, Next(c.m, p))) && StepsLeft(Step(c, Next(c.m, p)).m, p) < StepsLeft(c.m, p)
  {
    StepInv(c, Next(c.m, p));
    if c.m.threads[p].stage == LoadSequence {
      LoadMeaning(c, p);
    }
    StepIsProgress(c, p);
  }

  lemma AloneStep<T>(c: Config<T>, p: Tid, n: nat)
    requires Shape(c.m) && p in c.m.threads && !c.m.threads[p].Idle? && n > 0
    ensures Alone(c, p, n) == Alone(Step(c, Next(c.m, p)), p, n - 1)
  {
  }

  lemma {:induction false} AloneEnds<T>(c: Config<T>, p: Tid, n: nat)
    requires Inv(c) && p in c.m.threads && StepsLeft(c.m, p) <= n
    ensures Alone(c, p, n).m.threads[p].Idle?
    decreases n
  {
    if n > 0 && !c.m.threads[p].Idle? {
      OneStepLess(c, p);
      AloneEnds(Step(c, Next(c.m, p)), p, n - 1);
      AloneStep(c, p, n);
    }
  }

  /** From every state that keeps the invariant, so from every reachable one, and whatever the other threads are in the
      middle of: a call that runs alone, without a spurious failure, has returned after at most six steps of its own. */
  lemma CallsEnd<T>(c: Config<T>, p: Tid)
    requires Inv(c) && p in c.m.threads
    ensures Alone(c, p, 6).m.threads[p].Idle?
  {
    AloneEnds(c, p, 6);
  }

  /** A call that begins there has returned after at most four more. */
  lemma NewCallsEnd<T>(c: Config<T>, e: Event<T>)
    requires Inv(c) && Enabled(c.m, e) && (e.CallPush? || e.CallPop?)
    ensures Alone(Step(c, e), e.p, 4).m.threads[e.p].Idle?
  {
    StepInv(c, e);
    AloneEnds(Step(c, e), e.p, 4);
  }
}

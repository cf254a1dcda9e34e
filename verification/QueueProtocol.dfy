/**
 The bounded queue as any number of threads execute it: one event is one atomic step of one thread,
 and a run is any interleaving of events. The same transition function serves two machines: an ideal
 one whose counters are unbounded, and the actual one, with 64-bit counters, masked indices and
 signed differences.
 */
module QueueProtocol {
  import opened Words

  type Tid = nat

  datatype Width = Ideal | Bits64

  function Reduce(w: Width, x: nat): nat {
    match w
    case Ideal => x
    case Bits64 => x % WORD
  }

  function SlotOf(w: Width, pos: nat, cap: nat): (i: nat)
    requires cap > 0
    ensures i < cap
  {
    match w
    case Ideal => pos % cap
    case Bits64 => BitAnd(pos, cap - 1)
  }

  function Diff(w: Width, a: nat, b: nat): int {
    match w
    case Ideal => a - b
    case Bits64 => ToInt64(a - b)
  }

  // The next atomic step of a thread inside push or pop: load the slot's sequence number, attempt the
  // compare-exchange, reload the counter, touch the slot's data, store the slot's sequence number.
  datatype Stage = LoadSequence | TryClaim | Reload | Access | Release

  datatype Thread<T> =
    | Idle
    | Pushing(value: T, pos: nat, stage: Stage)
    | Popping(got: Option<T>, pos: nat, stage: Stage)

  datatype Machine<T> = Machine(
    cap: nat,
    seqs: seq<nat>,
    data: seq<Option<T>>,
    enq: nat,
    deq: nat,
    threads: map<Tid, Thread<T>>)

  datatype Event<T> =
    | CallPush(p: Tid, v: T)
    | CallPop(p: Tid)
    | LoadSeq(p: Tid)
    | ClaimOk(p: Tid)
    | ClaimFail(p: Tid)
    | ReloadPos(p: Tid)
    | TouchData(p: Tid)
    | StoreSeq(p: Tid)

  predicate Shape<T>(m: Machine<T>) {
    m.cap >= 1 && |m.seqs| == m.cap && |m.data| == m.cap
  }

  function StageOf(e: Event): Stage
    requires !e.CallPush? && !e.CallPop?
  {
    match e
    case LoadSeq(_) => LoadSequence
    case ClaimOk(_) => TryClaim
    case ClaimFail(_) => TryClaim
    case ReloadPos(_) => Reload
    case TouchData(_) => Access
    case StoreSeq(_) => Release
  }

  /** The counter that a thread inside push or pop competes for. */
  function Counter<T>(m: Machine<T>, th: Thread<T>): nat {
    if th.Pushing? then m.enq else m.deq
  }

  /** The sequence number that lets a thread claim its position. */
  function Wanted<T>(w: Width, th: Thread<T>): nat
    requires !th.Idle?
  {
    if th.Pushing? then th.pos else Reduce(w, th.pos + 1)
  }

  function Loaded<T>(w: Width, m: Machine<T>, th: Thread<T>): nat
    requires Shape(m) && !th.Idle?
  {
    m.seqs[SlotOf(w, th.pos, m.cap)]
  }

  predicate Enabled<T>(m: Machine<T>, e: Event<T>) {
    && Shape(m)
    && e.p in m.threads
    && var th := m.threads[e.p];
       if e.CallPush? || e.CallPop? then th.Idle?
       else !th.Idle? && th.stage == StageOf(e) && (e.ClaimOk? ==> Counter(m, th) == th.pos)
  }

  function Become<T>(m: Machine<T>, p: Tid, th: Thread<T>): Machine<T> {
    m.(threads := m.threads[p := th])
  }

  function Apply<T>(w: Width, m: Machine<T>, e: Event<T>): (m': Machine<T>)
    requires Enabled(m, e)
    ensures Shape(m') && m'.cap == m.cap && m'.threads.Keys == m.threads.Keys
  {
    var p := e.p;
    var th := m.threads[p];
    match e
    case CallPush(_, v) => Become(m, p, Pushing(v, m.enq, LoadSequence))
    case CallPop(_) => Become(m, p, Popping(None, m.deq, LoadSequence))
    case LoadSeq(_) =>
      var diff := Diff(w, Loaded(w, m, th), Wanted(w, th));
      if diff == 0 then Become(m, p, th.(stage := TryClaim))
      else if diff < 0 then Become(m, p, Idle)
      else Become(m, p, th.(stage := Reload))
    case ClaimOk(_) =>
      var next := Reduce(w, th.pos + 1);
      var m1 := if th.Pushing? then m.(enq := next) else m.(deq := next);
      Become(m1, p, th.(stage := Access))
    case ClaimFail(_) => Become(m, p, th.(pos := Counter(m, th), stage := LoadSequence))
    case ReloadPos(_) => Become(m, p, th.(pos := Counter(m, th), stage := LoadSequence))
    case TouchData(_) =>
      var i := SlotOf(w, th.pos, m.cap);
      if th.Pushing? then
        Become(m.(data := m.data[i := Some(th.value)]), p, Pushing(th.value, th.pos, Release))
      else
        Become(m, p, Popping(m.data[i], th.pos, Release))
    case StoreSeq(_) =>
      var i := SlotOf(w, th.pos, m.cap);
      var next := Reduce(w, if th.Pushing? then th.pos + 1 else th.pos + m.cap);
      Become(m.(seqs := m.seqs[i := next]), p, Idle)
  }

  /** True if the step makes the running call return false. */
  predicate Refuses<T>(w: Width, m: Machine<T>, e: Event<T>)
    requires Enabled(m, e)
  {
    e.LoadSeq? && Diff(w, Loaded(w, m, m.threads[e.p]), Wanted(w, m.threads[e.p])) < 0
  }

  function Init<T>(cap: nat, tids: set<Tid>): (m: Machine<T>)
    requires cap >= 1
    ensures Shape(m)
  {
    Machine(cap, seq(cap, i => i), seq(cap, _ => None), 0, 0, map p | p in tids :: Idle)
  }

  // ----- History: what the threads did, never read by them -----

  // pushed[t], pushedBy[t], poppedBy[t] belong to ticket t; returned[t] is what the call to pop that
  // claimed t gave to its caller; since[p] is the counter as p's current call first read it, and
  // retries[p] counts the times that call went back for a new position, spurious failures apart.
  datatype History<T> = History(
    pushed: seq<T>,
    pushedBy: seq<Tid>,
    poppedBy: seq<Tid>,
    returned: map<nat, T>,
    since: map<Tid, nat>,
    retries: map<Tid, nat>)

  datatype Config<T> = Config(m: Machine<T>, h: History<T>)

  function Record<T>(m: Machine<T>, h: History<T>, e: Event<T>): History<T>
    requires Enabled(m, e)
  {
    var p := e.p;
    var th := m.threads[p];
    var r := if p in h.retries then h.retries[p] else 0;
    match e
    case CallPush(_, _) => h.(since := h.since[p := m.enq], retries := h.retries[p := 0])
    case CallPop(_) => h.(since := h.since[p := m.deq], retries := h.retries[p := 0])
    case LoadSeq(_) => h
    case ClaimOk(_) =>
      if th.Pushing? then h.(pushed := h.pushed + [th.value], pushedBy := h.pushedBy + [p])
      else h.(poppedBy := h.poppedBy + [p])
    case ClaimFail(_) => if Counter(m, th) == th.pos then h else h.(retries := h.retries[p := r + 1])
    case ReloadPos(_) => h.(retries := h.retries[p := r + 1])
    case TouchData(_) => h
    case StoreSeq(_) =>
      if th.Popping? && th.got.Some? then h.(returned := h.returned[th.pos := th.got.value]) else h
  }

  function Step<T>(c: Config<T>, e: Event<T>): Config<T>
    requires Enabled(c.m, e)
  {
    Config(Apply(Ideal, c.m, e), Record(c.m, c.h, e))
  }

  function Start<T>(cap: nat, tids: set<Tid>): Config<T>
    requires cap >= 1
  {
    Config(Init(cap, tids), History([], [], [], map[], map[], map[]))
  }

  predicate Legal<T>(c: Config<T>, es: seq<Event<T>>)
    decreases |es|
  {
    es == [] || (Enabled(c.m, es[0]) && Legal(Step(c, es[0]), es[1..]))
  }

  function Run<T>(c: Config<T>, es: seq<Event<T>>): Config<T>
    requires Legal(c, es)
    decreases |es|
  {
    if es == [] then c else Run(Step(c, es[0]), es[1..])
  }

  // ----- The invariant -----

  ghost predicate Claimed<T>(th: Thread<T>) {
    !th.Idle? && (th.stage == Access || th.stage == Release)
  }

  ghost predicate Publishing<T>(c: Config<T>, t: nat) {
    && t < |c.h.pushedBy|
    && c.h.pushedBy[t] in c.m.threads
    && var th := c.m.threads[c.h.pushedBy[t]];
       th.Pushing? && Claimed(th) && th.pos == t
  }

  ghost predicate Consuming<T>(c: Config<T>, t: nat) {
    && t < |c.h.poppedBy|
    && c.h.poppedBy[t] in c.m.threads
    && var th := c.m.threads[c.h.poppedBy[t]];
       th.Popping? && Claimed(th) && th.pos == t
  }

  /** The slot is free for ticket s, its sequence number, or holds ticket s - 1. */
  ghost predicate SlotInv<T>(c: Config<T>, i: nat)
    requires Shape(c.m) && i < c.m.cap
  {
    var m, s := c.m, c.m.seqs[i];
    if SlotOf(Ideal, s, m.cap) == i then
      m.deq <= s < m.deq + m.cap && (s < m.enq ==> Publishing(c, s))
    else
      && s >= 1 && SlotOf(Ideal, s - 1, m.cap) == i
      && s - 1 < m.enq <= s - 1 + m.cap
      && s - 1 < |c.h.pushed| && m.data[i] == Some(c.h.pushed[s - 1])
      && (s - 1 < m.deq ==> Consuming(c, s - 1))
  }

  ghost predicate ThreadInv<T>(c: Config<T>, p: Tid)
    requires Shape(c.m) && p in c.m.threads
  {
    var m, h, th := c.m, c.h, c.m.threads[p];
    match th
    case Idle => true
    case Pushing(v, pos, stage) =>
      var i := SlotOf(Ideal, pos, m.cap);
      && pos <= m.enq
      && (stage == TryClaim && pos == m.enq ==> m.seqs[i] == pos)
      && (stage == Reload ==> pos < m.enq)
      && (Claimed(th) ==>
            && pos < |h.pushed| && pos < |h.pushedBy|
            && h.pushed[pos] == v && h.pushedBy[pos] == p && m.seqs[i] == pos)
      && (stage == Release ==> m.data[i] == Some(v))
    case Popping(got, pos, stage) =>
      var i := SlotOf(Ideal, pos, m.cap);
      && pos <= m.deq
      && (stage == TryClaim && pos == m.deq ==> m.seqs[i] == pos + 1)
      && (stage == Reload ==> pos < m.deq)
      && (Claimed(th) ==>
            && pos < |h.poppedBy| && pos < |h.pushed|
            && h.poppedBy[pos] == p && m.seqs[i] == pos + 1 && pos !in h.returned)
      && (stage == Release ==> got == Some(h.pushed[pos]))
  }

  /** Retries of the running call are paid for by claims that other threads made during it. */
  ghost predicate ProgressInv<T>(c: Config<T>, p: Tid)
    requires p in c.m.threads
  {
    var m, h, th := c.m, c.h, c.m.threads[p];
    !th.Idle? && !Claimed(th) ==>
      && p in h.since && p in h.retries
      && h.since[p] + h.retries[p] <= th.pos <= Counter(m, th)
      && OthersOnly(Claims(h, th), h.since[p], p)
  }

  ghost predicate OthersOnly(claims: seq<Tid>, since: nat, p: Tid) {
    forall t :: since <= t < |claims| ==> claims[t] != p
  }

  function Claims<T>(h: History<T>, th: Thread<T>): seq<Tid> {
    if th.Pushing? then h.pushedBy else h.poppedBy
  }

  ghost predicate Inv<T>(c: Config<T>) {
    && Shape(c.m) && c.m.cap >= 2
    && |c.h.pushed| == |c.h.pushedBy| == c.m.enq && |c.h.poppedBy| == c.m.deq
    && c.m.deq <= c.m.enq <= c.m.deq + c.m.cap
    && (forall i :: 0 <= i < c.m.cap ==> SlotInv(c, i))
    && (forall p :: p in c.m.threads ==> ThreadInv(c, p))
    && (forall p :: p in c.m.threads ==> ProgressInv(c, p))
    && (forall t :: t in c.h.returned ==> t < c.m.deq && c.h.returned[t] == c.h.pushed[t])
    && (forall t :: 0 <= t < c.m.deq ==> t in c.h.returned || Consuming(c, t))
  }

  // ----- Tickets that share a slot -----

  lemma SlotsApart(a: nat, b: nat, cap: nat)
    requires cap > 0 && a < b && SlotOf(Ideal, a, cap) == SlotOf(Ideal, b, cap)
    ensures b >= a + cap
  {
    if b < a + cap {
      ModUnique(a, b, cap);
      assert false;
    }
  }

  lemma SlotFacts(cap: nat)
    requires cap > 0
    ensures forall a: nat, b: nat {:trigger SlotOf(Ideal, a, cap), SlotOf(Ideal, b, cap)} ::
      a < b && SlotOf(Ideal, a, cap) == SlotOf(Ideal, b, cap) ==> b >= a + cap
    ensures forall a: nat :: SlotOf(Ideal, a + cap, cap) == SlotOf(Ideal, a, cap)
  {
    forall a: nat, b: nat | a < b && SlotOf(Ideal, a, cap) == SlotOf(Ideal, b, cap)
      ensures b >= a + cap
    {
      SlotsApart(a, b, cap);
    }
    forall a: nat ensures SlotOf(Ideal, a + cap, cap) == SlotOf(Ideal, a, cap) {
      ModShift(a, 1, cap);
    }
  }

  lemma SameLap(cap: nat, t: nat, s: nat)
    requires cap > 0
    ensures SlotOf(Ideal, t, cap) == SlotOf(Ideal, s, cap) && t < s ==> t + cap <= s
    ensures SlotOf(Ideal, t, cap) == SlotOf(Ideal, s, cap) && s < t ==> s + cap <= t
  {
    SlotFacts(cap);
  }

  lemma NeighbourSlots(t: nat, cap: nat)
    requires cap >= 2
    ensures SlotOf(Ideal, t + 1, cap) != SlotOf(Ideal, t, cap)
    ensures SlotOf(Ideal, t + cap, cap) == SlotOf(Ideal, t, cap)
  {
    SlotFacts(cap);
  }

  lemma InitInv<T>(cap: nat, tids: set<Tid>)
    requires cap >= 2
    ensures Inv(Start<T>(cap, tids))
  {
    forall i | 0 <= i < cap ensures SlotInv(Start<T>(cap, tids), i) {
      DivModUnique(i, 0, i, cap);
    }
  }

  // ----- Every event keeps the invariant -----

  /** The step moved only thread p, which held no ticket before and holds none after. */
  ghost predicate LocalStep<T>(c: Config<T>, c': Config<T>, p: Tid) {
    && p in c.m.threads && p in c'.m.threads
    && c'.m == Become(c.m, p, c'.m.threads[p])
    && !Claimed(c.m.threads[p]) && !Claimed(c'.m.threads[p])
    && c'.h == c.h.(since := c'.h.since, retries := c'.h.retries)
    && c.h.since.Keys <= c'.h.since.Keys && c.h.retries.Keys <= c'.h.retries.Keys
    && (forall q :: q in c.h.since && q != p ==> c'.h.since[q] == c.h.since[q])
    && (forall q :: q in c.h.retries && q != p ==> c'.h.retries[q] == c.h.retries[q])
  }

  lemma LocalKeepsHolders<T>(c: Config<T>, c': Config<T>, p: Tid)
    requires LocalStep(c, c', p)
    ensures forall t :: Publishing(c, t) ==> Publishing(c', t)
    ensures forall t :: Consuming(c, t) ==> Consuming(c', t)
  {
  }

  lemma LocalStepInv<T>(c: Config<T>, c': Config<T>, p: Tid)
    requires Inv(c) && LocalStep(c, c', p) && ThreadInv(c', p) && ProgressInv(c', p)
    ensures Inv(c')
  {
    LocalKeepsHolders(c, c', p);
    forall i | 0 <= i < c.m.cap ensures SlotInv(c', i) {
      assert SlotInv(c, i);
    }
    forall q | q in c'.m.threads ensures ThreadInv(c', q) && ProgressInv(c', q) {
      assert ThreadInv(c, q) && ProgressInv(c, q);
    }
  }

  /** What the sign of the difference says, at the moment of the load, about a thread's position. */
  lemma LoadMeaning<T>(c: Config<T>, p: Tid)
    requires Inv(c) && p in c.m.threads && !c.m.threads[p].Idle?
    requires c.m.threads[p].stage == LoadSequence
    ensures var th := c.m.threads[p];
            var loaded, wanted := Loaded(Ideal, c.m, th), Wanted(Ideal, th);
            && (loaded < wanted ==> th.pos == Counter(c.m, th))
            && (loaded > wanted ==> th.pos < Counter(c.m, th))
            && (loaded < wanted && th.Pushing? ==> th.pos >= c.m.cap && loaded <= th.pos - c.m.cap + 1)
            && (loaded < wanted && th.Popping? ==> loaded <= th.pos)
  {
    var m, th := c.m, c.m.threads[p];
    var i := SlotOf(Ideal, th.pos, m.cap);
    SlotFacts(m.cap);
    assert ThreadInv(c, p) && SlotInv(c, i);
  }

  lemma LoadInv<T>(c: Config<T>, e: Event<T>)
    requires Inv(c) && Enabled(c.m, e) && e.LoadSeq?
    ensures Inv(Step(c, e))
  {
    var c' := Step(c, e);
    assert ThreadInv(c, e.p) && ProgressInv(c, e.p);
    LoadMeaning(c, e.p);
    assert LocalStep(c, c', e.p);
    LocalStepInv(c, c', e.p);
  }

  lemma LocalInv<T>(c: Config<T>, e: Event<T>)
    requires Inv(c) && Enabled(c.m, e)
    requires e.CallPush? || e.CallPop? || e.ClaimFail? || e.ReloadPos?
    ensures Inv(Step(c, e))
  {
    var c' := Step(c, e);
    assert ThreadInv(c, e.p) && ProgressInv(c, e.p);
    assert LocalStep(c, c', e.p);
    LocalStepInv(c, c', e.p);
  }

  lemma ClaimKeepsHolders<T>(c: Config<T>, e: Event<T>)
    requires Inv(c) && Enabled(c.m, e) && (e.ClaimOk? || e.TouchData?)
    ensures forall t :: Publishing(c, t) ==> Publishing(Step(c, e), t)
    ensures forall t :: Consuming(c, t) ==> Consuming(Step(c, e), t)
  {
  }

  /** A claim finds the slot as the thread saw it, so the counters stay within one lap of each other. */
  lemma ClaimIsSafe<T>(c: Config<T>, e: Event<T>)
    requires Inv(c) && Enabled(c.m, e) && e.ClaimOk?
    ensures var th := c.m.threads[e.p];
            && c.m.seqs[SlotOf(Ideal, th.pos, c.m.cap)] == Wanted(Ideal, th)
            && (if th.Pushing? then c.m.enq < c.m.deq + c.m.cap else c.m.deq < c.m.enq)
  {
    var th := c.m.threads[e.p];
    var i0 := SlotOf(Ideal, th.pos, c.m.cap);
    SlotFacts(c.m.cap);
    assert ThreadInv(c, e.p) && SlotInv(c, i0);
  }

  lemma ClaimSlotInv<T>(c: Config<T>, e: Event<T>, i: nat)
    requires Inv(c) && Enabled(c.m, e) && e.ClaimOk? && i < c.m.cap
    ensures SlotInv(Step(c, e), i)
  {
    ClaimIsSafe(c, e);
    ClaimKeepsHolders(c, e);
    var c', th := Step(c, e), c.m.threads[e.p];
    assert if th.Pushing? then Publishing(c', th.pos) else Consuming(c', th.pos);
    assert SlotInv(c, i);
    SlotFacts(c.m.cap);
  }

  lemma ClaimThreadInv<T>(c: Config<T>, e: Event<T>, q: Tid)
    requires Inv(c) && Enabled(c.m, e) && e.ClaimOk? && q in c.m.threads
    ensures ThreadInv(Step(c, e), q) && ProgressInv(Step(c, e), q)
  {
    ClaimIsSafe(c, e);
    assert ThreadInv(c, q) && ProgressInv(c, q);
  }

  lemma ClaimInv<T>(c: Config<T>, e: Event<T>)
    requires Inv(c) && Enabled(c.m, e) && e.ClaimOk?
    ensures Inv(Step(c, e))
  {
    var c', th := Step(c, e), c.m.threads[e.p];
    ClaimIsSafe(c, e);
    forall i | 0 <= i < c.m.cap ensures SlotInv(c', i) {
      ClaimSlotInv(c, e, i);
    }
    forall q | q in c'.m.threads ensures ThreadInv(c', q) && ProgressInv(c', q) {
      ClaimThreadInv(c, e, q);
    }
    ClaimKeepsHolders(c, e);
    assert th.Popping? ==> Consuming(c', th.pos);
  }

  /** No two threads hold tickets of the same slot: between a successful claim and the store of the
      sequence number, the slot's data is one thread's alone. */
  lemma SlotExclusive<T>(c: Config<T>, p: Tid, q: Tid)
    requires Inv(c) && p in c.m.threads && q in c.m.threads && p != q
    requires Claimed(c.m.threads[p]) && Claimed(c.m.threads[q])
    ensures SlotOf(Ideal, c.m.threads[p].pos, c.m.cap) != SlotOf(Ideal, c.m.threads[q].pos, c.m.cap)
  {
    SlotFacts(c.m.cap);
    assert ThreadInv(c, p) && ThreadInv(c, q);
  }

  /** The slot of a ticket held by p is neither the one another thread holds nor the one it may claim. */
  lemma HeldSlotIsApart<T>(c: Config<T>, p: Tid, q: Tid)
    requires Inv(c) && p in c.m.threads && q in c.m.threads && p != q && Claimed(c.m.threads[p])
    requires var th := c.m.threads[q]; Claimed(th) || (!th.Idle? && th.stage == TryClaim && th.pos == Counter(c.m, th))
    ensures SlotOf(Ideal, c.m.threads[p].pos, c.m.cap) != SlotOf(Ideal, c.m.threads[q].pos, c.m.cap)
  {
    if Claimed(c.m.threads[q]) {
      SlotExclusive(c, p, q);
    } else {
      SlotFacts(c.m.cap);
      assert ThreadInv(c, p) && ThreadInv(c, q);
    }
  }

  lemma OtherThreadsInv<T>(c: Config<T>, e: Event<T>, q: Tid)
    requires Inv(c) && Enabled(c.m, e) && (e.TouchData? || e.StoreSeq?)
    requires q in c.m.threads && q != e.p
    ensures ThreadInv(Step(c, e), q)
  {
    assert ThreadInv(c, e.p) && ThreadInv(c, q);
    var th := c.m.threads[q];
    if Claimed(th) || (!th.Idle? && th.stage == TryClaim && th.pos == Counter(c.m, th)) {
      HeldSlotIsApart(c, e.p, q);
    }
  }

  lemma TouchSlotInv<T>(c: Config<T>, e: Event<T>, i: nat)
    requires Inv(c) && Enabled(c.m, e) && e.TouchData? && i < c.m.cap
    ensures SlotInv(Step(c, e), i)
  {
    var th := c.m.threads[e.p];
    assert ThreadInv(c, e.p) && SlotInv(c, i);
    ClaimKeepsHolders(c, e);
  }

  lemma TouchOwnerInv<T>(c: Config<T>, e: Event<T>)
    requires Inv(c) && Enabled(c.m, e) && e.TouchData?
    ensures ThreadInv(Step(c, e), e.p)
  {
    var th := c.m.threads[e.p];
    var i := SlotOf(Ideal, th.pos, c.m.cap);
    assert ThreadInv(c, e.p) && SlotInv(c, i);
    NeighbourSlots(th.pos, c.m.cap);
  }

  lemma TouchInv<T>(c: Config<T>, e: Event<T>)
    requires Inv(c) && Enabled(c.m, e) && e.TouchData?
    ensures Inv(Step(c, e))
  {
    var c' := Step(c, e);
    forall i | 0 <= i < c.m.cap ensures SlotInv(c', i) {
      TouchSlotInv(c, e, i);
    }
    forall q | q in c'.m.threads ensures ThreadInv(c', q) && ProgressInv(c', q) {
      assert ThreadInv(c, q) && ProgressInv(c, q);
      if q == e.p {
        TouchOwnerInv(c, e);
      } else {
        OtherThreadsInv(c, e, q);
      }
    }
    ClaimKeepsHolders(c, e);
  }

  lemma StoreKeepsHolders<T>(c: Config<T>, e: Event<T>)
    requires Inv(c) && Enabled(c.m, e) && e.StoreSeq?
    ensures var th := c.m.threads[e.p];
            && (forall t :: Publishing(c, t) && (th.Pushing? ==> t != th.pos) ==> Publishing(Step(c, e), t))
            && (forall t :: Consuming(c, t) && (th.Popping? ==> t != th.pos) ==> Consuming(Step(c, e), t))
  {
    assert ThreadInv(c, e.p);
  }

  lemma StoreOwnSlotInv<T>(c: Config<T>, e: Event<T>)
    requires Inv(c) && Enabled(c.m, e) && e.StoreSeq?
    ensures SlotInv(Step(c, e), SlotOf(Ideal, c.m.threads[e.p].pos, c.m.cap))
  {
    var c', th := Step(c, e), c.m.threads[e.p];
    var i := SlotOf(Ideal, th.pos, c.m.cap);
    NeighbourSlots(th.pos, c.m.cap);
    assert ThreadInv(c, e.p) && SlotInv(c, i);
    assert Shape(c'.m) && c'.m.enq == c.m.enq && c'.m.deq == c.m.deq && c'.h.pushed == c.h.pushed;
    if th.Pushing? {
      assert c'.m.seqs[i] == th.pos + 1 && c'.m.data[i] == Some(c.h.pushed[th.pos]);
    } else {
      assert c'.m.seqs[i] == th.pos + c.m.cap;
    }
    PassedOn(c, c', i, th.pos);
  }

  /** The slot of ticket t goes from free to published, or from read to free for ticket t + cap. */
  lemma PassedOn<T>(c: Config<T>, c': Config<T>, i: nat, t: nat)
    requires Shape(c.m) && Shape(c'.m) && c'.m.cap == c.m.cap >= 2 && i < c.m.cap && SlotInv(c, i)
    requires c'.m.enq == c.m.enq && c'.m.deq == c.m.deq && c'.h.pushed == c.h.pushed
    requires c.m.deq <= c.m.enq <= c.m.deq + c.m.cap
    requires SlotOf(Ideal, t, c.m.cap) == i == SlotOf(Ideal, t + c.m.cap, c.m.cap) != SlotOf(Ideal, t + 1, c.m.cap)
    requires
      || (c.m.seqs[i] == t < c.m.enq && c'.m.seqs[i] == t + 1
          && t < |c.h.pushed| && c'.m.data[i] == Some(c.h.pushed[t]))
      || (c.m.seqs[i] == t + 1 && t < c.m.deq && c'.m.seqs[i] == t + c.m.cap)
    ensures SlotInv(c', i)
  {
  }

  /** A slot that a step leaves alone, together with the holders of its tickets, stays consistent. */
  lemma SlotKept<T>(c: Config<T>, c': Config<T>, i: nat)
    requires Shape(c.m) && Shape(c'.m) && c'.m.cap == c.m.cap && i < c.m.cap && SlotInv(c, i)
    requires c'.m.enq == c.m.enq && c'.m.deq == c.m.deq && c'.h.pushed == c.h.pushed
    requires c'.m.seqs[i] == c.m.seqs[i] && c'.m.data[i] == c.m.data[i]
    requires forall t: nat :: SlotOf(Ideal, t, c.m.cap) == i && Publishing(c, t) ==> Publishing(c', t)
    requires forall t: nat :: SlotOf(Ideal, t, c.m.cap) == i && Consuming(c, t) ==> Consuming(c', t)
    ensures SlotInv(c', i)
  {
  }

  lemma StoreInv<T>(c: Config<T>, e: Event<T>)
    requires Inv(c) && Enabled(c.m, e) && e.StoreSeq?
    ensures Inv(Step(c, e))
  {
    var c' := Step(c, e);
    assert ThreadInv(c, e.p);
    StoreKeepsHolders(c, e);
    forall i | 0 <= i < c.m.cap ensures SlotInv(c', i) {
      if i == SlotOf(Ideal, c.m.threads[e.p].pos, c.m.cap) {
        StoreOwnSlotInv(c, e);
      } else {
        SlotKept(c, c', i);
      }
    }
    forall q | q in c'.m.threads ensures ThreadInv(c', q) && ProgressInv(c', q) {
      assert ThreadInv(c, q) && ProgressInv(c, q);
      if q != e.p {
        OtherThreadsInv(c, e, q);
      }
    }
  }

  lemma StepInv<T>(c: Config<T>, e: Event<T>)
    requires Inv(c) && Enabled(c.m, e)
    ensures Inv(Step(c, e))
  {
    match e
    case LoadSeq(_) => LoadInv(c, e);
    case ClaimOk(_) => ClaimInv(c, e);
    case TouchData(_) => TouchInv(c, e);
    case StoreSeq(_) => StoreInv(c, e);
    case _ => LocalInv(c, e);
  }

  lemma {:induction false} RunInv<T>(c: Config<T>, es: seq<Event<T>>)
    requires Inv(c) && Legal(c, es)
    ensures Inv(Run(c, es))
    decreases |es|
  {
    if es != [] {
      StepInv(c, es[0]);
      RunInv(Step(c, es[0]), es[1..]);
    }
  }

  lemma {:induction false} Reachable<T>(cap: nat, tids: set<Tid>, es: seq<Event<T>>)
    requires cap >= 2 && Legal(Start<T>(cap, tids), es)
    ensures Inv(Run(Start<T>(cap, tids), es))
    ensures Run(Start<T>(cap, tids), es).m.cap == cap
  {
    InitInv<T>(cap, tids);
    RunInv(Start<T>(cap, tids), es);
    RunCap(Start<T>(cap, tids), es);
  }

  lemma {:induction false} RunCap<T>(c: Config<T>, es: seq<Event<T>>)
    requires Legal(c, es)
    ensures Run(c, es).m.cap == c.m.cap && Run(c, es).m.threads.Keys == c.m.threads.Keys
    decreases |es|
  {
    if es != [] {
      RunCap(Step(c, es[0]), es[1..]);
    }
  }

  // ----- What every run of any number of threads guarantees -----

  /** Ticket t's value is in its slot, published and not yet claimed by a pop. */
  ghost predicate Stored<T>(c: Config<T>, t: nat)
    requires Shape(c.m)
  {
    var i := SlotOf(Ideal, t, c.m.cap);
    t >= c.m.deq && c.m.seqs[i] == t + 1 && t < |c.h.pushed| && c.m.data[i] == Some(c.h.pushed[t])
  }

  /** Every claimed ticket is in exactly one place. */
  ghost predicate OnePlace<T>(c: Config<T>, t: nat)
    requires Shape(c.m)
  {
    && (Publishing(c, t) || Stored(c, t) || Consuming(c, t) || t in c.h.returned)
    && !(Publishing(c, t) && (Stored(c, t) || Consuming(c, t) || t in c.h.returned))
    && !(Stored(c, t) && (Consuming(c, t) || t in c.h.returned))
    && !(Consuming(c, t) && t in c.h.returned)
  }

  lemma TicketsInOnePlace<T>(c: Config<T>, t: nat)
    requires Inv(c) && t < c.m.enq
    ensures OnePlace(c, t)
  {
    var i := SlotOf(Ideal, t, c.m.cap);
    NeighbourSlots(t, c.m.cap);
    assert SlotInv(c, i);
    SameLap(c.m.cap, t, c.m.seqs[i]);
    if c.m.seqs[i] > 0 {
      SameLap(c.m.cap, t, c.m.seqs[i] - 1);
    }
    if Publishing(c, t) {
      assert ThreadInv(c, c.h.pushedBy[t]);
    }
    if Consuming(c, t) {
      assert ThreadInv(c, c.h.poppedBy[t]);
    }
  }

  /** No loss, duplication or reordering: tickets are claimed one by one, a successful pop of ticket t
      returns the value pushed under t, and every claimed ticket is in exactly one place. */
  lemma NothingLostNothingTwice<T>(cap: nat, tids: set<Tid>, es: seq<Event<T>>)
    requires cap >= 2 && Legal(Start<T>(cap, tids), es)
    ensures var c := Run(Start<T>(cap, tids), es);
            && Shape(c.m)
            && c.m.deq <= c.m.enq <= c.m.deq + cap
            && |c.h.pushed| == |c.h.pushedBy| == c.m.enq && |c.h.poppedBy| == c.m.deq
            && (forall t :: t in c.h.returned ==> t < c.m.deq && c.h.returned[t] == c.h.pushed[t])
            && (forall t :: 0 <= t < c.m.enq ==> OnePlace(c, t))
  {
    Reachable<T>(cap, tids, es);
    var c := Run(Start<T>(cap, tids), es);
    forall t | 0 <= t < c.m.enq ensures OnePlace(c, t) {
      TicketsInOnePlace(c, t);
    }
  }

  /** A pop about to return holds the value pushed under its ticket, which nobody has returned yet. */
  lemma PopReturnsItsTicket<T>(cap: nat, tids: set<Tid>, es: seq<Event<T>>, e: Event<T>)
    requires cap >= 2 && Legal(Start<T>(cap, tids), es)
    requires var c := Run(Start<T>(cap, tids), es);
             Enabled(c.m, e) && e.StoreSeq? && c.m.threads[e.p].Popping?
    ensures var c := Run(Start<T>(cap, tids), es);
            var th := c.m.threads[e.p];
            && th.pos < c.m.deq <= |c.h.pushed| && th.got == Some(c.h.pushed[th.pos])
            && th.pos !in c.h.returned
            && Step(c, e).h.returned == c.h.returned[th.pos := c.h.pushed[th.pos]]
  {
    Reachable<T>(cap, tids, es);
    assert ThreadInv(Run(Start<T>(cap, tids), es), e.p);
  }

  /** Slot exclusivity in every reachable state. */
  lemma RaceFree<T>(cap: nat, tids: set<Tid>, es: seq<Event<T>>, p: Tid, q: Tid)
    requires cap >= 2 && Legal(Start<T>(cap, tids), es)
    requires var c := Run(Start<T>(cap, tids), es);
             && p in c.m.threads && q in c.m.threads && p != q
             && Claimed(c.m.threads[p]) && Claimed(c.m.threads[q])
    ensures var c := Run(Start<T>(cap, tids), es);
            SlotOf(Ideal, c.m.threads[p].pos, cap) != SlotOf(Ideal, c.m.threads[q].pos, cap)
  {
    Reachable<T>(cap, tids, es);
    SlotExclusive(Run(Start<T>(cap, tids), es), p, q);
  }

  ghost function Contents<T>(c: Config<T>): seq<T>
    requires c.m.deq <= |c.h.pushed|
  {
    c.h.pushed[c.m.deq..]
  }

  /** Successful operations take effect when they claim their ticket: the queue is a bounded FIFO whose
      contents change at claims only. The value removed is the one the call will return. */
  lemma RefinesBoundedFifo<T>(c: Config<T>, e: Event<T>)
    requires Inv(c) && Enabled(c.m, e)
    ensures Inv(Step(c, e))
    ensures var th := c.m.threads[e.p];
            var before, after := Contents(c), Contents(Step(c, e));
            if e.ClaimOk? && th.Pushing? then
              |before| < c.m.cap && after == before + [th.value]
            else if e.ClaimOk? then
              before != [] && after == before[1..] && before[0] == c.h.pushed[th.pos]
            else
              after == before
  {
    StepInv(c, e);
    if e.ClaimOk? {
      ClaimIsSafe(c, e);
    }
  }

  /** What it means that a call returns false: at the instant of the load its position was current, and
      the ticket it needed - pos for a pop, pos - capacity for a push - was still in another place. */
  lemma RefusalMeaning<T>(c: Config<T>, e: Event<T>)
    requires Inv(c) && Enabled(c.m, e) && Refuses(Ideal, c.m, e)
    ensures var th := c.m.threads[e.p];
            && th.pos == Counter(c.m, th)
            && (th.Popping? ==> th.pos == c.m.enq || Publishing(c, th.pos))
            && (th.Pushing? ==>
                  && th.pos >= c.m.cap
                  && var t := th.pos - c.m.cap;
                     Publishing(c, t) || Stored(c, t) || Consuming(c, t))
  {
    var th := c.m.threads[e.p];
    LoadMeaning(c, e.p);
    var i := SlotOf(Ideal, th.pos, c.m.cap);
    assert SlotInv(c, i);
    if th.Pushing? {
      var t := th.pos - c.m.cap;
      NeighbourSlots(t, c.m.cap);
      TicketsInOnePlace(c, t);
      SlotFacts(c.m.cap);
    } else if th.pos < c.m.enq {
      TicketsInOnePlace(c, th.pos);
      if Stored(c, th.pos) {
        assert false;
      }
    }
  }

  ghost predicate OthersIdle<T>(m: Machine<T>, p: Tid) {
    forall q :: q in m.threads && q != p ==> m.threads[q].Idle?
  }

  /** With no other call in flight, push refuses exactly when full and pop exactly when empty. */
  lemma QuietRefusal<T>(c: Config<T>, e: Event<T>)
    requires Inv(c) && Enabled(c.m, e) && e.LoadSeq? && OthersIdle(c.m, e.p)
    requires c.m.threads[e.p].pos == Counter(c.m, c.m.threads[e.p])
    ensures var th := c.m.threads[e.p];
            Refuses(Ideal, c.m, e) <==>
              if th.Pushing? then |Contents(c)| == c.m.cap else Contents(c) == []
  {
    var th := c.m.threads[e.p];
    var i := SlotOf(Ideal, th.pos, c.m.cap);
    assert SlotInv(c, i);
    forall t ensures !Publishing(c, t) && !Consuming(c, t) {}
    SlotFacts(c.m.cap);
    if Refuses(Ideal, c.m, e) {
      RefusalMeaning(c, e);
    } else if th.Pushing? && c.m.enq == c.m.deq + c.m.cap {
      NeighbourSlots(c.m.deq, c.m.cap);
      TicketsInOnePlace(c, c.m.deq);
      assert false;
    }
  }

  /** A retry that is not a spurious failure continues at a strictly larger position. */
  lemma RetryAdvances<T>(c: Config<T>, e: Event<T>)
    requires Inv(c) && Enabled(c.m, e) && (e.ClaimFail? || e.ReloadPos?)
    ensures var th, th' := c.m.threads[e.p], Step(c, e).m.threads[e.p];
            && th'.pos == Counter(c.m, th) >= th.pos
            && (e.ReloadPos? || Counter(c.m, th) != th.pos ==> th'.pos > th.pos)
  {
    assert ThreadInv(c, e.p);
  }

  /** In every run the retries of a call are at most the claims, all by other threads, made on its
      counter since the call began. */
  lemma RetriesArePaidByOthers<T>(cap: nat, tids: set<Tid>, es: seq<Event<T>>, p: Tid)
    requires cap >= 2 && Legal(Start<T>(cap, tids), es)
    requires var c := Run(Start<T>(cap, tids), es);
             p in c.m.threads && !c.m.threads[p].Idle? && !Claimed(c.m.threads[p])
    ensures var c := Run(Start<T>(cap, tids), es);
            var th := c.m.threads[p];
            var claims := Claims(c.h, th);
            && p in c.h.since && p in c.h.retries && c.h.since[p] <= |claims|
            && c.h.retries[p] <= |claims| - c.h.since[p]
            && OthersOnly(claims, c.h.since[p], p)
  {
    Reachable<T>(cap, tids, es);
    assert ProgressInv(Run(Start<T>(cap, tids), es), p);
  }

  // ----- Why the capacity must be at least 2 -----

  /** With one slot, "published" and "free for the next ticket" are the same number: two pushes in a
      row succeed, so the capacity bound fails. */
  lemma CapacityOneOverruns(v: int)
    ensures var c0 := Start<int>(1, {0});
            var call := [CallPush(0, v), LoadSeq(0), ClaimOk(0), TouchData(0), StoreSeq(0)];
            && Legal(c0, call) && Legal(Run(c0, call), call)
            && var c := Run(Run(c0, call), call);
               c.m.enq == 2 && c.m.deq == 0 && c.m.enq > c.m.deq + c.m.cap
  {
    var c0 := Start<int>(1, {0});
    OnePush(c0, v);
    var call := [CallPush(0, v), LoadSeq(0), ClaimOk(0), TouchData(0), StoreSeq(0)];
    OnePush(Run(c0, call), v);
  }

  lemma OnePush(c: Config<int>, v: int)
    requires Shape(c.m) && c.m.cap == 1 && c.m.threads == map[0 := Idle] && c.m.seqs == [c.m.enq]
    ensures var call := [CallPush(0, v), LoadSeq(0), ClaimOk(0), TouchData(0), StoreSeq(0)];
            && Legal(c, call)
            && var c' := Run(c, call);
               && Shape(c'.m) && c'.m.cap == 1 && c'.m.threads == map[0 := Idle]
               && c'.m.enq == c.m.enq + 1 && c'.m.deq == c.m.deq && c'.m.seqs == [c'.m.enq]
  {
    var c1 := Step(c, CallPush(0, v));
    var c2 := Step(c1, LoadSeq(0));
    assert c2.m == Machine(1, c.m.seqs, c.m.data, c.m.enq, c.m.deq, map[0 := Pushing(v, c.m.enq, TryClaim)]);
    OnePublish(c2, v);
    assert Legal(c1, [LoadSeq(0), ClaimOk(0), TouchData(0), StoreSeq(0)]);
  }

  lemma OnePublish(c: Config<int>, v: int)
    requires Shape(c.m) && c.m.cap == 1 && c.m.threads == map[0 := Pushing(v, c.m.enq, TryClaim)]
    ensures var rest := [ClaimOk(0), TouchData(0), StoreSeq(0)];
            && Legal(c, rest)
            && var c' := Run(c, rest);
               && Shape(c'.m) && c'.m.cap == 1 && c'.m.threads == map[0 := Idle]
               && c'.m.enq == c.m.enq + 1 && c'.m.deq == c.m.deq && c'.m.seqs == [c'.m.enq]
  {
    var c3 := Step(c, ClaimOk(0));
    var c4 := Step(c3, TouchData(0));
    var c5 := Step(c4, StoreSeq(0));
    assert Legal(c4, [StoreSeq(0)]) && Run(c4, [StoreSeq(0)]) == c5;
    assert Legal(c3, [TouchData(0), StoreSeq(0)]) && Run(c3, [TouchData(0), StoreSeq(0)]) == c5;
  }
}

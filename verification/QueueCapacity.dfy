/**
 For which capacities the queue works. Slots are found by masking a position with capacity - 1, so the 64-bit
 machine is looked at as it is, run by a single thread, for every capacity up to 2^61.
 */
module QueueCapacity {
  import opened Words
  import opened QueueProtocol
  import opened QueueWord64

  /** How many values are held: the distance of the counters. */
  function Held<T>(m: Machine<T>): nat {
    (m.enq - m.deq) % WORD
  }

  /** No more values are held than the capacity, and the difference that a call computes tells it to go on exactly if
      there is room (push) or a value (pop), and to give up exactly if there is not. */
  predicate Answers<T>(m: Machine<T>) {
    && Shape(m) && m.threads.Keys == {0} && Held(m) <= m.cap
    && var th := m.threads[0];
       !th.Idle? && th.stage == LoadSequence ==>
         var diff := Diff(Bits64, Loaded(Bits64, m, th), Wanted(Bits64, th));
         var goesOn := if th.Pushing? then Held(m) < m.cap else Held(m) > 0;
         (diff == 0 <==> goesOn) && (diff < 0 <==> !goesOn)
  }

  /** Run by one thread, the queue always answers as a queue of this capacity should. */
  ghost predicate WorksAlone<T(!new)>(cap: nat)
    requires cap >= 1
  {
    forall es: seq<Event<T>> :: Legal64(Init<T>(cap, {0}), es) ==> Answers(Run64(Init<T>(cap, {0}), es))
  }

  // ----- Powers of two work -----

  /** A thread alone always sees the current counter. */
  ghost predicate Alone<T>(c: Config<T>) {
    && c.m.threads.Keys == {0}
    && var th := c.m.threads[0];
       !th.Idle? && !Claimed(th) ==> th.pos == Counter(c.m, th)
  }

  lemma AloneStep<T>(c: Config<T>, e: Event<T>)
    requires Alone(c) && Enabled(c.m, e)
    ensures Alone(Step(c, e))
  {
  }

  lemma {:induction false} AloneRun<T>(c: Config<T>, es: seq<Event<T>>)
    requires Alone(c)
    ensures NoLagAlong(c, es) && (Legal(c, es) ==> Alone(Run(c, es)))
    decreases |es|
  {
    if es != [] && Enabled(c.m, es[0]) {
      AloneStep(c, es[0]);
      AloneRun(Step(c, es[0]), es[1..]);
    }
  }

  lemma AloneAnswers<T>(c: Config<T>, k: nat)
    requires Inv(c) && Alone(c) && 1 <= k <= 61 && c.m.cap == Pow2(k)
    ensures Answers(Narrow(c.m))
  {
    var th := c.m.threads[0];
    HeldIsDistance(c, k);
    if !th.Idle? && th.stage == LoadSequence {
      NarrowLoad(c, 0, k);
      LoadMeaning(c, 0);
      QuietRefusal(c, LoadSeq(0));
    }
  }

  lemma HeldIsDistance<T>(c: Config<T>, k: nat)
    requires Inv(c) && 1 <= k <= 61 && c.m.cap == Pow2(k)
    ensures Shape(Narrow(c.m)) && Held(Narrow(c.m)) == c.m.enq - c.m.deq == |Contents(c)| <= c.m.cap
  {
    Pow2Values();
    Pow2Monotone(k, 61);
    var n := c.m.enq - c.m.deq;
    var a, b := c.m.enq / WORD, c.m.deq / WORD;
    assert c.m.enq % WORD - c.m.deq % WORD == n + (b - a) * WORD;
    ModShift(n, b - a, WORD);
    DivModUnique(n, 0, n, WORD);
  }

  lemma PowerOfTwoWorks<T>(k: nat, es: seq<Event<T>>)
    requires 1 <= k <= 61 && Legal64(Init<T>(Pow2(k), {0}), es)
    ensures Answers(Run64(Init<T>(Pow2(k), {0}), es))
  {
    CapacityIsTwoAtLeast(k);
    var c := Start<T>(Pow2(k), {0});
    AloneRun(c, es);
    QueueSimulates<T>(k, {0}, es);
    Reachable<T>(Pow2(k), {0}, es);
    RunCap(c, es);
    AloneAnswers(Run(c, es), k);
  }

  lemma CapacityIsTwoAtLeast(k: nat)
    requires k >= 1
    ensures Pow2(k) >= 2
  {
    Pow2Monotone(1, k);
  }

  // ----- Others do not -----

  /** The lowest bit of x that is zero. */
  function LowestZero(x: nat): nat {
    if x % 2 == 0 then 0 else 1 + LowestZero(x / 2)
  }

  /** Below that bit, masking with x changes nothing; the bit itself is masked away. */
  lemma {:induction false} MaskBelow(n: nat, x: nat)
    requires n < Pow2(LowestZero(x))
    ensures BitAnd(n, x) == n
  {
    if n > 0 {
      assert x % 2 == 1 && Pow2(LowestZero(x)) == 2 * Pow2(LowestZero(x / 2));
      MaskBelow(n / 2, x / 2);
    }
  }

  lemma {:induction false} MaskAt(x: nat)
    ensures BitAnd(Pow2(LowestZero(x)), x) == 0
  {
    if x % 2 == 0 {
      assert Pow2(0) == 1 && BitAnd(1 / 2, x / 2) == 0;
    } else {
      var h := Pow2(LowestZero(x / 2));
      assert Pow2(LowestZero(x)) == 2 * h;
      MaskAt(x / 2);
    }
  }

  lemma {:induction false} LowestZeroFits(x: nat)
    ensures Pow2(LowestZero(x)) <= x + 1
  {
    if x % 2 == 1 {
      LowestZeroFits(x / 2);
      assert Pow2(LowestZero(x)) == 2 * Pow2(LowestZero(x / 2));
    }
  }

  function PushCall<T>(v: T): seq<Event<T>> {
    [CallPush(0, v), LoadSeq(0), ClaimOk(0), TouchData(0), StoreSeq(0)]
  }

  /** The whole of a push by the one thread, when the difference is 0. */
  function Pushed<T>(m: Machine<T>, v: T): Machine<T>
    requires Shape(m) && m.cap >= 1
  {
    var i := BitAnd(m.enq, m.cap - 1);
    m.(seqs := m.seqs[i := m.enq + 1], data := m.data[i := Some(v)], enq := m.enq + 1)
  }

  /** A queue used by the one thread, between two calls, with small counters. */
  ghost predicate Quiet<T>(m: Machine<T>) {
    Shape(m) && 1 <= m.cap <= MAX_LAG && m.threads == map[0 := Idle] && m.enq <= MAX_LAG && m.deq == 0
  }

  /** The machine goes from one state to another by these events. */
  ghost predicate Goes<T>(m: Machine<T>, es: seq<Event<T>>, m': Machine<T>) {
    Legal64(m, es) && Run64(m, es) == m'
  }

  lemma OneStep<T>(m: Machine<T>, e: Event<T>)
    requires Enabled(m, e)
    ensures Goes(m, [e], Apply(Bits64, m, e))
  {
    var es := [e];
    assert es[1..] == [];
  }

  lemma {:induction false} RunBoth<T>(
      m: Machine<T>, es: seq<Event<T>>, m1: Machine<T>, fs: seq<Event<T>>, m2: Machine<T>)
    requires Goes(m, es, m1) && Goes(m1, fs, m2)
    ensures Goes(m, es + fs, m2)
    decreases |es|
  {
    if es == [] {
      assert es + fs == fs;
    } else {
      RunBoth(Apply(Bits64, m, es[0]), es[1..], m1, fs, m2);
      assert (es + fs)[0] == es[0] && (es + fs)[1..] == es[1..] + fs;
    }
  }

  lemma PushCallRuns<T>(m: Machine<T>, v: T)
    requires Quiet(m) && m.seqs[BitAnd(m.enq, m.cap - 1)] == m.enq
    ensures Goes(m, PushCall(v), Pushed(m, v))
  {
    var m1 := Apply(Bits64, m, CallPush(0, v));
    var m2 := Apply(Bits64, m1, LoadSeq(0));
    assert m2 == m.(threads := map[0 := Pushing(v, m.enq, TryClaim)]);
    OneStep(m, CallPush(0, v));
    OneStep(m1, LoadSeq(0));
    RunBoth(m, [CallPush(0, v)], m1, [LoadSeq(0)], m2);
    PushCallEnds(m, m2, v);
    RunBoth(m, [CallPush(0, v)] + [LoadSeq(0)], m2, [ClaimOk(0)] + [TouchData(0)] + [StoreSeq(0)], Pushed(m, v));
    assert [CallPush(0, v)] + [LoadSeq(0)] + ([ClaimOk(0)] + [TouchData(0)] + [StoreSeq(0)]) == PushCall(v);
  }

  lemma PushCallEnds<T>(m: Machine<T>, m2: Machine<T>, v: T)
    requires Quiet(m) && m2 == m.(threads := map[0 := Pushing(v, m.enq, TryClaim)])
    ensures Goes(m2, [ClaimOk(0)] + [TouchData(0)] + [StoreSeq(0)], Pushed(m, v))
  {
    var m3 := Apply(Bits64, m2, ClaimOk(0));
    var m4 := Apply(Bits64, m3, TouchData(0));
    OneStep(m2, ClaimOk(0));
    OneStep(m3, TouchData(0));
    OneStep(m4, StoreSeq(0));
    RunBoth(m2, [ClaimOk(0)], m3, [TouchData(0)], m4);
    RunBoth(m2, [ClaimOk(0)] + [TouchData(0)], m4, [StoreSeq(0)], Apply(Bits64, m4, StoreSeq(0)));
    assert Apply(Bits64, m4, StoreSeq(0)).threads == map[0 := Idle];
  }

  /** After n pushes that all met a slot of their own. */
  ghost predicate Filled<T>(m: Machine<T>, cap: nat, n: nat) {
    && Quiet(m) && m.cap == cap && m.enq == n
    && forall i :: 0 <= i < cap ==> m.seqs[i] == if i < n then i + 1 else i
  }

  lemma PushFits<T>(m: Machine<T>, cap: nat, n: nat, v: T)
    requires 1 <= cap <= MAX_LAG && Filled(m, cap, n) && n < Pow2(LowestZero(cap - 1)) <= cap
    ensures Goes(m, PushCall(v), Pushed(m, v)) && Filled(Pushed(m, v), cap, n + 1)
  {
    MaskBelow(n, cap - 1);
    PushCallRuns(m, v);
  }

  lemma {:induction false} Fill<T>(cap: nat, n: nat, v: T) returns (es: seq<Event<T>>, m: Machine<T>)
    requires 1 <= cap <= MAX_LAG && n <= Pow2(LowestZero(cap - 1))
    ensures Goes(Init<T>(cap, {0}), es, m) && Filled(m, cap, n)
  {
    LowestZeroFits(cap - 1);
    if n == 0 {
      es, m := [], Init<T>(cap, {0});
      assert m.threads == map[0 := Idle];
    } else {
      var before, m1 := Fill(cap, n - 1, v);
      PushFits(m1, cap, n - 1, v);
      m := Pushed(m1, v);
      RunBoth(Init<T>(cap, {0}), before, m1, PushCall(v), m);
      es := before + PushCall(v);
    }
  }

  /** The state after these events from the start. */
  ghost predicate Comes<T>(cap: nat, es: seq<Event<T>>, m: Machine<T>) {
    cap >= 1 && Goes(Init<T>(cap, {0}), es, m)
  }

  lemma MeetsTakenSlot<T>(m: Machine<T>, n: nat, v: T)
    requires 2 <= n < m.cap && BitAnd(n, m.cap - 1) == 0 && Filled(m, m.cap, n)
    ensures
      var m' := Apply(Bits64, m, CallPush(0, v));
      Enabled(m', LoadSeq(0)) && Refuses(Bits64, m', LoadSeq(0)) && Held(m') == n
  {
    SmallIsItself(1 as int - n);
    DivModUnique(n, 0, n, WORD);
  }

  lemma FirstTakenSlot(x: nat)
    requires x % 2 == 1
    ensures BitAnd(Pow2(LowestZero(x)), x) == 0 && Pow2(LowestZero(x)) >= 2
  {
    MaskAt(x);
    assert Pow2(LowestZero(x)) == 2 * Pow2(LowestZero(x / 2));
  }

  /** A capacity that is even but no power of two: the push at the lowest zero bit of the mask meets slot 0, which is
      still taken, and gives up although there is room. */
  lemma RefusesTooSoon<T>(cap: nat, v: T) returns (es: seq<Event<T>>, m: Machine<T>)
    requires 2 <= cap <= MAX_LAG && cap % 2 == 0 && Pow2(LowestZero(cap - 1)) < cap
    ensures Comes(cap, es, m)
    ensures Enabled(m, LoadSeq(0)) && Refuses(Bits64, m, LoadSeq(0)) && m.cap == cap
    ensures Held(m) == Pow2(LowestZero(cap - 1)) < cap
  {
    var before, m1 := Fill(cap, Pow2(LowestZero(cap - 1)), v);
    m := Apply(Bits64, m1, CallPush(0, v));
    OneStep(m1, CallPush(0, v));
    RunBoth(Init<T>(cap, {0}), before, m1, [CallPush(0, v)], m);
    es := before + [CallPush(0, v)];
    FirstTakenSlot(cap - 1);
    MeetsTakenSlot(m1, Pow2(LowestZero(cap - 1)), v);
  }

  /** An odd capacity: the second push meets slot 0 as the first did, is accepted, and overwrites the first value. */
  lemma OverwritesAtOnce<T>(cap: nat, v: T, w: T) returns (m: Machine<T>)
    requires 1 <= cap <= MAX_LAG && cap % 2 == 1
    ensures Comes(cap, PushCall(v) + PushCall(w), m)
    ensures Quiet(m) && m.cap == cap && m.enq == 2 && m.seqs[0] == 2
    ensures m.data[0] == Some(w) && forall i :: 0 < i < cap ==> m.data[i] == None
  {
    var m0 := Init<T>(cap, {0});
    assert m0.threads == map[0 := Idle] && BitAnd(0, cap - 1) == 0;
    PushCallRuns(m0, v);
    var m1 := Pushed(m0, v);
    assert BitAnd(1 / 2, (cap - 1) / 2) == 0;
    PushCallRuns(m1, w);
    m := Pushed(m1, w);
    RunBoth(m0, PushCall(v), m1, PushCall(w), m);
  }

  /** After that a pop finds neither a value nor an empty queue. */
  lemma PopFindsNothing<T>(m: Machine<T>)
    requires Quiet(m) && m.enq == 2 && m.seqs[0] == 2
    ensures !Answers(Apply(Bits64, m, CallPop(0)))
  {
    assert BitAnd(0, m.cap - 1) == 0;
    SmallIsItself(1);
  }

  lemma OddCapacityFails<T(!new)>(cap: nat, v: T)
    requires 1 <= cap <= MAX_LAG && cap % 2 == 1
    ensures !WorksAlone<T>(cap)
  {
    var m := OverwritesAtOnce(cap, v, v);
    PopFindsNothing(m);
    OneStep(m, CallPop(0));
    RunBoth(Init<T>(cap, {0}), PushCall(v) + PushCall(v), m, [CallPop(0)], Apply(Bits64, m, CallPop(0)));
    assert Legal64(Init<T>(cap, {0}), PushCall(v) + PushCall(v) + [CallPop(0)]);
  }

  lemma EvenCapacityFails<T(!new)>(cap: nat, v: T)
    requires 2 <= cap <= MAX_LAG && cap % 2 == 0 && Pow2(LowestZero(cap - 1)) < cap
    ensures !WorksAlone<T>(cap)
  {
    var es, m := RefusesTooSoon(cap, v);
    assert Legal64(Init<T>(cap, {0}), es) && !Answers(m);
  }

  /** The queue, run by one thread, accepts values exactly while there is room, gives them out exactly while there are
      any, and never holds more than its capacity, if and only if the capacity is a power of two and at least 2. */
  lemma WorksExactlyForPowersOfTwo<T(!new)>(cap: nat, v: T)
    requires 1 <= cap <= MAX_LAG
    ensures WorksAlone<T>(cap) <==> exists k :: 1 <= k <= 61 && cap == Pow2(k)
  {
    var z := LowestZero(cap - 1);
    LowestZeroFits(cap - 1);
    if cap % 2 == 1 {
      OddCapacityFails<T>(cap, v);
      OddIsNoPower(cap);
    } else if Pow2(z) < cap {
      EvenCapacityFails<T>(cap, v);
      NoPowerBetween(cap);
    } else {
      ExponentRange(z);
      forall es: seq<Event<T>> | Legal64(Init<T>(cap, {0}), es)
        ensures Answers(Run64(Init<T>(cap, {0}), es))
      {
        PowerOfTwoWorks(z, es);
      }
    }
  }

  lemma OddIsNoPower(cap: nat)
    requires cap % 2 == 1
    ensures !exists k :: 1 <= k <= 61 && cap == Pow2(k)
  {
    forall k: nat | 1 <= k <= 61
      ensures cap != Pow2(k)
    {
      assert Pow2(k) == 2 * Pow2(k - 1);
    }
  }

  /** The mask of a power of two has ones below that bit only. */
  lemma {:induction false} LowestZeroOfPower(k: nat)
    ensures LowestZero(Pow2(k) - 1) == k
  {
    if k > 0 {
      assert Pow2(k) - 1 == 2 * (Pow2(k - 1) - 1) + 1;
      LowestZeroOfPower(k - 1);
    }
  }

  lemma NoPowerBetween(cap: nat)
    requires cap >= 1 && Pow2(LowestZero(cap - 1)) < cap
    ensures !exists k :: 1 <= k <= 61 && cap == Pow2(k)
  {
    forall k: nat | 1 <= k <= 61
      ensures cap != Pow2(k)
    {
      LowestZeroOfPower(k);
    }
  }

  lemma ExponentRange(z: nat)
    requires 2 <= Pow2(z) <= MAX_LAG
    ensures 1 <= z <= 61
  {
    Pow2Values();
    if z > 61 {
      Pow2Monotone(62, z);
      assert false;
    }
  }
}

/** The queue as one thread uses it: arrays of sequence numbers and data, 64-bit counters, in-place updates. */
module LockFreeQueue {
  import opened Words
  import opened QueueProtocol
  import opened QueueWord64

  /** How `cap` slots hold the items whose oldest has ticket `head`; the other slots await their tickets.
      Sequence numbers are the unreduced ones. */
  ghost predicate Laid<T>(seqs: seq<nat>, data: seq<T>, head: nat, items: seq<T>, cap: nat) {
    && cap >= 2 && |seqs| == |data| == cap && |items| <= cap
    && (forall j :: 0 <= j < cap ==> Holds(seqs, data, head, items, cap, j))
  }

  ghost predicate Holds<T>(seqs: seq<nat>, data: seq<T>, head: nat, items: seq<T>, cap: nat, j: nat)
    requires |seqs| == |data| == cap && j < cap
  {
    var i := SlotOf(Ideal, head + j, cap);
    if j < |items| then seqs[i] == head + j + 1 && data[i] == items[j] else seqs[i] == head + j
  }

  function Tickets(cap: nat): seq<nat> {
    seq(cap, i => i)
  }

  lemma EmptyIsLaid<T>(data: seq<T>, cap: nat)
    requires 2 <= cap <= MAX_LAG && |data| == cap
    ensures Laid(Tickets(cap), data, 0, [], cap)
    ensures forall i :: 0 <= i < cap ==> Tickets(cap)[i] == i == Tickets(cap)[i] % WORD
  {
    var seqs, none: seq<T> := Tickets(cap), [];
    forall j | 0 <= j < cap ensures Holds(seqs, data, 0, none, cap, j) {
      SmallTicket(j, cap);
    }
    forall j | 0 <= j < cap ensures Tickets(cap)[j] == j == Tickets(cap)[j] % WORD {
      DivModUnique(j, 0, j, WORD);
    }
  }

  lemma SmallTicket(j: nat, cap: nat)
    requires j < cap
    ensures SlotOf(Ideal, 0 + j, cap) == j
  {
    DivModUnique(j, 0, j, cap);
  }

  lemma LaidPush<T>(seqs: seq<nat>, data: seq<T>, head: nat, items: seq<T>, cap: nat, x: T)
    requires Laid(seqs, data, head, items, cap) && |items| < cap
    ensures var i := SlotOf(Ideal, head + |items|, cap);
            Laid(seqs[i := head + |items| + 1], data[i := x], head, items + [x], cap)
  {
    var i := SlotOf(Ideal, head + |items|, cap);
    var seqs', data', items' := seqs[i := head + |items| + 1], data[i := x], items + [x];
    forall j | 0 <= j < cap ensures Holds(seqs', data', head, items', cap, j) {
      assert Holds(seqs, data, head, items, cap, j);
      SameLap(cap, head + j, head + |items|);
    }
  }

  lemma LaidPop<T>(seqs: seq<nat>, data: seq<T>, head: nat, items: seq<T>, cap: nat)
    requires Laid(seqs, data, head, items, cap) && items != []
    ensures var i := SlotOf(Ideal, head, cap);
            Laid(seqs[i := head + cap], data, head + 1, items[1..], cap)
  {
    var i := SlotOf(Ideal, head, cap);
    NeighbourSlots(head, cap);
    var seqs', head', items' := seqs[i := head + cap], head + 1, items[1..];
    forall j | 0 <= j < cap ensures Holds(seqs', data, head', items', cap, j) {
      assert head + 1 + j == head + (j + 1);
      if j + 1 < cap {
        assert Holds(seqs, data, head, items, cap, j + 1);
        SameLap(cap, head, head + (j + 1));
      }
    }
  }

  class Queue<T(0)> {
    const capacityMask: nat
    const sequence: array<nat>
    const data: array<T>
    var enqueuePos: nat
    var dequeuePos: nat

    ghost var Items: seq<T>  // the values pushed and not yet popped, oldest first
    ghost var head: nat      // how many values were ever popped, not reduced modulo 2^64
    ghost var seqs: seq<nat> // the sequence numbers, not reduced modulo 2^64
    ghost const k: nat       // the capacity is 2^k

    ghost predicate Valid()
      reads this, sequence, data
    {
      && 1 <= k <= 61 && capacityMask + 1 == Pow2(k)
      && sequence as object != data
      && dequeuePos == head % WORD && enqueuePos == (head + |Items|) % WORD
      && sequence.Length == |seqs| == capacityMask + 1
      && (forall i :: 0 <= i < |seqs| ==> sequence[i] == seqs[i] % WORD)
      && Laid(seqs, data[..], head, Items, capacityMask + 1)
    }

    /** Any capacity is accepted; the queue is usable for a power of two from 2 to 2^61. */
    constructor (capacity: nat, ghost k: nat)
      requires capacity < WORD
      ensures fresh(sequence) && fresh(data) && sequence.Length == data.Length == capacity && this.k == k
      ensures enqueuePos == dequeuePos == 0 && forall i :: 0 <= i < capacity ==> sequence[i] == i
      ensures 1 <= k <= 61 && capacity == Pow2(k) ==> Valid() && Items == []
    {
      capacityMask := (capacity - 1) % WORD;
      sequence := new nat[capacity];
      data := new T[capacity];
      enqueuePos, dequeuePos := 0, 0;
      this.k := k;
      Items, head := [], 0;
      new;
      for i := 0 to capacity
        invariant Items == [] && head == enqueuePos == dequeuePos == 0
        invariant forall j :: 0 <= j < i ==> sequence[j] == j
      {
        sequence[i] := i;
      }
      seqs := Tickets(capacity);
      if 1 <= k <= 61 && capacity == Pow2(k) {
        CapacityRange(k);
        DivModUnique(capacity - 1, 0, capacity - 1, WORD);
        EmptyIsLaid(data[..], capacity);
      }
    }

    /** A masked 64-bit position finds the slot of its ticket. */
    lemma MaskedSlot(pos: nat)
      requires 1 <= k <= 61 && capacityMask + 1 == Pow2(k)
      ensures SlotOf(Bits64, pos % WORD, capacityMask + 1) == SlotOf(Ideal, pos, capacityMask + 1)
      ensures 2 <= capacityMask + 1 <= MAX_LAG
    {
      NarrowSlot(pos, k);
      CapacityRange(k);
    }

    /** push; `spurious` is how often the weak compare-exchange fails although the counter is unchanged. */
    method Push(x: T, spurious: nat) returns (ok: bool)
      requires Valid()
      modifies this, sequence, data
      ensures Valid()
      ensures ok == (|old(Items)| < capacityMask + 1)
      ensures Items == if ok then old(Items) + [x] else old(Items)
      ensures !ok ==> unchanged(this) && unchanged(sequence) && unchanged(data)
    {
      var pos := enqueuePos;
      var weak := spurious;
      while true
        invariant Valid() && pos == enqueuePos && unchanged(this) && unchanged(sequence) && unchanged(data)
        decreases weak
      {
        MaskedSlot(head + |Items|);
        var i := SlotOf(Bits64, pos, capacityMask + 1);
        var seqNo := sequence[i];
        var diff := Diff(Bits64, seqNo, pos);
        PushSees(seqs, data[..], head, Items, capacityMask + 1);
        if diff == 0 {
          if weak > 0 {
            pos, weak := enqueuePos, weak - 1;
          } else {
            ghost var tail := head + |Items|;
            assert (pos + 1) % WORD == (tail + 1) % WORD by { NarrowAdd(tail, 1); }
            enqueuePos := (pos + 1) % WORD;
            data[i] := x;
            sequence[i] := (pos + 1) % WORD;
            LaidPush(seqs, old(data[..]), head, Items, capacityMask + 1, x);
            assert data[..] == old(data[..])[i := x];
            seqs := seqs[i := tail + 1];
            Items := Items + [x];
            return true;
          }
        } else if diff < 0 {
          return false;
        } else {
          assert false;
          pos := enqueuePos;
        }
      }
    }

    /** pop; the out-parameter is left as it was when the queue refuses. */
    method Pop(initial: T, spurious: nat) returns (ok: bool, x: T)
      requires Valid()
      modifies this, sequence, data
      ensures Valid()
      ensures ok == (old(Items) != [])
      ensures ok ==> x == old(Items)[0] && Items == old(Items)[1..]
      ensures !ok ==> x == initial && unchanged(this) && unchanged(sequence) && unchanged(data)
    {
      x := initial;
      var pos := dequeuePos;
      var weak := spurious;
      while true
        invariant Valid() && pos == dequeuePos && x == initial
        invariant unchanged(this) && unchanged(sequence) && unchanged(data)
        decreases weak
      {
        MaskedSlot(head);
        var i := SlotOf(Bits64, pos, capacityMask + 1);
        var seqNo := sequence[i];
        var diff := Diff(Bits64, seqNo, (pos + 1) % WORD);
        PopSees(seqs, data[..], head, Items, capacityMask + 1);
        if diff == 0 {
          if weak > 0 {
            pos, weak := dequeuePos, weak - 1;
          } else {
            assert (pos + 1) % WORD == (head + 1) % WORD by { NarrowAdd(head, 1); }
            assert (pos + capacityMask + 1) % WORD == (head + (capacityMask + 1)) % WORD by {
              NarrowAdd(head, capacityMask + 1);
            }
            dequeuePos := (pos + 1) % WORD;
            x := data[i];
            sequence[i] := (pos + capacityMask + 1) % WORD;
            LaidPop(seqs, data[..], head, Items, capacityMask + 1);
            seqs := seqs[i := head + (capacityMask + 1)];
            head, Items := head + 1, Items[1..];
            return true, x;
          }
        } else if diff < 0 {
          return false, x;
        } else {
          assert false;
          pos := dequeuePos;
        }
      }
    }
  }

  lemma CapacityRange(k: nat)
    requires 1 <= k <= 61
    ensures 2 <= Pow2(k) <= MAX_LAG
  {
    Pow2Values();
    Pow2Monotone(k, 61);
    Pow2Monotone(1, k);
  }

  /** The difference that push computes: 0 when there is room, negative when full. */
  lemma PushSees<T>(seqs: seq<nat>, data: seq<T>, head: nat, items: seq<T>, cap: nat)
    requires cap <= MAX_LAG && Laid(seqs, data, head, items, cap)
    ensures var n := head + |items|;
            Diff(Bits64, seqs[SlotOf(Ideal, n, cap)] % WORD, n % WORD) == if |items| < cap then 0 else 1 - cap
  {
    var n := head + |items|;
    if |items| < cap {
      assert Holds(seqs, data, head, items, cap, |items|);
      NarrowDiff(n, n);
    } else {
      NeighbourSlots(head, cap);
      assert head + 0 == head && Holds(seqs, data, head, items, cap, 0);
      NarrowDiff(head + 1, n);
    }
  }

  /** The difference that pop computes: 0 when there is a value, negative when empty. */
  lemma PopSees<T>(seqs: seq<nat>, data: seq<T>, head: nat, items: seq<T>, cap: nat)
    requires Laid(seqs, data, head, items, cap)
    ensures Diff(Bits64, seqs[SlotOf(Ideal, head, cap)] % WORD, (head % WORD + 1) % WORD)
            == if items == [] then -1 else 0
    ensures items != [] ==> data[SlotOf(Ideal, head, cap)] == items[0]
  {
    NarrowAdd(head, 1);
    assert head + 0 == head && Holds(seqs, data, head, items, cap, 0);
    NarrowDiff(if items == [] then head else head + 1, head + 1);
  }
}

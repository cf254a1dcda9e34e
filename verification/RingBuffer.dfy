/** The history ring buffer, and what it shows after any run of additions, updates and clears. */
module RingBuffer {
  import opened Words

  /** The last n items of s, or all of them when there are fewer. */
  function LastN<T>(s: seq<T>, n: nat): seq<T> {
    if |s| <= n then s else s[|s| - n..]
  }

  /** Each of them is as far from the end as it was in s. */
  lemma LastNItems<T>(s: seq<T>, n: nat)
    ensures |LastN(s, n)| == Min(|s|, n)
    ensures forall i :: 0 <= i < |LastN(s, n)| ==> LastN(s, n)[i] == s[|s| - |LastN(s, n)| + i]
  {
  }

  function Mapped<T>(s: seq<T>, f: T -> T): (r: seq<T>)
    ensures |r| == |s| && forall i :: 0 <= i < |s| ==> r[i] == f(s[i])
  {
    seq(|s|, i requires 0 <= i < |s| => f(s[i]))
  }

  function Reversed<T>(s: seq<T>): (r: seq<T>)
    ensures |r| == |s| && forall i :: 0 <= i < |s| ==> r[i] == s[|s| - 1 - i]
  {
    seq(|s|, i requires 0 <= i < |s| => s[|s| - 1 - i])
  }

  class Ring<T(0)> {
    const data: array<T>
    const size: nat
    var head: nat
    var count: nat
    ghost var Items: seq<T>  // the live items, oldest first

    /** Where the i-th oldest live item is: from the start until the buffer is full, then from the head on. */
    ghost function Place(i: nat): nat
      requires size > 0
      reads this
    {
      if count < size then i else if head + i < size then head + i else head + i - size
    }

    ghost predicate Valid()
      reads this, data
    {
      && size == data.Length > 0 && head < size && count <= size && |Items| == count
      && (count < size ==> head == count)
      && (forall i :: 0 <= i < count ==> 0 <= Place(i) < size && data[Place(i)] == Items[i])
    }

    constructor (size: nat)
      requires size > 0
      ensures Valid() && Items == [] && this.size == size && fresh(data)
    {
      data := new T[size];
      this.size := size;
      head, count, Items := 0, 0, [];
    }

    method Add(p: T)
      requires Valid()
      modifies this, data
      ensures Valid() && Items == LastN(old(Items) + [p], size)
    {
      ModWrap(head + 1, size);
      data[head] := p;
      head := (head + 1) % size;
      if count < size {
        count := count + 1;
      }
      Items := LastN(Items + [p], size);
    }

    method Clear()
      requires Valid()
      modifies this
      ensures Valid() && Items == []
    {
      head, count, Items := 0, 0, [];
    }

    /** Where the i-th item of the answer is. */
    method Index(reversed: bool, i: nat) returns (idx: nat)
      requires i < count <= size && head < size && (count < size ==> head == count)
      ensures idx == Place(if reversed then count - 1 - i else i)
    {
      if reversed {
        ModWrap(head - 1 - i + size, size);
        idx := (head - 1 - i + size) % size;
      } else {
        var start := 0;
        if count == size {
          start := head;
        }
        ModWrap(start + i, size);
        idx := (start + i) % size;
      }
    }

    method GetAll(reversed: bool) returns (res: array<T>)
      requires Valid()
      ensures fresh(res) && res[..] == if reversed then Reversed(Items) else Items
    {
      ghost var want := if reversed then Reversed(Items) else Items;
      res := new T[count];
      for i := 0 to count
        invariant fresh(res) && Valid()
        invariant forall j :: 0 <= j < i ==> res[j] == want[j]
      {
        var idx := Index(reversed, i);
        assert data[idx] == want[i];
        res[i] := data[idx];
      }
      assert res[..] == want;
    }

    method Update(updater: T -> T)
      requires Valid()
      modifies this`Items, data
      ensures Valid() && Items == Mapped(old(Items), updater)
    {
      for i := 0 to count
        invariant Items == old(Items)
        invariant forall j :: 0 <= j < size ==> data[j] == if j < i then updater(old(data[j])) else old(data[j])
      {
        data[i] := updater(data[i]);
      }
      Items := Mapped(Items, updater);
    }
  }

  // ----- Whole runs -----

  datatype Op<!T> = Add(item: T) | Clear | Update(updater: T -> T)

  /** One operation on the live items of a ring of the given size. */
  function Apply<T>(size: nat, items: seq<T>, op: Op<T>): seq<T> {
    match op
    case Add(p) => LastN(items + [p], size)
    case Clear => []
    case Update(f) => Mapped(items, f)
  }

  function Run<T>(size: nat, items: seq<T>, ops: seq<Op<T>>): seq<T>
    decreases |ops|
  {
    if ops == [] then items else Run(size, Apply(size, items, ops[0]), ops[1..])
  }

  /** Everything added since the last clear, each with the updates that came after it, never dropped. */
  function Everything<T>(items: seq<T>, ops: seq<Op<T>>): seq<T>
    decreases |ops|
  {
    if ops == [] then items
    else
      var next := match ops[0]
        case Add(p) => items + [p]
        case Clear => []
        case Update(f) => Mapped(items, f);
      Everything(next, ops[1..])
  }

  /** The ring shows the last `size` items added since the last clear, updated alike. */
  lemma {:induction false} ShowsTheLast<T>(size: nat, all: seq<T>, ops: seq<Op<T>>)
    requires size > 0
    ensures Run(size, LastN(all, size), ops) == LastN(Everything(all, ops), size)
    decreases |ops|
  {
    if ops != [] {
      match ops[0]
      case Add(p) =>
        assert LastN(LastN(all, size) + [p], size) == LastN(all + [p], size);
        ShowsTheLast(size, all + [p], ops[1..]);
      case Clear =>
        ShowsTheLast<T>(size, [], ops[1..]);
      case Update(f) =>
        assert Mapped(LastN(all, size), f) == LastN(Mapped(all, f), size);
        ShowsTheLast(size, Mapped(all, f), ops[1..]);
    }
  }

  // ----- The same by positions, counted from the newest item -----

  function AddedBy<T>(op: Op<T>): nat {
    if op.Add? then 1 else 0
  }

  function Added<T>(ops: seq<Op<T>>): nat
    decreases |ops|
  {
    if ops == [] then 0 else AddedBy(ops[0]) + Added(ops[1..])
  }

  predicate NoClear<T>(ops: seq<Op<T>>)
    decreases |ops|
  {
    ops != [] ==> !ops[0].Clear? && NoClear(ops[1..])
  }

  function UpdatedBy<T>(x: T, op: Op<T>): T {
    if op.Update? then op.updater(x) else x
  }

  /** What these updates, one after the other, make of an item. */
  function Updated<T>(x: T, ops: seq<Op<T>>): T
    decreases |ops|
  {
    if ops == [] then x else Updated(UpdatedBy(x, ops[0]), ops[1..])
  }

  lemma {:induction false} RunInTwo<T>(size: nat, items: seq<T>, a: seq<Op<T>>, b: seq<Op<T>>)
    ensures Run(size, items, a + b) == Run(size, Run(size, items, a), b)
    decreases |a|
  {
    if a == [] {
      assert a + b == b;
    } else {
      assert (a + b)[1..] == a[1..] + b;
      RunInTwo(size, Apply(size, items, a[0]), a[1..], b);
    }
  }

  lemma RunThrough<T>(size: nat, items: seq<T>, before: seq<Op<T>>, op: Op<T>, after: seq<Op<T>>)
    ensures Run(size, items, before + ([op] + after)) == Run(size, Apply(size, Run(size, items, before), op), after)
  {
    RunInTwo(size, items, before, [op] + after);
    assert ([op] + after)[1..] == after;
  }

  /** x is an item, and k items are newer. */
  ghost predicate Nth<T>(items: seq<T>, k: nat, x: T) {
    k < |items| && items[|items| - 1 - k] == x
  }

  lemma NthAfterAdd<T>(size: nat, items: seq<T>, k: nat, x: T, p: T)
    requires Nth(items, k, x) && |items| <= size && k + 1 < size
    ensures |LastN(items + [p], size)| <= size && Nth(LastN(items + [p], size), k + 1, x)
  {
    LastNItems(items + [p], size);
  }

  lemma NewestAfterAdd<T>(size: nat, items: seq<T>, p: T)
    requires size > 0
    ensures |LastN(items + [p], size)| <= size && Nth(LastN(items + [p], size), 0, p)
  {
    LastNItems(items + [p], size);
  }

  lemma NthMapped<T>(items: seq<T>, k: nat, x: T, f: T -> T)
    requires Nth(items, k, x)
    ensures |Mapped(items, f)| == |items| && Nth(Mapped(items, f), k, f(x))
  {
  }

  lemma NthAfterOne<T>(size: nat, items: seq<T>, k: nat, x: T, op: Op<T>)
    requires Nth(items, k, x) && |items| <= size && !op.Clear? && k + AddedBy(op) < size
    ensures |Apply(size, items, op)| <= size && Nth(Apply(size, items, op), k + AddedBy(op), UpdatedBy(x, op))
  {
    match op
    case Add(p) => NthAfterAdd(size, items, k, x, p);
    case Update(f) => NthMapped(items, k, x, f);
  }

  /** The item that has k newer ones stays while fewer than `size` are newer. */
  lemma {:induction false} StaysShown<T>(size: nat, items: seq<T>, k: nat, x: T, ops: seq<Op<T>>)
    requires Nth(items, k, x) && |items| <= size && NoClear(ops) && k + Added(ops) < size
    ensures |Run(size, items, ops)| <= size && Nth(Run(size, items, ops), k + Added(ops), Updated(x, ops))
    decreases |ops|
  {
    if ops != [] {
      NthAfterOne(size, items, k, x, ops[0]);
      StaysShown(size, Apply(size, items, ops[0]), k + AddedBy(ops[0]), UpdatedBy(x, ops[0]), ops[1..]);
    }
  }

  lemma {:induction false} SizeKept<T>(size: nat, items: seq<T>, ops: seq<Op<T>>)
    requires |items| <= size
    ensures |Run(size, items, ops)| <= size
    ensures NoClear(ops) ==> |Run(size, items, ops)| == Min(|items| + Added(ops), size)
    decreases |ops|
  {
    if ops != [] {
      SizeKept(size, Apply(size, items, ops[0]), ops[1..]);
    }
  }

  /** In any run, whatever came before: an item after which j more were added, fewer than `size`, and none cleared, is
      the one with j newer ones in the ring, with the updates that came after it. */
  lemma AddedIsShown<T>(size: nat, items: seq<T>, before: seq<Op<T>>, x: T, after: seq<Op<T>>)
    requires |items| <= size && NoClear(after) && Added(after) < size
    ensures Nth(Run(size, items, before + ([Add(x)] + after)), Added(after), Updated(x, after))
  {
    var middle := Run(size, items, before);
    RunThrough(size, items, before, Add(x), after);
    NewestAfterAdd(size, middle, x);
    StaysShown(size, LastN(middle + [x], size), 0, x, after);
  }

  /** Since a clear, or the start, the ring has as many items as were added, and at most `size`. */
  lemma ShownSinceClear<T>(size: nat, items: seq<T>, before: seq<Op<T>>, after: seq<Op<T>>)
    requires NoClear(after)
    ensures |Run(size, items, before + ([Clear] + after))| == Min(Added(after), size)
    ensures |Run(size, [], after)| == Min(Added(after), size)
  {
    RunThrough(size, items, before, Clear, after);
    SizeKept<T>(size, [], after);
  }

  /** Runs operations on the ring itself. */
  method Play<T(0)>(ring: Ring<T>, ops: seq<Op<T>>)
    requires ring.Valid()
    modifies ring, ring.data
    ensures ring.Valid() && ring.Items == Run(ring.size, old(ring.Items), ops)
  {
    for i := 0 to |ops|
      invariant ring.Valid()
      invariant Run(ring.size, old(ring.Items), ops) == Run(ring.size, ring.Items, ops[i..])
    {
      match ops[i] {
        case Add(p) => ring.Add(p);
        case Clear => ring.Clear();
        case Update(f) => ring.Update(f);
      }
      assert ops[i..][1..] == ops[i + 1..];
    }
  }
}

/**
 What the address cache does, on its list of entries, most recent first. Beside it stands a reference
 that knows nothing of lists: a map whose cells carry the time of their last use, and which drops the
 cell used longest ago. The two are proved to agree on every trace, and the cache is compared with a
 larger one on the same trace.
 */
module LruSpec {
  import opened Sequences
  import opened Words

  datatype Entry<K, V> = Entry(key: K, value: V)

  datatype Op<K, V> =
    | Get(key: K)
    | Add(key: K, value: V)
    | Remove(key: K)
    | Load(entries: seq<Entry<K, V>>)

  ghost predicate Distinct<K, V>(s: seq<Entry<K, V>>) {
    forall i, j :: 0 <= i < j < |s| ==> s[i].key != s[j].key
  }

  function Find<K(==), V>(s: seq<Entry<K, V>>, k: K): Option<V> {
    if s == [] then None
    else if s[0].key == k then Some(s[0].value)
    else Find(s[1..], k)
  }

  function Without<K(==), V>(s: seq<Entry<K, V>>, k: K): seq<Entry<K, V>> {
    if s == [] then []
    else if s[0].key == k then Without(s[1..], k)
    else [s[0]] + Without(s[1..], k)
  }

  /** Drops the last entry of a list that has no room for another. */
  function Trim<K, V>(capacity: int, s: seq<Entry<K, V>>): seq<Entry<K, V>> {
    if |s| >= capacity && s != [] then s[..|s| - 1] else s
  }

  function Apply<K(==), V>(capacity: int, s: seq<Entry<K, V>>, op: Op<K, V>): seq<Entry<K, V>> {
    match op
    case Get(k) =>
      var hit := Find(s, k);
      if hit.Some? then [Entry(k, hit.value)] + Without(s, k) else s
    case Add(k, v) =>
      if Find(s, k).Some? then [Entry(k, v)] + Without(s, k) else [Entry(k, v)] + Trim(capacity, s)
    case Remove(k) => Without(s, k)
    case Load(entries) => entries
  }

  function Run<K(==), V>(capacity: int, s: seq<Entry<K, V>>, ops: seq<Op<K, V>>): seq<Entry<K, V>>
    decreases |ops|
  {
    if ops == [] then s else Run(capacity, Apply(capacity, s, ops[0]), ops[1..])
  }

  /** A file holds one value per key, so what is loaded has no key twice. */
  ghost predicate LoadsDistinct<K, V>(ops: seq<Op<K, V>>) {
    forall op :: op in ops && op.Load? ==> Distinct(op.entries)
  }

  // ----- Lists of entries -----

  ghost predicate Has<K, V>(s: seq<Entry<K, V>>, k: K) {
    exists i :: 0 <= i < |s| && s[i].key == k
  }

  lemma FindHas<K, V>(s: seq<Entry<K, V>>, k: K)
    ensures Find(s, k).Some? <==> Has(s, k)
    ensures Find(s, k).Some? ==> Entry(k, Find(s, k).value) in s
  {
    if s != [] && s[0].key != k {
      FindHas(s[1..], k);
      if Has(s, k) {
        var i :| 0 <= i < |s| && s[i].key == k;
        assert s[1..][i - 1].key == k;
      }
    }
  }

  lemma {:induction false} FindAt<K, V>(s: seq<Entry<K, V>>, i: nat)
    requires Distinct(s) && i < |s|
    ensures Find(s, s[i].key) == Some(s[i].value)
  {
    if i > 0 {
      FindAt(s[1..], i - 1);
    }
  }

  lemma {:induction false} WithoutAbsent<K, V>(s: seq<Entry<K, V>>, k: K)
    requires !Has(s, k)
    ensures Without(s, k) == s
  {
    if s != [] {
      assert s[0].key != k;
      forall i | 0 <= i < |s[1..]| ensures s[1..][i].key != k {
        assert s[1..][i] == s[i + 1];
      }
      WithoutAbsent(s[1..], k);
    }
  }

  /** Removing the key of entry i leaves the others, in order. */
  lemma {:induction false} WithoutAt<K, V>(s: seq<Entry<K, V>>, i: nat)
    requires Distinct(s) && i < |s|
    ensures Without(s, s[i].key) == s[..i] + s[i + 1..]
  {
    if i == 0 {
      WithoutAbsent(s[1..], s[0].key);
    } else {
      WithoutAt(s[1..], i - 1);
      assert s[1..][..i - 1] == s[1..i] && s[1..][i..] == s[i + 1..];
    }
  }

  lemma WithoutMembers<K, V>(s: seq<Entry<K, V>>, k: K)
    ensures forall e :: e in Without(s, k) <==> e in s && e.key != k
    ensures !Has(Without(s, k), k)
  {
  }

  lemma WithoutDistinct<K, V>(s: seq<Entry<K, V>>, k: K)
    requires Distinct(s)
    ensures Distinct(Without(s, k)) && |Without(s, k)| <= |s|
    ensures Has(s, k) ==> |Without(s, k)| == |s| - 1
  {
    if Has(s, k) {
      var i :| 0 <= i < |s| && s[i].key == k;
      WithoutAt(s, i);
    } else {
      WithoutAbsent(s, k);
    }
  }

  lemma ApplyDistinct<K, V>(capacity: int, s: seq<Entry<K, V>>, op: Op<K, V>)
    requires Distinct(s) && (op.Load? ==> Distinct(op.entries))
    ensures Distinct(Apply(capacity, s, op))
  {
    if !op.Load? {
      WithoutDistinct(s, op.key);
      WithoutMembers(s, op.key);
      FindHas(s, op.key);
    }
  }

  /** The mapping that a list of entries stands for. */
  ghost function Mapping<K, V>(s: seq<Entry<K, V>>): map<K, V> {
    map e | e in s && Find(s, e.key).Some? :: e.key := Find(s, e.key).value
  }

  ghost function Keys<K, V>(s: seq<Entry<K, V>>): set<K> {
    set e | e in s :: e.key
  }

  lemma {:induction false} KeyCount<K, V>(s: seq<Entry<K, V>>)
    requires Distinct(s)
    ensures |Keys(s)| == |s|
  {
    if s != [] {
      KeyCount(s[1..]);
      assert s == [s[0]] + s[1..];
      assert Keys(s) == {s[0].key} + Keys(s[1..]);
    }
  }

  lemma MappingSize<K, V>(s: seq<Entry<K, V>>)
    requires Distinct(s)
    ensures |Mapping(s)| == |s|
  {
    KeyCount(s);
    forall k ensures k in Mapping(s) <==> k in Keys(s) {
      FindHas(s, k);
    }
    assert Mapping(s).Keys == Keys(s);
  }

  // ----- The size bound -----

  /** The number of entries the last Load brought, or the starting size when there was none. */
  function LastLoad<K, V>(size: nat, ops: seq<Op<K, V>>): nat
    decreases |ops|
  {
    if ops == [] then size else LastLoad(if ops[0].Load? then |ops[0].entries| else size, ops[1..])
  }

  lemma {:induction false} SizeBound<K, V>(capacity: int, s: seq<Entry<K, V>>, loaded: nat, ops: seq<Op<K, V>>)
    requires capacity >= 1 && Distinct(s) && LoadsDistinct(ops)
    requires |s| <= capacity || |s| <= loaded
    ensures var n := |Run(capacity, s, ops)|; n <= capacity || n <= LastLoad(loaded, ops)
    decreases |ops|
  {
    if ops != [] {
      var op := ops[0];
      assert op in ops;
      ApplyDistinct(capacity, s, op);
      if !op.Load? {
        WithoutDistinct(s, op.key);
        FindHas(s, op.key);
      }
      forall o | o in ops[1..] && o.Load? ensures Distinct(o.entries) {
        assert o in ops;
      }
      SizeBound(capacity, Apply(capacity, s, op), if op.Load? then |op.entries| else loaded, ops[1..]);
    }
  }

  // ----- The reference: least recently used by time of use -----

  datatype Cell<V> = Cell(value: V, used: nat)

  ghost predicate IsOldest<K, V>(m: map<K, Cell<V>>, k: K) {
    k in m && forall j :: j in m ==> m[k].used <= m[j].used
  }

  lemma OldestExists<K, V>(m: map<K, Cell<V>>)
    requires m != map[]
    ensures exists k :: IsOldest(m, k)
  {
    var k :| k in m;
    var rest := m - {k};
    if rest == map[] {
      forall j | j in m ensures j == k {
        assert j != k ==> j in rest;
      }
      assert IsOldest(m, k);
    } else {
      assert |rest| < |m|;
      OldestExists(rest);
      var j :| IsOldest(rest, j);
      assert forall i :: i in m ==> i == k || i in rest;
      assert IsOldest(m, if m[k].used < m[j].used then k else j);
    }
  }

  ghost function Oldest<K, V>(m: map<K, Cell<V>>): (k: K)
    requires m != map[]
    ensures IsOldest(m, k)
  {
    OldestExists(m);
    var k :| IsOldest(m, k);
    k
  }

  /** One step at time `now`, other than a Load. */
  ghost function RefApply<K, V>(capacity: int, m: map<K, Cell<V>>, now: nat, op: Op<K, V>): map<K, Cell<V>>
    requires !op.Load?
  {
    match op
    case Get(k) => if k in m then m[k := Cell(m[k].value, now)] else m
    case Add(k, v) =>
      if k in m || |m| < capacity || m == map[] then m[k := Cell(v, now)]
      else (m - {Oldest(m)})[k := Cell(v, now)]
    case Remove(k) => m - {k}
  }

  ghost predicate NoLoads<K, V>(ops: seq<Op<K, V>>) {
    forall i :: 0 <= i < |ops| ==> !ops[i].Load?
  }

  ghost function RefRun<K, V>(capacity: int, m: map<K, Cell<V>>, now: nat, ops: seq<Op<K, V>>): map<K, Cell<V>>
    requires NoLoads(ops)
    decreases |ops|
  {
    if ops == [] then m else RefRun(capacity, RefApply(capacity, m, now, ops[0]), now + 1, ops[1..])
  }

  /** The list shows the reference's cells, latest use first. */
  ghost predicate Agrees<K, V>(s: seq<Entry<K, V>>, m: map<K, Cell<V>>, now: nat) {
    && Distinct(s)
    && (forall i :: 0 <= i < |s| ==> s[i].key in m && m[s[i].key].value == s[i].value && m[s[i].key].used < now)
    && (forall k :: k in m ==> Has(s, k))
    && (forall i, j :: 0 <= i < j < |s| ==> m[s[i].key].used > m[s[j].key].used)
  }

  lemma AgreesSize<K, V>(s: seq<Entry<K, V>>, m: map<K, Cell<V>>, now: nat)
    requires Agrees(s, m, now)
    ensures |s| == |m|
  {
    assert Keys(s) == m.Keys;
    KeyCount(s);
  }

  /** The last entry of the list is the one cell that was used longest ago. */
  lemma LastIsOldest<K, V>(s: seq<Entry<K, V>>, m: map<K, Cell<V>>, now: nat)
    requires Agrees(s, m, now) && s != []
    ensures m != map[] && forall k :: IsOldest(m, k) <==> k == s[|s| - 1].key
  {
    var last := s[|s| - 1].key;
    assert last in m;
    forall j | j in m ensures j == last || m[last].used < m[j].used {
      var i :| 0 <= i < |s| && s[i].key == j;
    }
  }

  /** A key that is not listed, put in front and stamped now. */
  lemma AgreesCons<K, V>(s: seq<Entry<K, V>>, m: map<K, Cell<V>>, now: nat, k: K, v: V)
    requires Agrees(s, m, now) && k !in m
    ensures Agrees([Entry(k, v)] + s, m[k := Cell(v, now)], now + 1)
  {
    var s' := [Entry(k, v)] + s;
    forall j | j in m[k := Cell(v, now)] ensures Has(s', j) {
      if j == k {
        assert s'[0].key == k;
      } else {
        var i :| 0 <= i < |s| && s[i].key == j;
        assert s'[i + 1].key == j;
      }
    }
  }

  /** Moving key k to the front, with any value, agrees with stamping it now. */
  lemma AgreesFront<K, V>(s: seq<Entry<K, V>>, m: map<K, Cell<V>>, now: nat, k: K, v: V)
    requires Agrees(s, m, now)
    ensures Agrees([Entry(k, v)] + Without(s, k), m[k := Cell(v, now)], now + 1)
  {
    AgreesRemove(s, m, now, k);
    AgreesCons(Without(s, k), m - {k}, now, k, v);
    assert (m - {k})[k := Cell(v, now)] == m[k := Cell(v, now)];
  }

  lemma AgreesRemove<K, V>(s: seq<Entry<K, V>>, m: map<K, Cell<V>>, now: nat, k: K)
    requires Agrees(s, m, now)
    ensures Agrees(Without(s, k), m - {k}, now)
  {
    if Has(s, k) {
      var i :| 0 <= i < |s| && s[i].key == k;
      WithoutAt(s, i);
      AgreesDrop(s, m, now, i);
    } else {
      WithoutAbsent(s, k);
      assert k !in m;
      assert m - {k} == m;
    }
  }

  lemma HasAfterDrop<K, V>(s: seq<Entry<K, V>>, i: nat, k: K)
    requires i < |s| && Has(s, k) && k != s[i].key
    ensures Has(s[..i] + s[i + 1..], k)
  {
    var w := s[..i] + s[i + 1..];
    var n :| 0 <= n < |s| && s[n].key == k;
    assert w[if n < i then n else n - 1].key == k;
  }

  lemma AgreesDrop<K, V>(s: seq<Entry<K, V>>, m: map<K, Cell<V>>, now: nat, i: nat)
    requires Agrees(s, m, now) && i < |s|
    ensures Agrees(s[..i] + s[i + 1..], m - {s[i].key}, now)
  {
    var w, m' := s[..i] + s[i + 1..], m - {s[i].key};
    assert forall n :: 0 <= n < |w| ==> w[n] == s[if n < i then n else n + 1];
    forall n | 0 <= n < |w| ensures w[n].key in m' && m'[w[n].key] == m[w[n].key] {
    }
    forall j | j in m' ensures Has(w, j) {
      HasAfterDrop(s, i, j);
    }
  }

  lemma AgreesAddNew<K, V>(capacity: int, s: seq<Entry<K, V>>, m: map<K, Cell<V>>, now: nat, k: K, v: V)
    requires Agrees(s, m, now) && k !in m
    ensures Agrees([Entry(k, v)] + Trim(capacity, s), RefApply(capacity, m, now, Add(k, v)), now + 1)
  {
    AgreesSize(s, m, now);
    if |s| >= capacity && s != [] {
      LastIsOldest(s, m, now);
      var n := |s| - 1;
      assert Oldest(m) == s[n].key;
      AgreesDrop(s, m, now, n);
      assert s[..n] + s[n + 1..] == s[..n];
      AgreesFront(s[..n], m - {s[n].key}, now, k, v);
      WithoutAbsent(s[..n], k);
    } else {
      AgreesFront(s, m, now, k, v);
      WithoutAbsent(s, k);
    }
  }

  /** What a lookup finds in the list is what the reference holds. */
  lemma AgreesFind<K, V>(s: seq<Entry<K, V>>, m: map<K, Cell<V>>, now: nat, k: K)
    requires Agrees(s, m, now)
    ensures Find(s, k) == if k in m then Some(m[k].value) else None
    ensures Has(s, k) <==> k in m
  {
    FindHas(s, k);
    if Has(s, k) {
      var i :| 0 <= i < |s| && s[i].key == k;
      FindAt(s, i);
    }
  }

  lemma AgreesStep<K, V>(capacity: int, s: seq<Entry<K, V>>, m: map<K, Cell<V>>, now: nat, op: Op<K, V>)
    requires Agrees(s, m, now) && !op.Load?
    ensures Agrees(Apply(capacity, s, op), RefApply(capacity, m, now, op), now + 1)
  {
    var k := op.key;
    AgreesFind(s, m, now, k);
    match op
    case Get(_) => if k in m { AgreesFront(s, m, now, k, m[k].value); }
    case Remove(_) => AgreesRemove(s, m, now, k);
    case Add(_, v) => if k in m { AgreesFront(s, m, now, k, v); } else { AgreesAddNew(capacity, s, m, now, k, v); }
  }

  /** On every trace the list is the reference's cells ordered by last use; every lookup answers alike,
      and what Add evicts is the cell used longest ago. */
  lemma {:induction false} ListIsLeastRecentlyUsed<K, V>(
      capacity: int, s: seq<Entry<K, V>>, m: map<K, Cell<V>>, now: nat, ops: seq<Op<K, V>>, k: K)
    requires Agrees(s, m, now) && NoLoads(ops)
    ensures var s', m' := Run(capacity, s, ops), RefRun(capacity, m, now, ops);
            && Agrees(s', m', now + |ops|)
            && Find(s', k) == if k in m' then Some(m'[k].value) else None
    decreases |ops|
  {
    if ops == [] {
      AgreesFind(s, m, now, k);
    } else {
      AgreesStep(capacity, s, m, now, ops[0]);
      ListIsLeastRecentlyUsed(
        capacity, Apply(capacity, s, ops[0]), RefApply(capacity, m, now, ops[0]), now + 1, ops[1..], k);
    }
  }

  /** A trace may start from any loaded list: its order stands for some times of use. */
  ghost function Stamped<K, V>(s: seq<Entry<K, V>>): map<K, Cell<V>> {
    if s == [] then map[] else Stamped(s[1..])[s[0].key := Cell(s[0].value, |s| - 1)]
  }

  lemma {:induction false} StampedAgrees<K, V>(s: seq<Entry<K, V>>)
    requires Distinct(s)
    ensures Agrees(s, Stamped(s), |s|)
  {
    if s != [] {
      var t := s[1..];
      StampedAgrees(t);
      AgreesFront(t, Stamped(t), |t|, s[0].key, s[0].value);
      forall i | 0 <= i < |t| ensures t[i].key != s[0].key {
        assert t[i] == s[i + 1];
      }
      WithoutAbsent(t, s[0].key);
      assert [Entry(s[0].key, s[0].value)] + t == s;
    }
  }

  // ----- A larger cache on the same trace -----

  lemma {:induction false} SubWithout<K, V>(a: seq<Entry<K, V>>, b: seq<Entry<K, V>>, k: K)
    requires Sub(a, b)
    ensures Sub(Without(a, k), Without(b, k))
  {
    if a != [] {
      if a[0] == b[0] && Sub(a[1..], b[1..]) {
        SubWithout(a[1..], b[1..], k);
        if b[0].key != k {
          SubCons(b[0], Without(a[1..], k), Without(b[1..], k));
        }
      } else {
        SubWithout(a, b[1..], k);
        if b[0].key != k {
          SubSkip(b[0], Without(a, k), Without(b[1..], k));
        }
      }
    }
  }

  /** Dropping the last entry of both lists, or of the larger one when the smaller does not have it. */
  lemma {:induction false} SubTrim<K, V>(a: seq<Entry<K, V>>, b: seq<Entry<K, V>>)
    requires Sub(a, b) && Distinct(b) && b != []
    ensures a != [] ==> Sub(a[..|a| - 1], b[..|b| - 1])
    ensures a == [] || b[|b| - 1] !in a ==> Sub(a, b[..|b| - 1])
  {
    SubMembers(a, b);
    if |b| == 1 {
      assert a == [] || a[..|a| - 1] == [];
    } else if a != [] {
      var b1 := b[1..];
      assert b1[..|b1| - 1] == b[..|b| - 1][1..];
      if a[0] == b[0] && Sub(a[1..], b1) {
        SubTrim(a[1..], b1);
        if |a| > 1 {
          assert a[1..][..|a| - 2] == a[..|a| - 1][1..];
        }
        assert b[|b| - 1] !in a ==> b1[|b1| - 1] !in a[1..];
      } else {
        SubTrim(a, b1);
      }
    }
  }

  /** What holds between the caches of capacity c1 <= c2 after the same trace. */
  ghost predicate Included<K, V>(c1: nat, c2: nat, a: seq<Entry<K, V>>, b: seq<Entry<K, V>>) {
    && Sub(a, b) && Distinct(a) && Distinct(b)
    && |a| <= c1 && |b| <= c2 && |a| <= |b| && |b| - |a| <= c2 - c1
  }

  lemma IncludedFind<K, V>(c1: nat, c2: nat, a: seq<Entry<K, V>>, b: seq<Entry<K, V>>, k: K)
    requires Included(c1, c2, a, b)
    ensures Find(a, k).Some? ==> Find(b, k) == Find(a, k)
  {
    FindHas(a, k);
    if Find(a, k).Some? {
      SubMembers(a, b);
      var i :| 0 <= i < |b| && b[i] == Entry(k, Find(a, k).value);
      FindAt(b, i);
    }
  }

  lemma IncludedAddNew<K, V>(c1: nat, c2: nat, a: seq<Entry<K, V>>, b: seq<Entry<K, V>>, k: K, v: V)
    requires 1 <= c1 <= c2 && Included(c1, c2, a, b) && !Has(b, k)
    ensures Included(c1, c2, [Entry(k, v)] + Trim(c1, a), [Entry(k, v)] + Trim(c2, b))
  {
    SubMembers(a, b);
    var ta, tb := Trim(c1, a), Trim(c2, b);
    assert Sub(ta, tb) by {
      if |b| >= c2 {
        SubTrim(a, b);
      } else if |a| >= c1 {
        SubInit(a, b);
      }
    }
    SubCons(Entry(k, v), ta, tb);
    forall i | 0 <= i < |a| ensures a[i].key != k {
      assert a[i] in b;
    }
  }

  lemma SubInit<T>(a: seq<T>, b: seq<T>)
    requires Sub(a, b) && a != []
    ensures Sub(a[..|a| - 1], b)
  {
    SubDrop(a, b, |a| - 1);
    assert DropAt(a, |a| - 1) == a[..|a| - 1];
  }

  lemma IncludedStep<K, V>(c1: nat, c2: nat, a: seq<Entry<K, V>>, b: seq<Entry<K, V>>, op: Op<K, V>)
    requires 1 <= c1 <= c2 && Included(c1, c2, a, b) && !op.Load?
    ensures Included(c1, c2, Apply(c1, a, op), Apply(c2, b, op))
  {
    var k := op.key;
    FindHas(a, k);
    FindHas(b, k);
    IncludedFind(c1, c2, a, b, k);
    SubWithout(a, b, k);
    WithoutDistinct(a, k);
    WithoutDistinct(b, k);
    ApplyDistinct(c1, a, op);
    ApplyDistinct(c2, b, op);
    if Has(a, k) {
      if !op.Remove? {
        SubCons(Apply(c1, a, op)[0], Without(a, k), Without(b, k));
      }
    } else {
      WithoutAbsent(a, k);
      if !Has(b, k) {
        WithoutAbsent(b, k);
        if op.Add? {
          IncludedAddNew(c1, c2, a, b, k, op.value);
        }
      } else if op.Get? {
        SubSkip(Apply(c2, b, op)[0], a, Without(b, k));
      } else if op.Add? {
        if |a| >= c1 {
          SubInit(a, Without(b, k));
        }
        SubCons(Entry(k, op.value), Trim(c1, a), Without(b, k));
      }
    }
    SubMembers(Apply(c1, a, op), Apply(c2, b, op));
  }

  lemma {:induction false} IncludedRun<K, V>(
      c1: nat, c2: nat, a: seq<Entry<K, V>>, b: seq<Entry<K, V>>, ops: seq<Op<K, V>>)
    requires 1 <= c1 <= c2 && Included(c1, c2, a, b) && NoLoads(ops)
    ensures Included(c1, c2, Run(c1, a, ops), Run(c2, b, ops))
    decreases |ops|
  {
    if ops != [] {
      IncludedStep(c1, c2, a, b, ops[0]);
      IncludedRun(c1, c2, Apply(c1, a, ops[0]), Apply(c2, b, ops[0]), ops[1..]);
    }
  }

  /** On any trace from empty, the small cache's list is the large one's with entries left out, the sizes
      differ by at most the difference of the capacities, and a hit in the small one is the same hit in
      the large one. */
  lemma LargerCacheIncludes<K, V>(c1: nat, c2: nat, ops: seq<Op<K, V>>, k: K)
    requires 1 <= c1 <= c2 && NoLoads(ops)
    ensures var a, b := Run(c1, [], ops), Run(c2, [], ops);
            && Sub(a, b) && |a| <= |b| <= |a| + (c2 - c1)
            && (Find(a, k).Some? ==> Find(b, k) == Find(a, k))
  {
    IncludedRun<K, V>(c1, c2, [], [], ops);
    IncludedFind(c1, c2, Run<K, V>(c1, [], ops), Run<K, V>(c2, [], ops), k);
  }
}

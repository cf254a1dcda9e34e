/** The address cache on the heap: a map of keys to the elements of a doubly linked ring. */
module LruCache {
  import opened Sequences
  import opened Words
  import LruSpec

  class Element<K(0), V(0)> {
    const key: K
    var value: V
    var prev: Element?<K, V>
    var next: Element?<K, V>

    constructor Root()
    {
      prev, next := null, null;
    }

    constructor (key: K, value: V)
      ensures this.key == key && this.value == value
    {
      this.key, this.value := key, value;
      prev, next := null, null;
    }
  }

  /** A ring of elements through a root that carries no entry: root.next is the front, root.prev the back. */
  class LinkedList<K(0), V(0)> {
    const root: Element<K, V>
    var len: nat
    ghost var Nodes: seq<Element<K, V>>

    ghost function Ring(): seq<Element<K, V>>
      reads this
    {
      [root] + Nodes + [root]
    }

    ghost predicate Valid()
      reads this, root`next, root`prev, Nodes`next, Nodes`prev
    {
      && len == |Nodes| && root !in Nodes
      && (forall i, j :: 0 <= i < j < |Nodes| ==> Nodes[i] != Nodes[j])
      && (forall i :: 0 <= i <= |Nodes| ==> Linked(i))
    }

    ghost predicate Linked(i: nat)
      requires i <= |Nodes|
      reads this, root`next, root`prev, Nodes`next, Nodes`prev
    {
      Ring()[i].next == Ring()[i + 1] && Ring()[i + 1].prev == Ring()[i]
    }

    constructor ()
      ensures Valid() && Nodes == [] && fresh(root)
    {
      root := new Element.Root();
      len, Nodes := 0, [];
      new;
      root.prev, root.next := root, root;
    }

    /** The last element, or none. */
    method Back() returns (e: Element?<K, V>)
      requires Valid()
      ensures e == if Nodes == [] then null else Nodes[|Nodes| - 1]
    {
      assert Linked(|Nodes|);
      e := if len == 0 then null else root.prev;
    }

    method InsertFront(e: Element<K, V>)
      requires Valid() && e !in Nodes && e != root
      modifies this`len, this`Nodes, root`next, root`prev, Nodes`prev, e`prev, e`next
      ensures Valid() && Nodes == [e] + old(Nodes)
    {
      assert Linked(0);
      e.prev, e.next := root, root.next;
      e.prev.next := e;
      e.next.prev := e;
      len := len + 1;
      Nodes := [e] + Nodes;
      forall j | 0 <= j <= |Nodes| ensures Linked(j) {
        if j >= 2 {
          assert old(Linked(j - 1));
        }
      }
    }

    method Unlink(e: Element<K, V>, ghost i: nat)
      requires Valid() && i < |Nodes| && e == Nodes[i]
      modifies this`len, this`Nodes, root`next, root`prev, Nodes`prev, Nodes`next
      ensures Valid() && Nodes == DropAt(old(Nodes), i)
    {
      assert Linked(i) && Linked(i + 1);
      e.prev.next := e.next;
      e.next.prev := e.prev;
      len := len - 1;
      Nodes := DropAt(Nodes, i);
      forall j | 0 <= j <= |Nodes| ensures Linked(j) {
        assert old(Linked(j));
        assert old(Linked(j + 1));
      }
    }

    method MoveToFront(e: Element<K, V>, ghost i: nat)
      requires Valid() && i < |Nodes| && e == Nodes[i]
      modifies this`len, this`Nodes, root`next, root`prev, Nodes`prev, Nodes`next
      ensures Valid() && Nodes == ToFront(old(Nodes), i)
    {
      assert Linked(0);
      if root.next == e {
        assert i == 0;
        return;
      }
      Unlink(e, i);
      InsertFront(e);
    }
  }

  /** The map and the list hold the same elements, under their own keys. */
  ghost predicate Indexed<K(0), V(0)>(cache: map<K, Element<K, V>>, nodes: seq<Element<K, V>>) {
    && (forall i :: 0 <= i < |nodes| ==> nodes[i].key in cache && cache[nodes[i].key] == nodes[i])
    && (forall k :: k in cache ==> cache[k].key == k && cache[k] in nodes)
  }

  /** Element by element, the nodes carry the entries. */
  ghost predicate Carries<K(0), V(0)>(nodes: seq<Element<K, V>>, entries: seq<LruSpec.Entry<K, V>>)
    reads nodes`value
  {
    |nodes| == |entries|
    && forall i :: 0 <= i < |nodes| ==> nodes[i].key == entries[i].key && nodes[i].value == entries[i].value
  }

  ghost function IndexOf<K(0), V(0)>(nodes: seq<Element<K, V>>, e: Element<K, V>): (i: nat)
    requires e in nodes
    ensures i < |nodes| && nodes[i] == e
  {
    var i :| 0 <= i < |nodes| && nodes[i] == e;
    i
  }

  /** Moving element i to the front, and its entry likewise, keeps the map and the list in step. */
  lemma Moved<K(0), V(0)>(
      cache: map<K, Element<K, V>>, nodes: seq<Element<K, V>>, entries: seq<LruSpec.Entry<K, V>>, i: nat)
    requires i < |nodes| && Indexed(cache, nodes) && Carries(nodes, entries)
    ensures Indexed(cache, ToFront(nodes, i)) && Carries(ToFront(nodes, i), ToFront(entries, i))
  {
    forall k | k in cache ensures cache[k] in ToFront(nodes, i) {
      var j := IndexOf(nodes, cache[k]);
      assert ToFront(nodes, i)[if j < i then j + 1 else if j == i then 0 else j] == cache[k];
    }
  }

  lemma Dropped<K(0), V(0)>(
      cache: map<K, Element<K, V>>, nodes: seq<Element<K, V>>, entries: seq<LruSpec.Entry<K, V>>, i: nat)
    requires i < |nodes| && Indexed(cache, nodes) && Carries(nodes, entries)
    requires forall j, n :: 0 <= j < n < |nodes| ==> nodes[j] != nodes[n]
    ensures Indexed(cache - {nodes[i].key}, DropAt(nodes, i)) && Carries(DropAt(nodes, i), DropAt(entries, i))
  {
    var cache' := cache - {nodes[i].key};
    forall k | k in cache' ensures cache'[k] in DropAt(nodes, i) {
      var j := IndexOf(nodes, cache[k]);
      assert DropAt(nodes, i)[if j < i then j else j - 1] == cache[k];
    }
  }

  lemma Inserted<K(0), V(0)>(
      cache: map<K, Element<K, V>>, nodes: seq<Element<K, V>>, entries: seq<LruSpec.Entry<K, V>>, e: Element<K, V>)
    requires Indexed(cache, nodes) && Carries(nodes, entries) && e.key !in cache
    ensures Indexed(cache[e.key := e], [e] + nodes)
    ensures Carries([e] + nodes, [LruSpec.Entry(e.key, e.value)] + entries)
  {
  }

  class Cache<K(0, ==), V(0)> {
    const capacity: int
    const zero: V
    var cache: map<K, Element<K, V>>
    var list: LinkedList<K, V>
    ghost var Contents: seq<LruSpec.Entry<K, V>>  // most recent first

    ghost predicate Valid()
      reads this, list, list.root, list.Nodes
    {
      list.Valid() && Indexed(cache, list.Nodes) && Carries(list.Nodes, Contents)
    }

    constructor (capacity: int, zero: V)
      ensures Valid() && Contents == [] && this.capacity == capacity && this.zero == zero
      ensures fresh(list) && fresh(list.root)
    {
      this.capacity, this.zero := capacity, zero;
      cache, Contents := map[], [];
      list := new LinkedList();
    }

    method Get(key: K) returns (value: V, found: bool)
      requires Valid()
      modifies this`Contents, list`len, list`Nodes
      modifies list.root`next, list.root`prev, list.Nodes`prev, list.Nodes`next
      ensures Valid()
      ensures forall n :: n in list.Nodes ==> n in old(list.Nodes)
      ensures Contents == LruSpec.Apply(capacity, old(Contents), LruSpec.Get(key))
      ensures var hit := LruSpec.Find(old(Contents), key);
              found == hit.Some? && value == if hit.Some? then hit.value else zero
    {
      LookupFinds(key);
      if key in cache {
        var element := cache[key];
        Promote(element);
        return element.value, true;
      }
      return zero, false;
    }

    /** Moves a cached element to the front. */
    method Promote(element: Element<K, V>)
      requires Valid() && element in list.Nodes
      modifies this`Contents, list`len, list`Nodes
      modifies list.root`next, list.root`prev, list.Nodes`prev, list.Nodes`next
      ensures Valid()
      ensures var i := IndexOf(old(list.Nodes), element);
              && list.Nodes == ToFront(old(list.Nodes), i) && Contents == ToFront(old(Contents), i)
              && Contents[1..] == DropAt(old(Contents), i)
      ensures forall n :: n in list.Nodes ==> n in old(list.Nodes)
    {
      ghost var i := IndexOf(list.Nodes, element);
      Contents := ToFront(Contents, i);
      list.MoveToFront(element, i);
      Moved(cache, old(list.Nodes), old(Contents), i);
    }

    /** Gives the front element another value. */
    method Overwrite(element: Element<K, V>, value: V)
      requires Valid() && list.Nodes != [] && element == list.Nodes[0]
      modifies this`Contents, element`value
      ensures Valid() && list.Nodes == old(list.Nodes)
      ensures Contents == [LruSpec.Entry(element.key, value)] + old(Contents)[1..]
    {
      Contents := [LruSpec.Entry(element.key, value)] + Contents[1..];
      element.value := value;
    }

    method Add(key: K, value: V)
      requires Valid()
      modifies this`cache, this`Contents, list`len, list`Nodes
      modifies list.root`next, list.root`prev, list.Nodes`prev, list.Nodes`next, list.Nodes`value
      ensures Valid() && list == old(list)
      ensures forall n :: n in list.Nodes ==> n in old(list.Nodes) || fresh(n)
      ensures Contents == LruSpec.Apply(capacity, old(Contents), LruSpec.Add(key, value))
    {
      LookupFinds(key);
      if key in cache {
        Replace(key, value);
      } else {
        Insert(key, value);
      }
    }

    /** Add for a cached key: its element moves to the front and gets the value. */
    method Replace(key: K, value: V)
      requires Valid() && key in cache
      modifies this`Contents, list`len, list`Nodes
      modifies list.root`next, list.root`prev, list.Nodes`prev, list.Nodes`next, list.Nodes`value
      ensures Valid()
      ensures forall n :: n in list.Nodes ==> n in old(list.Nodes)
      ensures Contents == [LruSpec.Entry(key, value)] + LruSpec.Without(old(Contents), key)
    {
      LookupFinds(key);
      var element := cache[key];
      Promote(element);
      Overwrite(element, value);
    }

    /** Add for a new key: the oldest entry makes room if there is none. */
    method Insert(key: K, value: V)
      requires Valid() && key !in cache
      modifies this`cache, this`Contents, list`len, list`Nodes
      modifies list.root`next, list.root`prev, list.Nodes`prev, list.Nodes`next
      ensures Valid()
      ensures forall n :: n in list.Nodes ==> n in old(list.Nodes) || fresh(n)
      ensures Contents == [LruSpec.Entry(key, value)] + LruSpec.Trim(capacity, old(Contents))
    {
      if list.len >= capacity {
        EvictOldest();
      }
      PushFront(key, value);
    }

    /** Puts a new element in front, in the list and in the map. */
    method PushFront(key: K, value: V)
      requires Valid() && key !in cache
      modifies this`cache, this`Contents, list`len, list`Nodes
      modifies list.root`next, list.root`prev, list.Nodes`prev, list.Nodes`next
      ensures Valid() && Contents == [LruSpec.Entry(key, value)] + old(Contents)
      ensures |list.Nodes| > 0 && fresh(list.Nodes[0]) && list.Nodes[0].value == value
      ensures list.Nodes[1..] == old(list.Nodes) && cache == old(cache)[key := list.Nodes[0]]
    {
      var element := new Element(key, value);
      list.InsertFront(element);
      assert list.Nodes == [element] + old(list.Nodes);
      Inserted(cache, old(list.Nodes), Contents, element);
      Contents := [LruSpec.Entry(key, value)] + Contents;
      cache := cache[key := element];
    }

    /** Makes room: drops the last element, if there is one, from the list and the map. */
    method EvictOldest()
      requires Valid()
      modifies this`cache, this`Contents, list`len, list`Nodes
      modifies list.root`next, list.root`prev, list.Nodes`prev, list.Nodes`next
      ensures Valid() && cache.Keys <= old(cache.Keys)
      ensures forall n :: n in list.Nodes ==> n in old(list.Nodes)
      ensures old(Contents) == [] ==> Contents == []
      ensures old(Contents) != [] ==> Contents == old(Contents)[..|old(Contents)| - 1]
    {
      var oldest := list.Back();
      if oldest != null {
        ghost var i := |list.Nodes| - 1;
        Dropped(cache, list.Nodes, Contents, i);
        Contents := DropAt(Contents, i);
        cache := cache - {oldest.key};
        list.Unlink(oldest, i);
      }
    }

    method Remove(key: K)
      requires Valid()
      modifies this`cache, this`Contents, list`len, list`Nodes
      modifies list.root`next, list.root`prev, list.Nodes`prev, list.Nodes`next
      ensures Valid()
      ensures forall n :: n in list.Nodes ==> n in old(list.Nodes)
      ensures Contents == LruSpec.Apply(capacity, old(Contents), LruSpec.Remove(key))
    {
      LookupFinds(key);
      if key in cache {
        var element := cache[key];
        ghost var i := IndexOf(list.Nodes, element);
        Dropped(cache, list.Nodes, Contents, i);
        Contents := DropAt(Contents, i);
        cache := cache - {key};
        list.Unlink(element, i);
      }
    }

    /** A copy of the mapping, built by going through the map in any order. */
    method GetAll() returns (all: map<K, V>)
      requires Valid()
      ensures all == LruSpec.Mapping(Contents)
    {
      all := map[];
      var todo := cache.Keys;
      while todo != {}
        invariant todo <= cache.Keys && all.Keys == cache.Keys - todo
        invariant forall k :: k in all ==> all[k] == cache[k].value
      {
        var k :| k in todo;
        var element := cache[k];
        all := all[element.key := element.value];
        todo := todo - {k};
      }
      MapShows();
    }

    /** Starts over with the given mapping, put in in any order and whatever the capacity. */
    method Load(data: map<K, V>)
      requires Valid()
      modifies this`cache, this`Contents, this`list
      ensures Valid() && fresh(list) && fresh(list.root) && forall n :: n in list.Nodes ==> fresh(n)
      ensures LruSpec.Distinct(Contents) && LruSpec.Mapping(Contents) == data && |Contents| == |data|
    {
      cache, Contents := map[], [];
      list := new LinkedList();
      var todo := data.Keys;
      while todo != {}
        invariant Valid() && fresh(list) && fresh(list.root) && forall n :: n in list.Nodes ==> fresh(n)
        invariant todo <= data.Keys && cache.Keys == data.Keys - todo
        invariant forall k :: k in cache ==> cache[k].value == data[k]
        decreases todo
      {
        var k :| k in todo;
        PushFront(k, data[k]);
        todo := todo - {k};
      }
      assert (map k | k in cache :: cache[k].value) == data;
      MapShows();
    }

    lemma MapShows()
      requires Valid()
      ensures LruSpec.Distinct(Contents)
      ensures LruSpec.Mapping(Contents) == map k | k in cache :: cache[k].value
      ensures |Contents| == |LruSpec.Mapping(Contents)|
    {
      forall k ensures k in cache <==> k in LruSpec.Mapping(Contents) {
        LookupFinds(k);
        LruSpec.FindHas(Contents, k);
      }
      forall k | k in cache ensures cache[k].value == LruSpec.Mapping(Contents)[k] {
        LookupFinds(k);
      }
      LruSpec.MappingSize(Contents);
    }

    /** The map finds a key exactly when the list of entries does, with the same value. */
    lemma LookupFinds(key: K)
      requires Valid()
      ensures LruSpec.Distinct(Contents)
      ensures key !in cache ==> LruSpec.Find(Contents, key) == None && LruSpec.Without(Contents, key) == Contents
      ensures key in cache ==>
        var i := IndexOf(list.Nodes, cache[key]);
        && LruSpec.Find(Contents, key) == Some(cache[key].value)
        && LruSpec.Without(Contents, key) == DropAt(Contents, i)
    {
      LruSpec.FindHas(Contents, key);
      if key in cache {
        var i := IndexOf(list.Nodes, cache[key]);
        LruSpec.FindAt(Contents, i);
        LruSpec.WithoutAt(Contents, i);
      } else {
        LruSpec.WithoutAbsent(Contents, key);
      }
    }
  }

  /** Any trace on the heap is the trace of the specification. */
  method Play<K(0, ==), V(0)>(c: Cache<K, V>, ops: seq<LruSpec.Op<K, V>>)
    requires c.Valid() && LruSpec.NoLoads(ops)
    modifies c`cache, c`Contents, c.list`len, c.list`Nodes, c.list.root`next, c.list.root`prev
    modifies c.list.Nodes`prev, c.list.Nodes`next, c.list.Nodes`value
    ensures c.Valid() && c.Contents == LruSpec.Run(c.capacity, old(c.Contents), ops)
  {
    var i := 0;
    while i < |ops|
      invariant i <= |ops| && c.Valid()
      invariant forall n :: n in c.list.Nodes ==> n in old(c.list.Nodes) || fresh(n)
      invariant LruSpec.Run(c.capacity, old(c.Contents), ops) == LruSpec.Run(c.capacity, c.Contents, ops[i..])
    {
      PlayOne(c, ops[i]);
      assert ops[i..][1..] == ops[i + 1..];
      i := i + 1;
    }
  }

  method PlayOne<K(0, ==), V(0)>(c: Cache<K, V>, op: LruSpec.Op<K, V>)
    requires c.Valid() && !op.Load?
    modifies c`cache, c`Contents, c.list`len, c.list`Nodes, c.list.root`next, c.list.root`prev
    modifies c.list.Nodes`prev, c.list.Nodes`next, c.list.Nodes`value
    ensures c.Valid() && c.Contents == LruSpec.Apply(c.capacity, old(c.Contents), op)
    ensures forall n :: n in c.list.Nodes ==> n in old(c.list.Nodes) || fresh(n)
  {
    match op
    case Get(key) => var _, _ := c.Get(key);
    case Add(key, value) => c.Add(key, value);
    case Remove(key) => c.Remove(key);
  }

  /** What GetAll saves, Load restores, into any cache. */
  method SaveAndRestore<K(0, ==), V(0)>(from: Cache<K, V>, to: Cache<K, V>)
    requires from.Valid() && to.Valid() && from != to
    modifies to`cache, to`Contents, to`list
    ensures to.Valid() && LruSpec.Mapping(to.Contents) == LruSpec.Mapping(old(from.Contents))
  {
    var saved := from.GetAll();
    to.Load(saved);
  }
}

/** Subsequences, and moving elements inside a sequence. */
module Sequences {

  /** a is b with some elements left out, in the same order. */
  ghost predicate Sub<T>(a: seq<T>, b: seq<T>) {
    a == [] || (b != [] && ((a[0] == b[0] && Sub(a[1..], b[1..])) || Sub(a, b[1..])))
  }

  lemma {:induction false} SubMembers<T>(a: seq<T>, b: seq<T>)
    requires Sub(a, b)
    ensures |a| <= |b| && forall e :: e in a ==> e in b
  {
    if a != [] {
      assert a == [a[0]] + a[1..] && b == [b[0]] + b[1..];
      if a[0] == b[0] && Sub(a[1..], b[1..]) {
        SubMembers(a[1..], b[1..]);
      } else {
        SubMembers(a, b[1..]);
      }
    }
  }

  lemma SubCons<T>(e: T, a: seq<T>, b: seq<T>)
    requires Sub(a, b)
    ensures Sub([e] + a, [e] + b)
  {
    assert ([e] + a)[1..] == a && ([e] + b)[1..] == b;
  }

  lemma SubSkip<T>(e: T, a: seq<T>, b: seq<T>)
    requires Sub(a, b)
    ensures Sub(a, [e] + b)
  {
    assert ([e] + b)[1..] == b;
  }

  /** Both may be followed by the same element, or the larger alone by another. */
  lemma {:induction false} SubSnoc<T>(a: seq<T>, b: seq<T>, e: T)
    requires Sub(a, b)
    ensures Sub(a + [e], b + [e]) && Sub(a, b + [e])
  {
    if b == [] {
      assert Sub<T>([], []) && [e][1..] == [];
    } else {
      assert (b + [e])[1..] == b[1..] + [e];
      if a == [] {
        SubSnoc([], b[1..], e);
      } else {
        assert (a + [e])[1..] == a[1..] + [e];
        if a[0] == b[0] && Sub(a[1..], b[1..]) {
          SubSnoc(a[1..], b[1..], e);
        } else {
          SubSnoc(a, b[1..], e);
        }
      }
    }
  }

  function DropAt<T>(s: seq<T>, i: nat): (r: seq<T>)
    requires i < |s|
    ensures |r| == |s| - 1
    ensures forall j :: 0 <= j < |r| ==> r[j] == s[if j < i then j else j + 1]
  {
    s[..i] + s[i + 1..]
  }

  function ToFront<T>(s: seq<T>, i: nat): (r: seq<T>)
    requires i < |s|
    ensures |r| == |s| && r[0] == s[i]
    ensures forall j :: 0 < j < |r| ==> r[j] == s[if j <= i then j - 1 else j]
  {
    [s[i]] + DropAt(s, i)
  }

  lemma {:induction false} SubDrop<T>(a: seq<T>, b: seq<T>, i: nat)
    requires Sub(a, b) && i < |a|
    ensures Sub(DropAt(a, i), b)
  {
    if a[0] == b[0] && Sub(a[1..], b[1..]) {
      if i == 0 {
        assert DropAt(a, 0) == a[1..];
        assert b == [b[0]] + b[1..];
        SubSkip(b[0], a[1..], b[1..]);
      } else {
        SubDrop(a[1..], b[1..], i - 1);
        assert DropAt(a, i) == [a[0]] + DropAt(a[1..], i - 1);
        assert b == [b[0]] + b[1..];
        SubCons(b[0], DropAt(a[1..], i - 1), b[1..]);
      }
    } else {
      SubDrop(a, b[1..], i);
      assert b == [b[0]] + b[1..];
      SubSkip(b[0], DropAt(a, i), b[1..]);
    }
  }

  /** The two sequences are related element by element. */
  ghost predicate Pointwise<A, B>(related: (A, B) -> bool, xs: seq<A>, ys: seq<B>) {
    |xs| == |ys| && forall i :: 0 <= i < |xs| ==> related(xs[i], ys[i])
  }

  lemma PointwiseSnoc<A, B>(related: (A, B) -> bool, xs: seq<A>, ys: seq<B>, x: A, y: B)
    requires Pointwise(related, xs, ys) && related(x, y)
    ensures Pointwise(related, xs + [x], ys + [y])
  {
  }
}

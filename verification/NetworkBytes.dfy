/** Big-endian fields inside byte strings, as the dissectors read them. */
module NetworkBytes {
  import opened Words

  function Be16(p: Bytes, i: nat): (v: U16)
    requires i + 1 < |p|
  {
    var hi: int, lo: int := p[i], p[i + 1];
    0x100 * hi + lo
  }

  function PutBe16(v: U16): (b: Bytes)
    ensures |b| == 2 && Be16(b, 0) == v
  {
    [v / 0x100, v % 0x100]
  }

  function Be32(p: Bytes, i: nat): (v: U32)
    requires i + 3 < |p|
  {
    var hi: int, lo: int := Be16(p, i), Be16(p, i + 2);
    0x1_0000 * hi + lo
  }

  // ----- Reads that may leave the bytes held -----

  // The outcome of reading: a value, or nothing, if an index is at or beyond the end.
  datatype Checked<+T> = Read(value: T) | Beyond {
    predicate IsFailure() {
      Beyond?
    }

    function PropagateFailure<U>(): Checked<U> {
      Beyond
    }

    function Extract(): T
      requires !IsFailure()
    {
      value
    }
  }

  function ByteAt(p: Bytes, i: nat): Checked<Byte> {
    if i < |p| then Read(p[i]) else Beyond
  }

  function U16At(p: Bytes, i: nat): Checked<U16> {
    if i + 1 < |p| then Read(Be16(p, i)) else Beyond
  }

  function U32At(p: Bytes, i: nat): Checked<U32> {
    if i + 3 < |p| then Read(Be32(p, i)) else Beyond
  }

  function BytesAt(p: Bytes, i: nat, n: nat): Checked<Bytes> {
    if i + n <= |p| then Read(p[i..i + n]) else Beyond
  }

  /** The position of n bytes that are all held. */
  function Extent(p: Bytes, i: nat, n: nat): Checked<nat> {
    if i + n <= |p| then Read(i) else Beyond
  }

  /** What an output buffer holds once the name was put there: as much of it as fits, and a terminator. */
  function Terminated(before: Bytes, name: Bytes): (after: Bytes)
    requires before != []
    ensures |after| == |before|
  {
    var copied := name[..Min(|name|, |before| - 1)];
    copied + [0] + before[|copied| + 1..]
  }

  // Vectors: a length in one or two bytes, then as many bytes.

  function Vec8(s: Bytes): (b: Bytes)
    requires |s| < 0x100
    ensures |b| == 1 + |s|
  {
    [|s|] + s
  }

  function Vec16(s: Bytes): (b: Bytes)
    requires |s| < 0x1_0000
    ensures |b| == 2 + |s|
  {
    PutBe16(|s|) + s
  }

  // ----- Where a part sits -----

  /** The bytes of s are in p, from position pos on. */
  ghost predicate At(p: Bytes, pos: nat, s: Bytes) {
    pos + |s| <= |p| && forall i :: 0 <= i < |s| ==> s[i] == p[pos + i]
  }

  lemma AtSlice(p: Bytes, pos: nat, s: Bytes)
    ensures At(p, pos, s) <==> pos + |s| <= |p| && p[pos..pos + |s|] == s
  {
    if pos + |s| <= |p| && p[pos..pos + |s|] == s {
      assert forall i :: 0 <= i < |s| ==> s[i] == p[pos..pos + |s|][i];
    }
  }

  lemma AtParts(p: Bytes, pos: nat, a: Bytes, b: Bytes)
    requires At(p, pos, a + b)
    ensures At(p, pos, a) && At(p, pos + |a|, b)
  {
    forall i | 0 <= i < |a|
      ensures a[i] == p[pos + i]
    {
      assert (a + b)[i] == a[i];
    }
    forall i | 0 <= i < |b|
      ensures b[i] == p[pos + |a| + i]
    {
      assert (a + b)[|a| + i] == b[i];
    }
  }

  lemma AtJoin(p: Bytes, pos: nat, a: Bytes, b: Bytes)
    requires At(p, pos, a) && At(p, pos + |a|, b)
    ensures At(p, pos, a + b)
  {
    forall i | 0 <= i < |a + b|
      ensures (a + b)[i] == p[pos + i]
    {
      if i < |a| {
        assert (a + b)[i] == a[i];
      } else {
        assert (a + b)[i] == b[i - |a|] == p[pos + |a| + (i - |a|)];
      }
    }
  }

  lemma AtBe16(p: Bytes, pos: nat, v: U16)
    requires At(p, pos, PutBe16(v))
    ensures Be16(p, pos) == v
  {
    var s := PutBe16(v);
    assert p[pos] == s[0] && p[pos + 1] == s[1];
  }

  lemma AtVec8(p: Bytes, pos: nat, s: Bytes)
    requires |s| < 0x100 && At(p, pos, Vec8(s))
    ensures p[pos] == |s| && At(p, pos + 1, s)
  {
    var head: Bytes := [|s|];
    AtParts(p, pos, head, s);
    assert head[0] == p[pos];
  }

  lemma AtVec16(p: Bytes, pos: nat, s: Bytes)
    requires |s| < 0x1_0000 && At(p, pos, Vec16(s))
    ensures Be16(p, pos) == |s| && At(p, pos + 2, s)
  {
    AtParts(p, pos, PutBe16(|s|), s);
    AtBe16(p, pos, |s|);
  }

  /** A byte string that sits at the start of another has the same numbers in it. */
  lemma SameBe16(p: Bytes, q: Bytes, pos: nat)
    requires At(q, 0, p) && pos + 1 < |p|
    ensures Be16(p, pos) == Be16(q, pos)
  {
    assert p[pos] == q[0 + pos] && p[pos + 1] == q[0 + (pos + 1)];
  }
}

/** Bytes, powers of two, and the modular arithmetic of fixed-width machine words. */
module Words {

  type Byte = x: int | 0 <= x < 256
  type U16 = x: int | 0 <= x < 0x1_0000
  type U32 = x: int | 0 <= x < 0x1_0000_0000
  type U64 = x: int | 0 <= x < 0x1_0000_0000_0000_0000
  type Bytes = seq<Byte>

  datatype Option<+T> = None | Some(value: T)

  function Min(a: int, b: int): (m: int)
    ensures m <= a && m <= b && (m == a || m == b)
  {
    if a <= b then a else b
  }

  const WORD: nat := 0x1_0000_0000_0000_0000

  function Pow2(k: nat): (r: nat)
    ensures r >= 1
  {
    if k == 0 then 1 else 2 * Pow2(k - 1)
  }

  /** Two's complement reading of an integer reduced modulo 2^64. */
  function ToInt64(x: int): (r: int)
    ensures -(WORD / 2) <= r < WORD / 2
  {
    (x + WORD / 2) % WORD - WORD / 2
  }

  /** Bitwise conjunction of two natural numbers. */
  function BitAnd(x: nat, y: nat): (r: nat)
    ensures r <= x && r <= y
  {
    if x == 0 || y == 0 then 0
    else 2 * BitAnd(x / 2, y / 2) + if x % 2 == 1 && y % 2 == 1 then 1 else 0
  }

  lemma Pow2Adds(a: nat, b: nat)
    ensures Pow2(a + b) == Pow2(a) * Pow2(b)
  {
    if a > 0 {
      Pow2Adds(a - 1, b);
      assert Pow2(a + b) == 2 * Pow2(a - 1 + b);
    }
  }

  lemma Pow2Monotone(a: nat, b: nat)
    requires a <= b
    ensures Pow2(a) <= Pow2(b)
  {
    if a < b {
      Pow2Monotone(a, b - 1);
    }
  }

  lemma Pow2Values()
    ensures Pow2(10) == 1024
    ensures Pow2(61) == 0x2000_0000_0000_0000
    ensures Pow2(64) == WORD
  {
    assert Pow2(10) == 1024;
    Pow2Adds(10, 10);
    Pow2Adds(20, 10);
    Pow2Adds(30, 30);
    assert Pow2(61) == 2 * Pow2(60);
    assert Pow2(64) == 2 * Pow2(63) && Pow2(63) == 2 * Pow2(62) && Pow2(62) == 2 * Pow2(61);
  }

  lemma ModWrap(x: int, m: int)
    requires 0 <= x < 2 * m
    ensures x % m == if x < m then x else x - m
  {
    DivModUnique(x, if x < m then 0 else 1, if x < m then x else x - m, m);
  }

  lemma MultipleIsBig(d: int, m: int)
    requires m > 0
    ensures d >= 1 ==> d * m >= m
    ensures d <= -1 ==> d * m <= -m
  {
    if d >= 1 {
      assert d * m == (d - 1) * m + m && (d - 1) * m >= 0;
    } else if d <= -1 {
      assert d * m == (d + 1) * m - m && (d + 1) * m <= 0;
    }
  }

  /** The only integer congruent to a modulo m at distance less than m from it is itself. */
  lemma ModUnique(a: int, b: int, m: int)
    requires m > 0 && a % m == b % m && -m < a - b < m
    ensures a == b
  {
    var d := a / m - b / m;
    assert d * m == a - b by {
      assert a == (a / m) * m + a % m && b == (b / m) * m + b % m;
    }
    MultipleIsBig(d, m);
  }

  lemma ModShift(a: int, k: int, m: int)
    requires m > 0
    ensures (a + k * m) % m == a % m
  {
    var q := a / m + k;
    assert a + k * m == q * m + a % m;
    DivModUnique(a + k * m, q, a % m, m);
  }

  lemma DivModUnique(x: int, q: int, r: int, m: int)
    requires m > 0 && x == q * m + r && 0 <= r < m
    ensures x / m == q && x % m == r
  {
    var d := x / m - q;
    assert d * m == r - x % m by {
      assert x == (x / m) * m + x % m;
    }
    MultipleIsBig(d, m);
  }

  /** A number in range is its own two's complement reading. */
  lemma SmallIsItself(x: int)
    requires -(WORD / 2) <= x < WORD / 2
    ensures ToInt64(x) == x
  {
    DivModUnique(x + WORD / 2, 0, x + WORD / 2, WORD);
  }

  /** Reducing modulo a multiple of m first does not change the residue modulo m. */
  lemma ModMod(x: int, m: int, k: int)
    requires m > 0 && k > 0
    ensures k * m > 0 && (x % (k * m)) % m == x % m
  {
    assert k * m > 0;
    var M := k * m;
    assert x == (x / M) * M + x % M;
    ModShift(x % M, (x / M) * k, m);
    assert (x / M) * k * m == (x / M) * M;
  }

  /** Masking with 2^k - 1 is the remainder modulo 2^k. */
  lemma {:induction false} MaskIsMod(x: nat, k: nat)
    ensures BitAnd(x, Pow2(k) - 1) == x % Pow2(k)
  {
    if x == 0 {
      DivModUnique(0, 0, 0, Pow2(k));
    } else if k == 0 {
      DivModUnique(x, x, 0, 1);
    } else {
      var h := Pow2(k - 1);
      MaskIsMod(x / 2, k - 1);
      MaskDouble(x, h);
      assert Pow2(k) == 2 * h;
    }
  }

  lemma MaskDouble(x: nat, h: nat)
    requires x > 0 && h > 0 && BitAnd(x / 2, h - 1) == (x / 2) % h
    ensures BitAnd(x, 2 * h - 1) == x % (2 * h)
  {
    MaskStep(x, h);
    ModDouble(x, h);
  }

  lemma MaskStep(x: nat, h: nat)
    requires x > 0 && h > 0
    ensures BitAnd(x, 2 * h - 1) == 2 * BitAnd(x / 2, h - 1) + x % 2
  {
    assert (2 * h - 1) / 2 == h - 1 && (2 * h - 1) % 2 == 1;
  }

  lemma ModDouble(x: nat, h: nat)
    requires h > 0
    ensures x % (2 * h) == 2 * ((x / 2) % h) + x % 2
  {
    var q, r := (x / 2) / h, (x / 2) % h;
    assert x / 2 == q * h + r;
    assert q * (2 * h) == 2 * (q * h);
    DivModUnique(x, q, 2 * r + x % 2, 2 * h);
  }
}

/** The wait before a reconnection attempt, computed in 64-bit nanoseconds. */
module Backoff {
  import opened Words

  // Nanoseconds: 2 s and 60 s.
  const MIN_INTERVAL: int := 2_000_000_000
  const MAX_INTERVAL: int := 60_000_000_000

  /** 1 << n as a signed 64-bit number: shifted out entirely from 64 on. */
  function Shift1(n: nat): int {
    if n >= 64 then 0 else ToInt64(Pow2(n))
  }

  /** The product wraps; values outside the accepted range become the maximum. */
  function Wait(failures: nat): int
    requires failures >= 1
  {
    var backoff := ToInt64(MIN_INTERVAL * Shift1(failures - 1));
    if backoff > MAX_INTERVAL || backoff < MIN_INTERVAL then MAX_INTERVAL else backoff
  }

  /** A multiple of 2^36 that is read as a signed word is 0 or out of reach of the accepted range. */
  lemma WrappedMultiple(q: int)
    ensures var r := ToInt64(q * Pow2(36)); r > MAX_INTERVAL || r < MIN_INTERVAL
  {
    Pow2Is36();
    var x := q * Pow2(36);
    var r := ToInt64(x);
    var w := (x + WORD / 2) / WORD;
    assert r == x - w * WORD;
    assert r == (q - w * 0x1000_0000) * 0x10_0000_0000;
    MultipleIsBig(q - w * 0x1000_0000, 0x10_0000_0000);
  }

  lemma Pow2Is36()
    ensures Pow2(36) == 0x10_0000_0000 && Pow2(26) == 0x400_0000
  {
    assert Pow2(10) == 1024;
    Pow2Adds(10, 10);
    Pow2Adds(20, 6);
    assert Pow2(6) == 64;
    Pow2Adds(26, 10);
  }

  /** Although the shift and the product wrap, the wait is the exact doubling capped at a minute. */
  lemma WaitIsCappedDoubling(failures: nat)
    requires failures >= 1
    ensures Wait(failures) == Min(2_000_000_000 * Pow2(failures - 1), 60_000_000_000)
  {
    var n := failures - 1;
    Pow2Is36();
    if n < 26 {
      Pow2Monotone(n, 26);
      SmallIsItself(Pow2(n));
      SmallIsItself(MIN_INTERVAL * Pow2(n));
    } else {
      Pow2Monotone(26, n);
      LateShift(n);
    }
  }

  /** From the 26th doubling on, the product is a multiple of 2^36, whatever the shift wrapped to. */
  lemma LateShift(n: nat)
    requires n >= 26
    ensures var r := ToInt64(MIN_INTERVAL * Shift1(n)); r > MAX_INTERVAL || r < MIN_INTERVAL
  {
    Pow2Is36();
    if n >= 64 {
      SmallIsItself(0);
    } else {
      // 2 seconds are 1953125 * 2^10 nanoseconds, and the shifted one is a multiple of 2^26
      Pow2Adds(n - 26, 26);
      var p := Pow2(n);
      var w := (p + WORD / 2) / WORD;
      var q := Pow2(n - 26) - w * 0x40_0000_0000;
      assert ToInt64(p) == p - w * WORD == q * 0x400_0000;
      assert MIN_INTERVAL * ToInt64(p) == (1953125 * q) * Pow2(36);
      WrappedMultiple(1953125 * q);
    }
  }

  /** More failures never shorten the wait, and no wait is outside [2 s, 60 s]. */
  lemma WaitIsMonotone(f: nat, g: nat)
    requires 1 <= f <= g
    ensures 2_000_000_000 <= Wait(f) <= Wait(g) <= 60_000_000_000
  {
    WaitIsCappedDoubling(f);
    WaitIsCappedDoubling(g);
    Pow2Monotone(f - 1, g - 1);
    var a, b := Pow2(f - 1), Pow2(g - 1);
    assert 2_000_000_000 <= 2_000_000_000 * a <= 2_000_000_000 * b;
  }
}

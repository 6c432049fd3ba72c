/** Fixed-width integers of the .NET runtime and the atomic increment the
    diagnostics counters use. */
module Numerics {

  /** 2^63 and 2^64: the half-range and the period of a 64-bit counter. */
  const HALF64: int := 0x8000_0000_0000_0000
  const PERIOD64: int := 0x1_0000_0000_0000_0000

  /** C# `int`. */
  newtype int32 = x: int | -0x8000_0000 <= x < 0x8000_0000

  /** C# `long`. */
  newtype int64 = x: int | -0x8000_0000_0000_0000 <= x < 0x8000_0000_0000_0000

  const INT64_MIN: int64 := -0x8000_0000_0000_0000
  const INT64_MAX: int64 := 0x7FFF_FFFF_FFFF_FFFF

  /** The two's-complement `long` that an unbounded count `n` reads as once
      it is stored in 64 bits. */
  function Wrap64(n: int): (r: int64)
    ensures -HALF64 <= n < HALF64 ==> r as int == n
  {
    ((n + HALF64) % PERIOD64 - HALF64) as int64
  }

  /** Two counts less than one period apart never read as the same `long`. */
  lemma Wrap64Distinct(i: int, j: int)
    requires i < j < i + PERIOD64
    ensures Wrap64(i) != Wrap64(j)
  {
    var qi, qj := (i + HALF64) / PERIOD64, (j + HALF64) / PERIOD64;
    assert i + HALF64 == qi * PERIOD64 + (i + HALF64) % PERIOD64;
    assert j + HALF64 == qj * PERIOD64 + (j + HALF64) % PERIOD64;
  }

  /** Wrapping commutes with adding one. */
  lemma Wrap64Succ(n: int)
    ensures Wrap64(Wrap64(n) as int + 1) == Wrap64(n + 1)
  {
    var q := (n + HALF64) / PERIOD64;
    var m := (n + HALF64) % PERIOD64;
    assert n + HALF64 == q * PERIOD64 + m;
    assert Wrap64(n) as int + 1 + HALF64 == m + 1;
    if m + 1 < PERIOD64 {
      assert (n + 1 + HALF64) == q * PERIOD64 + (m + 1);
      assert (n + 1 + HALF64) % PERIOD64 == m + 1;
    } else {
      assert (n + 1 + HALF64) == (q + 1) * PERIOD64;
      assert (n + 1 + HALF64) % PERIOD64 == 0;
    }
  }

  /** `Interlocked.Increment(ref long)`: adds one and returns the new value;
      `long.MaxValue` steps to `long.MinValue`. */
  function Increment64(c: int64): (r: int64)
    ensures r == Wrap64(c as int + 1)
    ensures c < INT64_MAX ==> r as int == c as int + 1
  {
    if c == INT64_MAX then INT64_MIN else c + 1
  }
}

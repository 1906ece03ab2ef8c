/**
 * Capacity policy of the dict: 64-bit constants, powers of two and `nextPower`
 * (dict.go:17-19, dict.go:185-195).
 */
module Capacity {

  /** 2^64: one more than the largest `uint64`. */
  const TWO64: nat := 0x1_0000_0000_0000_0000
  /** `math.MaxUint64`. */
  const MAX_U64: nat := 0xFFFF_FFFF_FFFF_FFFF
  /** 2^63, the largest power of two a `uint64` can hold. */
  const MAX_SIZE: nat := 0x8000_0000_0000_0000
  /** `_initiaHashtableSize`: the first allocation and the smallest table. */
  const INITIAL_SIZE: nat := 4

  /** `uint64` increment and decrement, which wrap around. */
  function IncU64(x: nat): (r: nat)
    requires x < TWO64
    ensures r < TWO64
    ensures x < MAX_U64 ==> r == x + 1
  {
    (x + 1) % TWO64
  }

  function DecU64(x: nat): (r: nat)
    requires x < TWO64
    ensures r < TWO64
    ensures x > 0 ==> r == x - 1
    ensures x == 0 ==> r == MAX_U64
  {
    if x == 0 then MAX_U64 else x - 1
  }

  /** `n` increments of a `uint64` counter starting at `x`. */
  function AddU64(x: nat, n: nat): (r: nat)
    requires x < TWO64
    ensures r < TWO64
    ensures x + n < TWO64 ==> r == x + n
  {
    (x + n) % TWO64
  }

  lemma DecUndoesInc(x: nat)
    requires x < TWO64
    ensures DecU64(IncU64(x)) == x
  {
  }

  ghost predicate IsPow2(n: nat)
    decreases n
  {
    if n <= 1 then n == 1 else n % 2 == 0 && IsPow2(n / 2)
  }

  /** Powers of two are spaced by doubling: a smaller one is at most half a larger one. */
  lemma {:induction false} Pow2Spacing(q: nat, p: nat)
    requires IsPow2(q) && IsPow2(p) && q < p
    ensures 2 * q <= p
    decreases p
  {
    if q > 1 {
      Pow2Spacing(q / 2, p / 2);
    }
  }

  lemma Pow2Double(n: nat)
    requires IsPow2(n)
    ensures IsPow2(2 * n)
  {
  }

  lemma MulDouble(x: nat, h: nat)
    ensures x * (h + h) == 2 * (x * h)
  {
  }

  lemma {:induction false} Pow2Product(x: nat, y: nat)
    requires IsPow2(x) && IsPow2(y)
    ensures IsPow2(x * y)
    decreases y
  {
    if y > 1 {
      var h := y / 2;
      Pow2Product(x, h);
      MulDouble(x, h);
      Pow2Double(x * h);
      assert y == h + h;
    }
  }

  lemma MaxSizeIsPow2()
    ensures IsPow2(MAX_SIZE)
  {
    assert IsPow2(16);
    Pow2Product(16, 16);
    Pow2Product(256, 256);
    Pow2Product(0x1_0000, 0x1_0000);
    Pow2Product(0x1_0000_0000, 0x8000_0000) by {
      assert IsPow2(0x8000) by {
        Pow2Product(256, 128) by { assert IsPow2(128); }
      }
      Pow2Product(0x1_0000, 0x8000);
    }
  }

  /** Doubling `p` until it reaches `n`: the value the shift loop of `nextPower` computes. */
  function Grow(p: nat, n: nat): nat
    requires p >= 1
    decreases n - p
  {
    if p >= n then p else Grow(2 * p, n)
  }

  /** The size `nextPower` picks for a request of `n` buckets. */
  function LeastPow2(n: nat): nat
  {
    Grow(INITIAL_SIZE, n)
  }

  ghost predicate IsLeastPow2(r: nat, n: nat)
  {
    && IsPow2(r) && r >= n && r >= INITIAL_SIZE
    && forall q: nat :: IsPow2(q) && q >= n && q >= INITIAL_SIZE ==> r <= q
  }

  lemma {:induction false} GrowIsLeast(p: nat, n: nat)
    requires p >= INITIAL_SIZE && IsPow2(p)
    requires forall q: nat :: IsPow2(q) && q >= n && q >= INITIAL_SIZE ==> p <= q
    ensures IsLeastPow2(Grow(p, n), n)
    decreases n - p
  {
    if p < n {
      forall q: nat | IsPow2(q) && q >= n && q >= INITIAL_SIZE
        ensures 2 * p <= q
      {
        Pow2Spacing(p, q);
      }
      GrowIsLeast(2 * p, n);
    }
  }

  /**
   * `nextPower(n)` is the smallest power of two that is at least `n` and at
   * least 4; for example 3 -> 4, 5 -> 8 and 8 -> 8.
   */
  lemma LeastPow2IsLeast(n: nat)
    ensures IsLeastPow2(LeastPow2(n), n)
  {
    forall q: nat | IsPow2(q) && q >= n && q >= INITIAL_SIZE
      ensures INITIAL_SIZE <= q
    {
    }
    GrowIsLeast(INITIAL_SIZE, n);
  }

  /** The least power is unique, so the examples of the tests follow. */
  lemma {:induction false} LeastPow2Examples()
    ensures LeastPow2(3) == 4 && LeastPow2(5) == 8 && LeastPow2(8) == 8
  {
    LeastPow2IsLeast(3);
    LeastPow2IsLeast(5);
    LeastPow2IsLeast(8);
    assert IsPow2(4) && IsPow2(8);
  }

  /** A request that already is a power of two of at least 4 gets exactly that size. */
  lemma LeastPow2OfPow2(p: nat)
    requires IsPow2(p) && INITIAL_SIZE <= p
    ensures LeastPow2(p) == p
  {
    LeastPow2IsLeast(p);
  }

  /** Doubling a table below 2^63 stays a power of two within 2^63 (dict.go:157-158). */
  lemma DoubleWithinMax(p: nat)
    requires IsPow2(p) && p < MAX_SIZE
    ensures IsPow2(2 * p) && 2 * p <= MAX_SIZE
  {
    MaxSizeIsPow2();
    Pow2Spacing(p, MAX_SIZE);
    Pow2Double(p);
  }

  /** A request of at most 2^63 buckets gets a table of at most 2^63 buckets. */
  lemma LeastPow2Bounded(n: nat)
    requires n <= MAX_SIZE
    ensures LeastPow2(n) <= MAX_SIZE
  {
    LeastPow2IsLeast(n);
    MaxSizeIsPow2();
  }

  /**
   * Corrected `nextPower` (see Findings in the README): requests above 2^63
   * saturate at `math.MaxUint64` instead of entering the shift loop, which
   * the source's guard `size >= math.MaxUint64` lets them do.
   */
  method NextPower(size: nat) returns (r: nat)
    requires size <= MAX_U64
    ensures size > MAX_SIZE ==> r == MAX_U64
    ensures size <= MAX_SIZE ==> IsLeastPow2(r, size) && r == LeastPow2(size) && r <= MAX_SIZE
  {
    if size > MAX_SIZE {
      return MAX_U64;
    }
    MaxSizeIsPow2();
    var i := INITIAL_SIZE;
    while i < size
      invariant IsPow2(i) && INITIAL_SIZE <= i <= MAX_SIZE
      invariant Grow(i, size) == LeastPow2(size)
      decreases size - i
    {
      Pow2Spacing(i, MAX_SIZE);
      i := i * 2;
    }
    LeastPow2IsLeast(size);
    return i;
  }

  /** The source's `i <<= 1` on a `uint64`: the doubling wraps around at 2^64. */
  function ShiftLeftU64(i: nat): nat
  {
    (2 * i) % TWO64
  }

  /** The cursor `i` of the source's `nextPower` loop after `k` shifts, as written. */
  function ShiftedCursor(k: nat): nat
  {
    if k == 0 then INITIAL_SIZE else ShiftLeftU64(ShiftedCursor(k - 1))
  }

  lemma {:induction false} ShiftedCursorStaysLow(k: nat)
    ensures ShiftedCursor(k) == 0 || (IsPow2(ShiftedCursor(k)) && ShiftedCursor(k) <= MAX_SIZE)
  {
    if k > 0 {
      ShiftedCursorStaysLow(k - 1);
      var i := ShiftedCursor(k - 1);
      if i != 0 && i < MAX_SIZE {
        MaxSizeIsPow2();
        Pow2Spacing(i, MAX_SIZE);
        assert ShiftLeftU64(i) == 2 * i;
      } else if i == MAX_SIZE {
        assert ShiftLeftU64(i) == 0;
      }
    }
  }

  /**
   * As written, `nextPower(size)` never returns when 2^63 < size < 2^64 - 1:
   * the cursor climbs to 2^63, wraps to 0 and stays there, so the loop guard
   * `i < size` holds after every number of shifts.
   */
  lemma NextPowerSpinsAboveHalf(size: nat, k: nat)
    requires MAX_SIZE < size < MAX_U64
    ensures ShiftedCursor(k) < size
  {
    ShiftedCursorStaysLow(k);
  }
}

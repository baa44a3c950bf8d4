/** Capacity rounding and index arithmetic of the sample ring (pipewire/src/reac_ring.c). */
module RingIndex {
  import opened Words

  /** The bits of the n-bit number v are ones from the top down to bit t. */
  ghost predicate TopOnes(v: nat, n: nat, t: nat)
    requires t <= n
  {
    Pow2(n) - Pow2(t) <= v < Pow2(n)
  }

  lemma {:induction false} HalveTop(v: nat, n: nat, t: nat)
    requires 0 < t <= n && TopOnes(v, n, t)
    ensures TopOnes(v / 2, n - 1, t - 1)
  {
  }

  /** Ones of b continue where the ones of a stop. */
  lemma {:induction false} OrOnes(a: nat, b: nat, n: nat, m: nat, t: nat)
    requires t <= m <= n
    requires TopOnes(a, n, m) && TopOnes(b, m, t)
    ensures TopOnes(Or(a, b), n, t)
    decreases m
  {
    if m == 0 {
      assert b == 0 && a == Pow2(n) - 1;
    } else {
      HalveTop(a, n, m);
      if t > 0 {
        HalveTop(b, m, t);
        OrOnes(a / 2, b / 2, n - 1, m - 1, t - 1);
        OrHalves(a, b);
      } else {
        assert b == 2 * (Pow2(m - 1) - 1) + 1;
        OrOnes(a / 2, b / 2, n - 1, m - 1, 0);
        OrHalves(a, b);
      }
    }
  }

  lemma OrHalves(a: nat, b: nat)
    ensures Or(a, b) == 2 * Or(a / 2, b / 2) + (if a % 2 == 1 || b % 2 == 1 then 1 else 0)
  {
  }

  lemma {:induction false} ShiftTop(v: nat, n: nat, t: nat, j: nat)
    requires t <= n && TopOnes(v, n, t) && j <= n
    ensures TopOnes(Shr(v, j), n - j, if j <= t then t - j else 0)
  {
    if j > 0 {
      if t > 0 { HalveTop(v, n, t); }
      ShiftTop(v / 2, n - 1, if t > 0 then t - 1 else 0, j - 1);
    }
  }

  lemma {:induction false} ShiftOut(v: nat, n: nat, j: nat)
    requires v < Pow2(n) && n <= j
    ensures Shr(v, j) == 0
  {
    if j > 0 { ShiftOut(v / 2, if n > 0 then n - 1 else 0, j - 1); }
  }

  /** The top j bits of the n-bit number v are ones. */
  ghost predicate OnesRun(v: nat, n: nat, j: nat)
  {
    TopOnes(v, n, if j <= n then n - j else 0)
  }

  /** The smear doubles a run of j top ones. */
  lemma SmearStep(v: nat, n: nat, j: nat)
    requires OnesRun(v, n, j)
    ensures OnesRun(Or(v, Shr(v, j)), n, 2 * j)
  {
    if j <= n {
      ShiftTop(v, n, n - j, j);
      OrOnes(v, Shr(v, j), n, n - j, if j <= n - j then n - 2 * j else 0);
    } else {
      ShiftOut(v, n, j);
    }
  }

  lemma {:induction false} BitLength(v: nat, bound: nat) returns (n: nat)
    requires 0 < v < Pow2(bound)
    ensures 0 < n <= bound && Pow2(n - 1) <= v < Pow2(n)
  {
    if Pow2(bound - 1) <= v { n := bound; } else { n := BitLength(v, bound - 1); }
  }

  lemma Pow2Of32()
    ensures Pow2(32) == U32 && Pow2(31) == 0x8000_0000
  {
    Pow2Add(8, 8); Pow2Add(16, 16); Pow2Add(16, 15);
    assert Pow2(8) == 256;
    assert Pow2(15) == 0x8000;
  }

  /** The least power of two, from 2 up, that is at least v. */
  ghost predicate LeastCapacity(p: nat, v: nat)
  {
    IsCapacity(p) && p >= v && (p == 2 || p / 2 < v)
  }

  lemma CapacityIsLeast(p: nat, v: nat, j: nat)
    requires LeastCapacity(p, v) && 1 <= j && v <= Pow2(j)
    ensures p <= Pow2(j)
  {
    var k: nat :| 1 <= k <= 31 && p == Pow2(k);
    if p == 2 {
      Pow2Mono(1, j);
      assert Pow2(1) == 2;
    } else {
      assert p / 2 == Pow2(k - 1);
      Pow2Strict(k - 1, j);
      Pow2Mono(k, j);
    }
  }

  /**
   `next_pow2`, in 32-bit arithmetic: requests up to 2^31 round to the least power
   of two (from 2 up) that holds them; every larger one wraps to zero.
   */
  method NextPow2(v: u32) returns (p: u32)
    ensures v <= 0x8000_0000 ==> LeastCapacity(p, v)
    ensures v <= 0x8000_0000 <==> p != 0
  {
    if v < 2 {
      TwoIsLeast(v);
      return 2;
    }
    var x: nat := v - 1;
    ghost var n := WordLength(x);
    x := SmearBy(x, 1, n);
    x := SmearBy(x, 2, n);
    x := SmearBy(x, 4, n);
    x := SmearBy(x, 8, n);
    x := SmearBy(x, 16, n);
    CapacityOfBits(v, n, x);
    p := (x + 1) % U32;
  }

  /** `v |= v >> j` */
  method SmearBy(v: nat, j: nat, ghost n: nat) returns (x: nat)
    requires OnesRun(v, n, j)
    ensures OnesRun(x, n, 2 * j)
  {
    SmearStep(v, n, j);
    x := Or(v, Shr(v, j));
  }

  lemma TwoIsLeast(v: nat)
    requires v < 2
    ensures LeastCapacity(2, v)
  {
    assert Pow2(1) == 2;
  }

  /** The bit length of a word, whose top bit is a run of one. */
  lemma WordLength(v: u32) returns (n: nat)
    requires v > 0
    ensures 0 < n <= 32 && Pow2(n - 1) <= v && OnesRun(v, n, 1)
  {
    Pow2Of32();
    n := BitLength(v, 32);
  }

  /** 2^n, for the bit length n of v - 1, as `next_pow2` returns it. */
  lemma CapacityOfBits(v: u32, n: nat, x: nat)
    requires v >= 2 && 0 < n <= 32 && Pow2(n - 1) < v && OnesRun(v - 1, n, 1) && OnesRun(x, n, 32)
    ensures v <= 0x8000_0000 ==> LeastCapacity((x + 1) % U32, v)
    ensures v <= 0x8000_0000 <==> (x + 1) % U32 != 0
  {
    assert x == Pow2(n) - 1;
    Pow2Of32();
    if v <= 0x8000_0000 {
      Pow2Strict(n - 1, 31);
      Pow2Mono(n, 31);
      SmallMod(Pow2(n), U32);
      assert Pow2(n) / 2 == Pow2(n - 1);
    } else if n < 32 {
      Pow2Mono(n, 31);
    }
  }

  /** A ring capacity: a power of two from 2 to 2^31. */
  ghost predicate IsCapacity(cap: nat)
  {
    exists k: nat :: 1 <= k <= 31 && cap == Pow2(k)
  }

  /** `x & mask`. */
  function Wrap(x: u32, mask: u32): u32
  {
    And(x, mask)
  }

  /** `(h - t) & mask`, the subtraction wrapping at 32 bits. */
  function Distance(h: u32, t: u32, mask: u32): u32
  {
    And((h - t) % U32, mask)
  }

  lemma CapacityBounds(cap: nat)
    requires IsCapacity(cap)
    ensures 2 <= cap <= 0x8000_0000
  {
    var k: nat :| 1 <= k <= 31 && cap == Pow2(k);
    Pow2Mono(1, k); Pow2Mono(k, 31); Pow2Of32();
    assert Pow2(1) == 2;
  }

  lemma WrapIsMod(x: u32, cap: nat)
    requires IsCapacity(cap)
    ensures 2 <= cap <= 0x8000_0000
    ensures Wrap(x, cap - 1) == x % cap
  {
    CapacityBounds(cap);
    var k: nat :| 1 <= k <= 31 && cap == Pow2(k);
    AndMask(x, k);
  }

  /** The slot of the k-th sample, counted round the ring. */
  ghost function Slot(k: nat, cap: nat): (p: nat)
    requires cap > 0
    ensures p < cap
  {
    k % cap
  }

  /** Samples less than a turn apart never share a slot. */
  lemma DistinctSlots(a: nat, b: nat, cap: nat)
    requires a < b < a + cap
    ensures Slot(a, cap) != Slot(b, cap)
  {
    if a % cap == b % cap {
      ModSub(b, a, cap);
      SmallMod(b - a, cap);
    }
  }

  lemma SlotAdd(a: nat, b: nat, cap: nat)
    requires cap > 0
    ensures Slot(Slot(a, cap) + b, cap) == Slot(a + b, cap)
  {
    ModAdd(a, b, cap);
  }

  /** The next slot to fill is none of those less than a turn behind it. */
  lemma FreshSlot(lo: nat, b: nat, cap: nat)
    requires lo <= b < lo + cap
    ensures forall k :: lo <= k < b ==> Slot(k, cap) != Slot(b, cap)
  {
    forall k | lo <= k < b ensures Slot(k, cap) != Slot(b, cap) {
      DistinctSlots(k, b, cap);
    }
  }

  /** `(i + k) & mask` for the stored index i of total a. */
  lemma Advance(a: nat, k: nat, cap: nat)
    requires IsCapacity(cap) && k < cap
    ensures 2 <= cap <= 0x8000_0000
    ensures Wrap(Slot(a, cap) + k, cap - 1) == Slot(a + k, cap)
  {
    CapacityBounds(cap);
    WrapIsMod(Slot(a, cap) + k, cap);
    ModAdd(a, k, cap);
  }

  /** The masked 32-bit difference of two stored indices is the difference of the unbounded totals behind them. */
  lemma DistanceOfTotals(w: nat, r: nat, cap: nat)
    requires IsCapacity(cap)
    requires r <= w < r + cap
    ensures 2 <= cap <= 0x8000_0000
    ensures Distance(Slot(w, cap), Slot(r, cap), cap - 1) == w - r
  {
    CapacityBounds(cap);
    ModSub(w, r, cap);
    SmallMod(w - r, cap);
    DistanceIsMod(w % cap, r % cap, cap);
  }

  lemma DistanceIsMod(h: u32, t: u32, cap: nat)
    requires IsCapacity(cap)
    ensures 2 <= cap <= 0x8000_0000
    ensures Distance(h, t, cap - 1) == (h - t) % cap
  {
    WrapIsMod((h - t) % U32, cap);
    WordKeepsMod(h - t, cap);
  }

  lemma WordKeepsMod(d: int, cap: nat)
    requires IsCapacity(cap)
    ensures cap > 0 && (d % U32) % cap == d % cap
  {
    var k: nat :| 1 <= k <= 31 && cap == Pow2(k);
    Pow2Add(k, 32 - k);
    Pow2Of32();
    ModMod(d, cap, Pow2(32 - k));
  }
}

/**
 Fixed-width words of the C sources, as ranges of the integers, with the bit
 operations the ring uses on its indices.
 */
module Words {
  const U16 := 0x1_0000
  const U32 := 0x1_0000_0000
  const U64 := 0x1_0000_0000_0000_0000

  type u8 = x: int | 0 <= x < 0x100
  type u16 = x: int | 0 <= x < 0x1_0000
  type u32 = x: int | 0 <= x < 0x1_0000_0000
  type u64 = x: int | 0 <= x < 0x1_0000_0000_0000_0000

  type Bytes = seq<u8>

  /** A float sample, as a real. */
  type Sample = real

  function Min(a: int, b: int): (m: int)
  {
    if a < b then a else b
  }

  function Abs(x: int): nat
  {
    if x < 0 then -x else x
  }

  /** The uint16_t reading of an int16_t, as a C cast to int16_t gives it. */
  function Signed16(x: u16): int
  {
    if x < 0x8000 then x else x - U16
  }

  function Pow2(k: nat): (p: nat)
    ensures p >= 1
  {
    if k == 0 then 1 else 2 * Pow2(k - 1)
  }

  /** Bitwise conjunction of naturals. */
  function And(x: nat, y: nat): (a: nat)
    ensures a <= x && a <= y
  {
    if x == 0 || y == 0 then 0
    else 2 * And(x / 2, y / 2) + (if x % 2 == 1 && y % 2 == 1 then 1 else 0)
  }

  /** Bitwise disjunction of naturals. */
  function Or(x: nat, y: nat): nat
    decreases x + y
  {
    if x == 0 then y
    else if y == 0 then x
    else 2 * Or(x / 2, y / 2) + (if x % 2 == 1 || y % 2 == 1 then 1 else 0)
  }

  /** `x >> k` on an unsigned word. */
  function Shr(x: nat, k: nat): nat
  {
    if k == 0 then x else Shr(x / 2, k - 1)
  }

  // ----- division and remainder -------------------------------------------

  lemma DivModUnique(x: int, d: int, q: int, r: int)
    requires 0 <= r < d
    requires x == q * d + r
    ensures x / d == q && x % d == r
  {
    var q', r' := x / d, x % d;
    assert x == q' * d + r';
    assert (q - q') * d == r' - r;
    if q > q' {
      assert (q - q') * d >= d by { MulMono(1, q - q', d); }
    } else if q < q' {
      assert (q' - q) * d >= d by { MulMono(1, q' - q, d); }
    }
  }

  lemma MulMono(a: int, b: int, c: int)
    requires a <= b && 0 <= c
    ensures a * c <= b * c
  {
    assert (b - a) * c >= 0;
  }

  lemma DivLower(v: int, d: int, x: int)
    requires d > 0 && x * d <= v
    ensures x <= v / d
  {
    if v / d + 1 <= x { MulMono(v / d + 1, x, d); }
  }

  lemma DivUpper(v: int, d: int, x: int)
    requires d > 0 && v < x * d
    ensures v / d < x
  {
    if x <= v / d { MulMono(x, v / d, d); }
  }

  lemma ModShift(a: int, k: int, d: int)
    requires d > 0
    ensures (a + k * d) % d == a % d
  {
    assert a == (a / d) * d + a % d;
    assert a + k * d == (a / d + k) * d + a % d;
    DivModUnique(a + k * d, d, a / d + k, a % d);
  }

  lemma ModAdd(a: int, b: int, d: int)
    requires d > 0
    ensures (a % d + b) % d == (a + b) % d
  {
    assert a == (a / d) * d + a % d;
    ModShift(a % d + b, a / d, d);
  }

  lemma ModSub(a: int, b: int, d: int)
    requires d > 0
    ensures (a % d - b % d) % d == (a - b) % d
  {
    ModAdd(a, - (b % d), d);
    assert b == (b / d) * d + b % d;
    ModShift(a - b, b / d, d);
  }

  lemma ModMul(a: int, b: int, d: int)
    requires d > 0
    ensures ((a % d) * b) % d == (a * b) % d
  {
    assert a == (a / d) * d + a % d;
    assert a * b == (a % d) * b + (a / d * b) * d;
    ModShift((a % d) * b, a / d * b, d);
  }

  /** A remainder by a multiple of d keeps the remainder by d. */
  lemma ModMod(a: int, d: int, e: int)
    requires d > 0 && e > 0
    ensures d * e > 0
    ensures (a % (d * e)) % d == a % d
  {
    var m := d * e;
    assert m >= d by { MulMono(1, e, d); }
    assert a == (a / m) * m + a % m;
    assert (a / m) * m == (a / m * e) * d;
    ModShift(a % m, a / m * e, d);
  }

  /** k steps of d, for proofs that must stay clear of products. */
  ghost function Times(k: nat, d: nat): nat
  {
    if k == 0 then 0 else Times(k - 1, d) + d
  }

  lemma {:induction false} TimesIs(k: nat, d: nat)
    ensures Times(k, d) == k * d
  {
    if k > 0 {
      TimesIs(k - 1, d);
      assert k * d == (k - 1) * d + d;
    }
  }

  lemma {:induction false} TimesRises(a: nat, b: nat, d: nat)
    requires a <= b
    ensures Times(a, d) <= Times(b, d)
  {
    if a < b { TimesRises(a, b - 1, d); }
  }

  lemma SmallMod(a: int, d: int)
    requires 0 <= a < d
    ensures a % d == a
  {
  }

  lemma DivDiv(x: nat, d: nat)
    requires d > 0
    ensures d * 0x100 > 0 && x / (d * 0x100) == x / d / 0x100
  {
    var q, r := x / d / 0x100, x / d % 0x100;
    assert x == (q * 0x100 + r) * d + x % d;
    assert (q * 0x100 + r) * d == q * (d * 0x100) + r * d;
    MulMono(0, r, d);
    MulMono(r, 0xFF, d);
    DivModUnique(x, d * 0x100, q, r * d + x % d);
  }

  /** A 32-bit word is the sum of its bytes. */
  lemma FourBytes(x: u32)
    ensures x == x % 0x100 + 0x100 * (x / 0x100 % 0x100) + 0x1_0000 * (x / 0x1_0000 % 0x100) + 0x100_0000 * (x / 0x100_0000 % 0x100)
  {
    DivDiv(x, 0x100);
    DivDiv(x, 0x1_0000);
    var q1, q2, q3 := x / 0x100, x / 0x1_0000, x / 0x100_0000;
    assert q2 == q1 / 0x100 && q3 == q2 / 0x100;
    assert q3 < 0x100;
    assert x == 0x100 * q1 + x % 0x100 && q1 == 0x100 * q2 + q1 % 0x100 && q2 == 0x100 * q3 + q2 % 0x100;
  }

  // ----- powers of two ----------------------------------------------------

  lemma {:induction false} Pow2Add(a: nat, b: nat)
    ensures Pow2(a + b) == Pow2(a) * Pow2(b)
  {
    if a == 0 {
    } else {
      Pow2Add(a - 1, b);
      assert Pow2(a + b) == 2 * Pow2(a - 1 + b);
    }
  }

  lemma {:induction false} Pow2Mono(a: nat, b: nat)
    requires a <= b
    ensures Pow2(a) <= Pow2(b)
  {
    if a < b { Pow2Mono(a, b - 1); }
  }

  lemma {:induction false} Pow2Strict(a: nat, b: nat)
    requires Pow2(a) < Pow2(b)
    ensures a < b
  {
    if b <= a { Pow2Mono(b, a); }
  }

  /** The k low bits of x. */
  function LowBits(x: nat, k: nat): nat
  {
    if k == 0 then 0 else 2 * LowBits(x / 2, k - 1) + x % 2
  }

  lemma {:induction false} LowBitsIsMod(x: nat, k: nat)
    ensures LowBits(x, k) == x % Pow2(k)
  {
    if k > 0 {
      LowBitsIsMod(x / 2, k - 1);
      ModDouble(x, Pow2(k - 1));
    }
  }

  lemma {:induction false} LowBitsOfZero(k: nat)
    ensures LowBits(0, k) == 0
  {
    if k > 0 { LowBitsOfZero(k - 1); }
  }

  lemma {:induction false} AndLowBits(x: nat, k: nat)
    ensures And(x, Pow2(k) - 1) == LowBits(x, k)
  {
    if x == 0 {
      LowBitsOfZero(k);
    } else if k > 0 {
      assert (Pow2(k) - 1) / 2 == Pow2(k - 1) - 1 && (Pow2(k) - 1) % 2 == 1;
      AndLowBits(x / 2, k - 1);
    }
  }

  /** Masking with 2^k - 1 is the remainder by 2^k. */
  lemma AndMask(x: nat, k: nat)
    ensures And(x, Pow2(k) - 1) == x % Pow2(k)
  {
    AndLowBits(x, k);
    LowBitsIsMod(x, k);
  }

  lemma ModDouble(x: nat, p: nat)
    requires p > 0
    ensures x % (2 * p) == 2 * ((x / 2) % p) + x % 2
  {
    var y := x / 2;
    var q, r := y / p, y % p;
    assert y == q * p + r;
    assert q * (2 * p) == 2 * (q * p);
    assert x == q * (2 * p) + (2 * r + x % 2);
    DivModUnique(x, 2 * p, q, 2 * r + x % 2);
  }
}

/** Unsigned machine integers and the bitwise operators the source applies
    to them, defined on mathematical integers so that their arithmetic
    meaning can be proved once and used everywhere. */
module Bits {

  /** Rust's `u8`. */
  type u8 = x: int | 0 <= x < 0x100

  /** Rust's `u16`. */
  type u16 = x: int | 0 <= x < 0x1_0000

  function Pow2(n: nat): (p: nat)
    ensures p >= 1
  {
    if n == 0 then 1 else 2 * Pow2(n - 1)
  }

  /** Bitwise AND (`&`), bit by bit from the least significant. */
  function And(a: nat, b: nat): (r: nat)
    decreases a
  {
    if a == 0 || b == 0 then 0
    else 2 * And(a / 2, b / 2) + (if a % 2 == 1 && b % 2 == 1 then 1 else 0)
  }

  /** Bitwise OR (`|`), bit by bit from the least significant. */
  function Or(a: nat, b: nat): (r: nat)
    decreases a + b
  {
    if a == 0 then b
    else if b == 0 then a
    else 2 * Or(a / 2, b / 2) + (if a % 2 == 1 || b % 2 == 1 then 1 else 0)
  }

  /** `a << n` on a `u16`: bits shifted past bit 15 are lost. */
  function Shl16(a: u16, n: nat): u16
  {
    (a * Pow2(n)) % 0x1_0000
  }

  /** `a >> n`: `n` halvings, each dropping the lowest bit. */
  function Shr(a: nat, n: nat): nat
  {
    if n == 0 then a else Shr(a / 2, n - 1)
  }

  /** `x as u8`: keeps the low eight bits. */
  function AsU8(x: nat): (r: u8)
    ensures x < 0x100 ==> r == x
  {
    x % 0x100
  }

  /** `a + b` on `u16` in a release build: wraps around. */
  function WrappingAdd(a: u16, b: u16): (r: u16)
    ensures a + b < 0x1_0000 ==> r == a + b
    ensures a + b >= 0x1_0000 ==> r == a + b - 0x1_0000
  {
    (a + b) % 0x1_0000
  }

  /** `a - b` on `u16` in a release build: wraps around. */
  function WrappingSub(a: u16, b: u16): (r: u16)
    ensures a >= b ==> r == a - b
    ensures a < b ==> r == a - b + 0x1_0000
  {
    (a - b) % 0x1_0000
  }

  lemma DivMulPow2(a: nat, k: nat)
    requires k >= 1
    ensures a / Pow2(k) == (a / 2) / Pow2(k - 1)
    ensures a % Pow2(k) == 2 * ((a / 2) % Pow2(k - 1)) + a % 2
  {
    var p := Pow2(k - 1);
    assert Pow2(k) == 2 * p;
    var q, r := (a / 2) / p, (a / 2) % p;
    assert a / 2 == q * p + r;
    assert a == 2 * (q * p + r) + a % 2;
    assert a == q * (2 * p) + (2 * r + a % 2);
    assert 0 <= 2 * r + a % 2 < 2 * p;
    DivModUnique(a, 2 * p, q, 2 * r + a % 2);
  }

  /** Shifting right by `n` is dividing by 2^n. */
  lemma {:induction false} ShrDiv(a: nat, n: nat)
    ensures Shr(a, n) == a / Pow2(n)
  {
    if n > 0 {
      ShrDiv(a / 2, n - 1);
      DivMulPow2(a, n);
    }
  }

  lemma MulAtLeast(x: int, d: int)
    requires x >= 1 && d > 0
    ensures x * d >= d
  {
    var y := x - 1;
    assert x * d == y * d + d;
    assert y * d >= 0;
  }

  lemma Double(x: int, p: int)
    ensures 2 * (x * p) == x * (2 * p)
  {
  }

  /** Quotient and remainder are unique. */
  lemma DivModUnique(a: int, d: int, q: int, r: int)
    requires d > 0 && 0 <= r < d && a == q * d + r
    ensures a / d == q && a % d == r
  {
    var q', r' := a / d, a % d;
    assert a == q' * d + r';
    if q' > q {
      assert (q' - q) * d == r - r';
      MulAtLeast(q' - q, d);
    } else if q' < q {
      assert (q - q') * d == r' - r;
      MulAtLeast(q - q', d);
    }
  }

  /** Masking with the low `k` bits keeps the remainder modulo 2^k. */
  lemma {:induction false} AndLowMask(a: nat, k: nat)
    ensures And(a, Pow2(k) - 1) == a % Pow2(k)
  {
    if k == 0 {
    } else if a == 0 {
    } else {
      var m := Pow2(k) - 1;
      assert m % 2 == 1 && m / 2 == Pow2(k - 1) - 1;
      AndLowMask(a / 2, k - 1);
      DivMulPow2(a, k);
      var low := And(a / 2, m / 2);
      assert low == (a / 2) % Pow2(k - 1);
      assert And(a, m) == 2 * low + a % 2;
    }
  }

  /** Masking with `m` shifted left by `k` (the `mask` argument) is masking
      the value shifted right by `k` (the `high` argument), then shifting
      back. */
  lemma {:induction false} AndShiftedMask(a: nat, m: nat, k: nat, mask: nat, high: nat)
    requires mask == m * Pow2(k) && high == a / Pow2(k)
    ensures And(a, mask) == And(high, m) * Pow2(k)
    decreases k, 1
  {
    if k == 0 {
    } else if a == 0 {
      DivMulPow2(a, k);
    } else if m == 0 {
      assert mask == 0;
    } else {
      AndShiftedMaskStep(a, m, k, mask, high);
    }
  }

  lemma {:induction false} AndShiftedMaskStep(a: nat, m: nat, k: nat, mask: nat, high: nat)
    requires mask == m * Pow2(k) && high == a / Pow2(k)
    requires k >= 1 && a > 0 && m > 0
    ensures And(a, mask) == And(high, m) * Pow2(k)
    decreases k, 0
  {
    var p := Pow2(k - 1);
    var half := m * p;
    assert mask == 2 * half by {
      assert Pow2(k) == 2 * p;
    }
    assert half >= 1 by { MulAtLeast(m, p); }
    assert high == (a / 2) / p by { DivMulPow2(a, k); }
    AndShiftedMask(a / 2, m, k - 1, half, high);
    var x := And(high, m);
    assert And(a, mask) == 2 * And(a / 2, half);
    assert Pow2(k) == 2 * p;
    Double(x, p);
  }

  /** OR-ing a value below 2^k with a multiple of 2^k adds them: the bits
      are disjoint. */
  lemma {:induction false} OrDisjoint(lo: nat, hi: nat, k: nat)
    requires lo < Pow2(k)
    ensures Or(lo, hi * Pow2(k)) == lo + hi * Pow2(k)
  {
    if lo == 0 || hi == 0 {
      if hi == 0 { assert hi * Pow2(k) == 0; }
    } else {
      assert k >= 1;
      var p := Pow2(k - 1);
      assert Pow2(k) == 2 * p;
      assert hi * Pow2(k) == 2 * (hi * p);
      assert (hi * Pow2(k)) % 2 == 0 && (hi * Pow2(k)) / 2 == hi * p;
      OrDisjoint(lo / 2, hi, k - 1);
    }
  }

  /** `x & 0xff` is the low byte. */
  lemma AndLowByte(x: nat)
    ensures And(x, 0xFF) == x % 0x100
  {
    AndLowMask(x, 8);
  }

  /** `(x & 0xff00) >> 8` selects the high byte. */
  lemma AndHighByte(x: u16)
    ensures Shr(And(x, 0xFF00), 8) == x / 0x100
  {
    var high := x / 0x100;
    assert Pow2(8) == 0x100;
    ShrDiv(And(x, 0xFF00), 8);
    AndShiftedMask(x, 0xFF, 8, 0xFF00, high);
    assert And(x, 0xFF00) == And(high, 0xFF) * 0x100;
    assert high < 0x100 by {
      if high >= 0x100 {
        MulAtLeast(high - 0xFF, 0x100);
      }
    }
    AndLowMask(high, 8);
    assert And(high, 0xFF) == high % 0x100;
    DivModUnique(high, 0x100, 0, high);
    DivModUnique(high * 0x100, 0x100, high, 0);
  }

  /** `(x & 0xf00) >> 8` selects the low nibble of the high byte. */
  lemma AndHighNibble(x: u16)
    ensures Shr(And(x, 0xF00), 8) == (x / 0x100) % 0x10
  {
    assert Pow2(8) == 0x100;
    assert Pow2(4) == 0x10;
    ShrDiv(And(x, 0xF00), 8);
    AndShiftedMask(x, 0xF, 8, 0xF00, x / 0x100);
    AndLowMask(x / 0x100, 4);
  }

  /** A byte OR-ed with a value shifted into the high byte packs both. */
  lemma OrHighByte(lo: u8, hi: u8)
    ensures Or(lo, Shl16(hi, 8)) == lo + 0x100 * hi
  {
    assert Pow2(8) == 0x100;
    assert Shl16(hi, 8) == hi * 0x100;
    OrDisjoint(lo, hi, 8);
  }
}

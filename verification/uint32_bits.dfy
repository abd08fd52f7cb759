/** 32-bit unsigned arithmetic as C performs it on `uint32_t`: a left
    shift multiplies by a power of two and drops every bit past bit 31,
    and `|` is bitwise OR. Values are natural numbers below 2^32. */
module Uint32Bits {

  const UINT32_LIMIT: nat := 0x1_0000_0000

  type uint32 = x: nat | x < UINT32_LIMIT

  function Pow2(k: nat): (p: nat)
    ensures p >= 1
  {
    if k == 0 then 1 else 2 * Pow2(k - 1)
  }

  lemma {:induction false} Pow2Add(a: nat, b: nat)
    ensures Pow2(a + b) == Pow2(a) * Pow2(b)
  {
    if a > 0 {
      Pow2Add(a - 1, b);
      assert Pow2(a + b) == 2 * Pow2(a - 1 + b);
    }
  }

  lemma Pow2Uint32()
    ensures Pow2(32) == UINT32_LIMIT
  {
    assert Pow2(8) == 256;
    Pow2Add(8, 8);
    Pow2Add(16, 16);
  }

  lemma {:induction false} Pow2Monotone(a: nat, b: nat)
    requires a <= b
    ensures Pow2(a) <= Pow2(b)
  {
    if a < b {
      Pow2Monotone(a, b - 1);
    }
  }

  /** Quotient and remainder are unique: dividing q * d + r by d, with
      r below d, gives back q and r. */
  lemma DivModUnique(q: nat, r: nat, d: nat)
    requires r < d
    ensures (q * d + r) / d == q && (q * d + r) % d == r
  {
    var n := q * d + r;
    var q', r' := n / d, n % d;
    assert (q - q') * d == r' - r;
    MultipleOfDivisor(q - q', d);
  }

  /** A nonzero multiple of d is at least d away from zero. */
  lemma MultipleOfDivisor(k: int, d: nat)
    ensures k >= 1 ==> k * d >= d
    ensures k <= -1 ==> k * d + d <= 0
  {
  }

  /** Neither the quotient nor the remainder exceeds the dividend. */
  lemma DivModAtMost(x: nat, d: nat)
    requires d >= 1
    ensures x / d <= x && x % d <= x
  {
    var q, r := x / d, x % d;
    assert x == q * d + r;
    MulAtLeast(q, d);
  }

  lemma MulAtLeast(q: nat, d: nat)
    requires d >= 1
    ensures q <= q * d
  {
  }

  lemma MulAssoc(a: nat, b: nat, c: nat)
    ensures a * (b * c) == b * (a * c)
  {
  }

  /** Multiplying by a positive factor keeps a strict bound. */
  lemma MulBound(x: nat, bound: nat, factor: nat)
    requires x < bound && factor > 0
    ensures x * factor < bound * factor
  {
  }

  /** `x << k` on a 32-bit unsigned value (k below 32): the bits moved
      past bit 31 are discarded, so what remains is the low 32 - k bits
      of x, moved up by k places. */
  function ShiftLeft(x: uint32, k: nat): (r: uint32)
    requires k < 32
    ensures r == (x % Pow2(32 - k)) * Pow2(k)
  {
    Pow2Uint32();
    ShiftKeepsLowBits(x, k);
    (x * Pow2(k)) % UINT32_LIMIT
  }

  /** Multiplying by 2^k and reducing modulo 2^32 drops exactly the bits
      of x at position 32 - k and above. */
  lemma ShiftKeepsLowBits(x: nat, k: nat)
    requires k < 32
    ensures (x * Pow2(k)) % UINT32_LIMIT == (x % Pow2(32 - k)) * Pow2(k)
  {
    Pow2Split(k);
    KeepLowPart(x, Pow2(32 - k), Pow2(k), UINT32_LIMIT);
  }

  /** With l = p * n: (x * n) mod l is (x mod p) * n. */
  lemma KeepLowPart(x: nat, p: nat, n: nat, l: nat)
    requires p > 0 && n > 0 && l == p * n
    ensures (x * n) % l == (x % p) * n
  {
    var q, r := x / p, x % p;
    assert x * n == q * l + r * n by {
      Distribute(q, p, r, n);
    }
    MulBound(r, p, n);
    DivModUnique(q, r * n, l);
  }

  lemma Distribute(q: nat, p: nat, r: nat, n: nat)
    ensures (q * p + r) * n == q * (p * n) + r * n
  {
  }

  /** 2^k * 2^(32 - k) is 2^32. */
  lemma Pow2Split(k: nat)
    requires k <= 32
    ensures Pow2(k) * Pow2(32 - k) == UINT32_LIMIT
  {
    Pow2Uint32();
    Pow2Add(k, 32 - k);
  }

  /** Reducing a multiple of p modulo a multiple of p leaves a multiple of p. */
  lemma RemainderOfMultiple(x: nat, p: nat, q: nat)
    requires p > 0 && q > 0
    ensures var r := (x * p) % (p * q); r % p == 0 && r == (r / p) * p
  {
    var n := p * q;
    var y := x * p;
    var m, r := y / n, y % n;
    assert y == m * n + r;
    MultipleRemainder(x, p, q, n, m, r);
    DivModUnique(x - m * q, 0, p);
  }

  /** A left shift by k leaves the k low bits clear, whatever x is: the
      result is a multiple of 2^k. */
  lemma ShiftLeftClearsLowBits(x: uint32, k: nat)
    requires k < 32
    ensures ShiftLeft(x, k) % Pow2(k) == 0
    ensures ShiftLeft(x, k) == (ShiftLeft(x, k) / Pow2(k)) * Pow2(k)
  {
    Pow2Split(k);
    RemainderOfMultiple(x, Pow2(k), Pow2(32 - k));
  }

  /** What is left of x * p after taking away m whole multiples of p * q
      is still a multiple of p. */
  lemma MultipleRemainder(x: nat, p: nat, q: nat, n: nat, m: nat, r: nat)
    requires p > 0 && n == p * q && x * p == m * n + r
    ensures x - m * q >= 0 && r == (x - m * q) * p
  {
    assert r == (x - m * q) * p;
  }

  /** A number below the modulus is its own remainder. */
  lemma ModSmall(a: nat, n: nat)
    requires a < n
    ensures a % n == a
  {
    DivModUnique(0, a, n);
  }

  /** A left shift of a value with no bit set at 32 - k or above loses
      nothing: it is multiplication by 2^k. */
  lemma ShiftLeftNoWrap(x: uint32, k: nat)
    requires k < 32 && x < Pow2(32 - k)
    ensures ShiftLeft(x, k) == x * Pow2(k)
  {
    Pow2Split(k);
    MulBound(x, Pow2(32 - k), Pow2(k));
    ModSmall(x * Pow2(k), UINT32_LIMIT);
  }

  /** Bitwise OR of two natural numbers, one bit at a time from the
      least significant end. */
  function Or(a: nat, b: nat): nat
    decreases a + b
  {
    if a == 0 && b == 0 then 0
    else 2 * Or(a / 2, b / 2) + (if a % 2 == 1 || b % 2 == 1 then 1 else 0)
  }

  lemma {:induction false} OrZero(a: nat)
    ensures Or(a, 0) == a
  {
    if a != 0 {
      OrZero(a / 2);
    }
  }

  lemma {:induction false} OrCommutes(a: nat, b: nat)
    ensures Or(a, b) == Or(b, a)
    decreases a + b
  {
    if a != 0 || b != 0 {
      OrCommutes(a / 2, b / 2);
    }
  }

  /** OR-ing a multiple of 2^k with a number below 2^k adds them: the two
      occupy disjoint bits. */
  lemma {:induction false} OrDisjoint(m: nat, k: nat, b: nat)
    requires b < Pow2(k)
    ensures Or(m * Pow2(k), b) == m * Pow2(k) + b
  {
    if k == 0 {
      assert b == 0;
      OrZero(m * Pow2(k));
    } else {
      var a := m * Pow2(k);
      assert a == 2 * (m * Pow2(k - 1));
      if a == 0 && b == 0 {
      } else {
        OrDisjoint(m, k - 1, b / 2);
        assert a / 2 == m * Pow2(k - 1);
        assert a % 2 == 0;
      }
    }
  }

  /** OR never sets a bit at position n or above that neither operand has. */
  lemma {:induction false} OrBound(a: nat, b: nat, n: nat)
    requires a < Pow2(n) && b < Pow2(n)
    ensures Or(a, b) < Pow2(n)
  {
    if n > 0 && (a != 0 || b != 0) {
      OrBound(a / 2, b / 2, n - 1);
    }
  }

  /** Bit 0 of an OR is the OR of the operands' bits 0. */
  lemma OrLowBit(a: nat, b: nat)
    ensures Or(a, b) % 2 == (if a % 2 == 1 || b % 2 == 1 then 1 else 0)
  {
  }

  /** OR lies between the larger operand and the sum of both: it keeps
      every bit of each operand and adds no carries. */
  lemma {:induction false} OrBetween(a: nat, b: nat)
    ensures a <= Or(a, b) && b <= Or(a, b) && Or(a, b) <= a + b
    decreases a + b
  {
    if a != 0 || b != 0 {
      OrBetween(a / 2, b / 2);
    }
  }

  /** `a | b` on 32-bit unsigned values: at least each operand, at most
      their sum, and bit 0 set when either operand has it. */
  function Or32(a: uint32, b: uint32): (r: uint32)
    ensures a <= r && b <= r && r <= a + b
    ensures r % 2 == (if a % 2 == 1 || b % 2 == 1 then 1 else 0)
  {
    Pow2Uint32();
    OrBound(a, b, 32);
    OrBetween(a, b);
    Or(a, b)
  }
}

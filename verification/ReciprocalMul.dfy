/** Fixed-point multiplication at scale `10^8`, where a reciprocal and a shift replace the division. */
module ReciprocalMul {
  import opened Arith

  const SCALE := 100000000
  const TWO_127 := 0x8000_0000_0000_0000_0000_0000_0000_0000
  const INVERSE := TWO_64 / SCALE + 1
  /** How much the reciprocal overshoots. */
  const EXCESS := INVERSE * SCALE - TWO_64
  /** One unit in the last place of the result, on the scale of `Overshoot`. */
  const UNIT := SCALE * TWO_64

  /** Two's complement of 128 and of 64 bits. */
  function Wrap128(x: int): int {
    (x + TWO_127) % (2 * TWO_127) - TWO_127
  }

  function Wrap64(x: int): int {
    (x + TWO_64 / 2) % TWO_64 - TWO_64 / 2
  }

  /**
   * What `operator*` makes of the product `n` of two raw values: `n` times the reciprocal in 128 bits,
   * shifted right by 64 and cut to 64 bits.
   */
  function Rescale(n: int): int {
    Wrap64(Wrap128(Wrap128(n) * INVERSE) / TWO_64)
  }

  /** The product with the reciprocal does not overflow its 128 bits. */
  predicate Fits128(n: int) {
    -TWO_127 <= n * INVERSE < TWO_127
  }

  /** What the reciprocal adds on top of the quotient, in units of `UNIT`. */
  function Overshoot(n: nat): nat {
    n % SCALE * TWO_64 + n * EXCESS
  }

  lemma Constants()
    ensures INVERSE == 184467440738 && EXCESS == 90448384
  {
  }

  /** Where the 128-bit product does not overflow, the 64-bit result is exact too. */
  lemma NoWrap(n: int)
    requires Fits128(n)
    ensures Rescale(n) == n * INVERSE / TWO_64
  {
    Constants();
    assert Wrap128(n) == n && Wrap128(n * INVERSE) == n * INVERSE;
  }

  /** The product with the reciprocal is the quotient, the whole units of overshoot, and a part below the shift. */
  lemma Split(n: nat) returns (w: nat)
    ensures w < TWO_64
    ensures n * INVERSE == (n / SCALE + Overshoot(n) / UNIT) * TWO_64 + w
    ensures w == 0 <==> Overshoot(n) % UNIT == 0
  {
    Constants();
    w := n * INVERSE - (n / SCALE + Overshoot(n) / UNIT) * TWO_64;
    assert SCALE * w == Overshoot(n) % UNIT;
  }

  /** A non-negative product comes out at the quotient and the whole units of overshoot. */
  lemma NonNegativeProduct(n: nat)
    requires Fits128(n)
    ensures Rescale(n) == n / SCALE + Overshoot(n) / UNIT
  {
    NoWrap(n);
    var w := Split(n);
  }

  /** The least whole number of units that covers `x`. */
  function UnitsUp(x: nat): nat {
    if x % UNIT == 0 then x / UNIT else x / UNIT + 1
  }

  lemma FloorOfNegative(q: int, w: nat)
    requires w < TWO_64
    ensures -(q * TWO_64 + w) / TWO_64 == if w == 0 then -q else -q - 1
  {
    if w == 0 {
      DivUnique(-(q * TWO_64), TWO_64, -q, 0);
    } else {
      DivUnique(-(q * TWO_64 + w), TWO_64, -q - 1, TWO_64 - w);
    }
  }

  /** The shift floors: a negative product comes out below its truncated quotient by the overshoot rounded up. */
  lemma NegativeProduct(m: nat)
    requires Fits128(0 - m)
    ensures Rescale(0 - m) == -(m / SCALE) - UnitsUp(Overshoot(m))
  {
    NoWrap(0 - m);
    NegativeShift(m);
  }

  lemma NegativeShift(m: nat)
    ensures (0 - m) * INVERSE / TWO_64 == -(m / SCALE) - UnitsUp(Overshoot(m))
  {
    var w := Split(m);
    FloorOfNegative(m / SCALE + Overshoot(m) / UNIT, w);
  }

  /**
   * Wherever the product does not overflow, the result is the truncated quotient exactly on non-negative products
   * whose overshoot stays below a unit.
   */
  lemma ExactIff(n: int)
    requires Fits128(n)
    ensures Rescale(n) == Quotient(n, SCALE) <==> n >= 0 && n % SCALE * TWO_64 + n * EXCESS < UNIT
  {
    if n >= 0 {
      NonNegativeProduct(n);
      NoUnits(Overshoot(n));
    } else {
      NegativeProduct(-n);
      SomeUnits(-n);
    }
  }

  lemma NoUnits(x: nat)
    ensures x / UNIT == 0 <==> x < UNIT
  {
  }

  lemma SomeUnits(m: nat)
    requires m > 0
    ensures UnitsUp(Overshoot(m)) >= 1
  {
    Constants();
    NoUnits(Overshoot(m));
  }

  /** Small products are exact. */
  lemma SmallProduct(n: nat)
    requires n * EXCESS < TWO_64
    ensures Rescale(n) == n / SCALE
  {
    Constants();
    NonNegativeProduct(n);
  }

  /** Up to an excess of one unit the result is the quotient, or one more exactly when the overshoot reaches a unit. */
  lemma AtMostOneMore(n: nat)
    requires n * EXCESS <= UNIT
    ensures Fits128(n) && Rescale(n) == n / SCALE + (if Overshoot(n) < UNIT then 0 else 1)
  {
    Constants();
    NonNegativeProduct(n);
  }

  /** A hundred thousand times one comes out 49 units high. */
  lemma HundredThousandTimesOne()
    ensures Rescale(100000 * SCALE * SCALE) == 100000 * SCALE + 49
  {
    Constants();
    NonNegativeProduct(100000 * SCALE * SCALE);
  }

  /** Minus one times one comes out one unit in the last place below minus one. */
  lemma MinusOneTimesOne()
    ensures Rescale(-SCALE * SCALE) == -SCALE - 1 && Quotient(-SCALE * SCALE, SCALE) == -SCALE
  {
    Constants();
    NegativeProduct(SCALE * SCALE);
  }
}

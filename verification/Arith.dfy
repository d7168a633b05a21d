/** Machine-word limits, the division of the source language, and integer facts about products of two variables. */
module Arith {
  const TWO_32 := 0x1_0000_0000
  const TWO_64 := 0x1_0000_0000_0000_0000

  function Abs(x: int): nat {
    if x < 0 then -x else x
  }

  /** Division that truncates toward zero; 0 where the division is undefined. */
  function Quotient(x: int, y: int): (r: int)
    ensures x >= 0 && y > 0 ==> r == x / y
  {
    if y == 0 then 0
    else
      var q := Abs(x) / Abs(y);
      if (x < 0) == (y < 0) then q else -q
  }

  lemma MulAtLeast(d: int, m: int)
    requires d >= 1 && m >= 0
    ensures d * m >= m
  {
    assert (d - 1) * m >= 0;
  }

  lemma MulSub(a: int, b: int, m: int)
    ensures (a - b) * m == a * m - b * m
  {}

  /** Quotient and remainder are determined by the division equation. */
  lemma DivUnique(x: int, m: int, q: int, r: int)
    requires 0 <= r < m && x == q * m + r
    ensures x / m == q && x % m == r
  {
    var q', r' := x / m, x % m;
    assert x == q' * m + r';
    MulSub(q', q, m);
    if q' > q {
      MulAtLeast(q' - q, m);
      assert false;
    } else if q' < q {
      MulSub(q, q', m);
      MulAtLeast(q - q', m);
      assert false;
    }
  }

  lemma Division(x: int, m: int) returns (q: int, r: int)
    requires m > 0
    ensures q == x / m && r == x % m && 0 <= r < m && x == q * m + r
    ensures x >= 0 ==> q >= 0
  {
    q, r := x / m, x % m;
    if x >= 0 && q < 0 {
      MulAtLeast(-q, m);
    }
  }

  lemma NonPositiveProduct(d: int, m: int)
    requires d <= 0 && m >= 0
    ensures d * m <= 0
  {}

  lemma PositiveFactor(d: int, m: int)
    requires m > 0 && d * m > 0
    ensures d >= 1
  {
    if d <= 0 { NonPositiveProduct(d, m); }
  }
}

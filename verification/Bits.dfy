/** Unsigned machine words, their bitwise operations, and the order book's bit searches. */
module Bits {
  import opened Arith

  /** A `uint64_t`. */
  type Word = w: nat | w < TWO_64

  function Pow2(n: nat): (r: nat)
    ensures r > 0
  {
    if n == 0 then 1 else 2 * Pow2(n - 1)
  }

  lemma {:induction false} Pow2Grows(a: nat, b: nat)
    requires a <= b
    ensures Pow2(a) <= Pow2(b)
  {
    if a < b { Pow2Grows(a, b - 1); }
  }

  lemma {:induction false} Pow2Sum(a: nat, b: nat)
    ensures Pow2(a + b) == Pow2(a) * Pow2(b)
  {
    if a > 0 {
      Pow2Sum(a - 1, b);
      var x, y := Pow2(a - 1), Pow2(b);
      assert 2 * (x * y) == (2 * x) * y;
    }
  }

  lemma Pow2Square(a: nat, p: nat)
    requires Pow2(a) == p
    ensures Pow2(2 * a) == p * p
  {
    Pow2Sum(a, a);
  }

  lemma Pow2Of64()
    ensures Pow2(32) == TWO_32 && Pow2(64) == TWO_64
  {
    assert Pow2(4) == 16;
    Pow2Square(4, 16);
    Pow2Square(8, 0x100);
    Pow2Square(16, 0x1_0000);
    Pow2Square(32, 0x1_0000_0000);
  }

  /** Bit `i` of `w`; negative positions hold no bit. */
  predicate Bit(w: nat, i: int)
    decreases i
  {
    if i < 0 then false
    else if i == 0 then w % 2 == 1
    else Bit(w / 2, i - 1)
  }

  /** Bitwise `&`. */
  function And(a: nat, b: nat): (r: nat)
    ensures r <= a && r <= b
  {
    if a == 0 || b == 0 then 0
    else (if a % 2 == 1 && b % 2 == 1 then 1 else 0) + 2 * And(a / 2, b / 2)
  }

  /** Bitwise `|`. */
  function Or(a: nat, b: nat): (r: nat)
    decreases a + b
  {
    if a == 0 then b
    else if b == 0 then a
    else (if a % 2 == 1 || b % 2 == 1 then 1 else 0) + 2 * Or(a / 2, b / 2)
  }

  /** `1ULL << i`. */
  function One(i: nat): (r: Word)
    requires i < 64
  {
    Pow2Of64();
    Pow2Grows(i + 1, 64);
    Pow2(i)
  }

  /** Bitwise complement of a 64-bit word. */
  function Not(w: Word): Word {
    TWO_64 - 1 - w
  }

  // ----- bits of the results -----

  lemma {:induction false} ZeroNoBit(j: int)
    ensures !Bit(0, j)
    decreases j
  {
    if j > 0 { ZeroNoBit(j - 1); }
  }

  lemma {:induction false} HighNoBit(w: nat, n: nat, j: int)
    requires w < Pow2(n) && n <= j
    ensures !Bit(w, j)
  {
    if n == 0 { ZeroNoBit(j); } else { HighNoBit(w / 2, n - 1, j - 1); }
  }

  /** A 64-bit word holds bits at positions 0 to 63 only. */
  lemma BitInWord(w: Word, j: int)
    ensures Bit(w, j) ==> 0 <= j < 64
  {
    Pow2Of64();
    if j >= 64 { HighNoBit(w, 64, j); }
  }

  lemma {:induction false} AndBit(a: nat, b: nat, j: int)
    ensures Bit(And(a, b), j) <==> Bit(a, j) && Bit(b, j)
    decreases j
  {
    if a == 0 || b == 0 {
      ZeroNoBit(j);
    } else if j > 0 {
      AndBit(a / 2, b / 2, j - 1);
    }
  }

  lemma {:induction false} OrBit(a: nat, b: nat, j: int)
    ensures Bit(Or(a, b), j) <==> Bit(a, j) || Bit(b, j)
    decreases j
  {
    if a == 0 || b == 0 {
      ZeroNoBit(j);
    } else if j > 0 {
      OrBit(a / 2, b / 2, j - 1);
    }
  }

  lemma {:induction false} OrWidth(a: nat, b: nat, n: nat)
    requires a < Pow2(n) && b < Pow2(n)
    ensures Or(a, b) < Pow2(n)
  {
    if a != 0 && b != 0 { OrWidth(a / 2, b / 2, n - 1); }
  }

  lemma {:induction false} Pow2Bit(i: nat, j: int)
    ensures Bit(Pow2(i), j) <==> j == i
    decreases j
  {
    if j > 0 {
      if i == 0 { ZeroNoBit(j - 1); } else { Pow2Bit(i - 1, j - 1); }
    }
  }

  lemma {:induction false} Pow2LessOneBit(i: nat, j: int)
    ensures Bit(Pow2(i) - 1, j) <==> 0 <= j < i
    decreases j
  {
    if i == 0 { ZeroNoBit(j); } else if j > 0 {
      assert (2 * Pow2(i - 1) - 1) / 2 == Pow2(i - 1) - 1;
      Pow2LessOneBit(i - 1, j - 1);
    }
  }

  lemma {:induction false} ComplementBit(w: nat, n: nat, j: int)
    requires w < Pow2(n)
    ensures Bit(Pow2(n) - 1 - w, j) <==> 0 <= j < n && !Bit(w, j)
    decreases j
  {
    if n == 0 {
      ZeroNoBit(j);
    } else if j > 0 {
      assert (Pow2(n) - 1 - w) / 2 == Pow2(n - 1) - 1 - w / 2;
      ComplementBit(w / 2, n - 1, j - 1);
    }
  }

  lemma NotBit(w: Word, j: int)
    ensures Bit(Not(w), j) <==> 0 <= j < 64 && !Bit(w, j)
  {
    Pow2Of64();
    ComplementBit(w, 64, j);
  }

  lemma {:induction false} SomeBit(w: nat, n: nat) returns (j: int)
    requires 0 < w < Pow2(n)
    ensures 0 <= j < n && Bit(w, j)
  {
    if w % 2 == 1 {
      j := 0;
    } else {
      j := SomeBit(w / 2, n - 1);
      j := j + 1;
    }
  }

  /** A word is zero exactly when it holds no bit. */
  lemma ZeroWord(w: Word)
    ensures w == 0 ==> forall j :: !Bit(w, j)
    ensures w != 0 ==> exists j :: 0 <= j < 64 && Bit(w, j)
  {
    if w == 0 {
      forall j ensures !Bit(w, j) { ZeroNoBit(j); }
    } else {
      Pow2Of64();
      var j := SomeBit(w, 64);
      assert Bit(w, j);
    }
  }

  /** `w & (w - 1)` clears the lowest set bit and keeps every other. */
  lemma {:induction false} DropLowestBit(w: nat, l: int, j: int)
    requires Bit(w, l)
    requires forall i | 0 <= i < l :: !Bit(w, i)
    ensures w > 0 && (Bit(And(w, w - 1), j) <==> j != l && Bit(w, j))
    decreases l
  {
    if w == 0 { ZeroNoBit(l); }
    AndBit(w, w - 1, j);
    if l > 0 {
      assert !Bit(w, 0);
      var h := w / 2;
      forall i | 0 <= i < l - 1 ensures !Bit(h, i) { assert !Bit(w, i + 1); }
      DropLowestBit(h, l - 1, j - 1);
      AndBit(h, h - 1, j - 1);
      assert (w - 1) / 2 == h - 1;
    } else {
      assert (w - 1) / 2 == w / 2;
    }
  }

  /** `|` of a shifted value and a value below the shift is their sum. */
  lemma {:induction false} OrDisjoint(hi: nat, lo: nat, n: nat)
    requires lo < Pow2(n)
    ensures Or(hi * Pow2(n), lo) == hi * Pow2(n) + lo
  {
    if n > 0 && hi != 0 && lo != 0 {
      assert hi * Pow2(n) == 2 * (hi * Pow2(n - 1));
      OrDisjoint(hi, lo / 2, n - 1);
      assert hi * Pow2(n) != 0;
    }
  }

  lemma {:induction false} AndLowPart(x: nat, n: nat, m: nat, q: nat, r: nat)
    requires m == Pow2(n) && r < m && x == q * m + r
    ensures And(x, m - 1) == r
  {
    if n > 0 && x > 0 {
      var p := Pow2(n - 1);
      var y := q * p;
      assert q * m == 2 * y;
      assert (m - 1) / 2 == p - 1 && (m - 1) % 2 == 1;
      assert x / 2 == y + r / 2 && x % 2 == r % 2;
      AndLowPart(x / 2, n - 1, p, q, r / 2);
    }
  }

  /** Masking with `2^n - 1` is the remainder modulo `2^n`. */
  lemma AndMask(x: nat, n: nat, m: nat)
    requires m == Pow2(n)
    ensures And(x, m - 1) == x % m
  {
    var q, r := Division(x, m);
    AndLowPart(x, n, m, q, r);
  }

  // ----- word operations, described by their bits -----

  function Intersect(a: Word, b: Word): (r: Word)
    ensures forall j :: Bit(r, j) <==> Bit(a, j) && Bit(b, j)
  {
    assert forall j :: Bit(And(a, b), j) <==> Bit(a, j) && Bit(b, j) by {
      forall j ensures Bit(And(a, b), j) <==> Bit(a, j) && Bit(b, j) { AndBit(a, b, j); }
    }
    And(a, b)
  }

  /** `w | (1ULL << i)` */
  function SetBit(w: Word, i: nat): (r: Word)
    requires i < 64
    ensures forall j :: Bit(r, j) <==> j == i || Bit(w, j)
    ensures r != 0
  {
    assert forall j :: Bit(Or(w, One(i)), j) <==> j == i || Bit(w, j) by {
      forall j ensures Bit(Or(w, One(i)), j) <==> j == i || Bit(w, j) {
        OrBit(w, One(i), j);
        Pow2Bit(i, j);
      }
    }
    Pow2Of64();
    OrWidth(w, One(i), 64);
    assert Or(w, One(i)) != 0 by { assert Bit(Or(w, One(i)), i); ZeroNoBit(i); }
    Or(w, One(i))
  }

  /** `w & ~(1ULL << i)` */
  function ClearBit(w: Word, i: nat): (r: Word)
    requires i < 64
    ensures forall j :: Bit(r, j) <==> j != i && Bit(w, j)
  {
    assert forall j :: Bit(And(w, Not(One(i))), j) <==> j != i && Bit(w, j) by {
      forall j ensures Bit(And(w, Not(One(i))), j) <==> j != i && Bit(w, j) {
        AndBit(w, Not(One(i)), j);
        NotBit(One(i), j);
        Pow2Bit(i, j);
        BitInWord(w, j);
      }
    }
    And(w, Not(One(i)))
  }

  // ----- search directions -----

  /** `Highest` is the bid side's price priority, `Lowest` the ask side's. */
  datatype Dir = Highest | Lowest {
    /** `a` is strictly ahead of `b` in price priority. */
    predicate Better(a: int, b: int) {
      if Highest? then a > b else a < b
    }
  }

  /** Zero bits above the highest set bit, among the positions below `n`. */
  function LeadingZeros(w: Word, n: nat): (r: nat)
    ensures r <= n
    ensures r < n ==> Bit(w, n - 1 - r)
    ensures forall j | n - r <= j < n :: !Bit(w, j)
  {
    if n == 0 || Bit(w, n - 1) then 0 else 1 + LeadingZeros(w, n - 1)
  }

  /** Zero bits below the lowest set bit, among the positions from `n` up. */
  function TrailingZeros(w: Word, n: nat): (r: nat)
    requires n <= 64
    ensures n + r <= 64
    ensures n + r < 64 ==> Bit(w, n + r)
    ensures forall j | n <= j < n + r :: !Bit(w, j)
    decreases 64 - n
  {
    if n == 64 || Bit(w, n) then 0 else 1 + TrailingZeros(w, n + 1)
  }

  /** `find_bit`: the set bit of a non-zero word that comes first in the search direction. */
  function FindBit(dir: Dir, w: Word): (r: nat)
    requires w != 0
    ensures r < 64 && Bit(w, r)
    ensures forall j | Bit(w, j) :: j == r || dir.Better(r, j)
  {
    ZeroWord(w);
    assert forall j :: Bit(w, j) ==> 0 <= j < 64 by {
      forall j ensures Bit(w, j) ==> 0 <= j < 64 { BitInWord(w, j); }
    }
    if dir.Highest? then 63 - LeadingZeros(w, 64) else TrailingZeros(w, 0)
  }

  /** `make_mask`: exactly the positions strictly behind `off` in the search direction. */
  function MakeMask(dir: Dir, off: nat): (m: Word)
    requires off < 64
    ensures forall j :: Bit(m, j) <==> 0 <= j < 64 && dir.Better(off, j)
  {
    match dir
    case Highest => BelowMask(off)
    case Lowest => AboveMask(off)
  }

  function BelowMask(off: nat): (m: Word)
    requires off < 64
    ensures forall j :: Bit(m, j) <==> 0 <= j < off
  {
    var m := if off == 0 then 0 else One(off) - 1;
    assert forall j :: Bit(m, j) <==> 0 <= j < off by {
      forall j ensures Bit(m, j) <==> 0 <= j < off { Pow2LessOneBit(off, j); ZeroNoBit(j); }
    }
    m
  }

  function AboveMask(off: nat): (m: Word)
    requires off < 64
    ensures forall j :: Bit(m, j) <==> off < j < 64
  {
    var m := if off == 63 then 0 else Not(One(off + 1) - 1);
    assert forall j :: Bit(m, j) <==> off < j < 64 by {
      forall j ensures Bit(m, j) <==> off < j < 64 {
        if off == 63 {
          ZeroNoBit(j);
        } else {
          NotBit(One(off + 1) - 1, j);
          Pow2LessOneBit(off + 1, j);
        }
      }
    }
    m
  }

  /** How `scan_word` drops the bit it has just visited. */
  function DropFirst(dir: Dir, w: Word): (r: Word)
    requires w != 0
    ensures forall j :: Bit(r, j) <==> j != FindBit(dir, w) && Bit(w, j)
  {
    match dir
    case Highest => ClearBit(w, FindBit(dir, w))
    case Lowest =>
      var l := FindBit(dir, w);
      assert forall j :: Bit(And(w, w - 1), j) <==> j != l && Bit(w, j) by {
        forall j ensures Bit(And(w, w - 1), j) <==> j != l && Bit(w, j) { DropLowestBit(w, l, j); }
      }
      And(w, w - 1)
  }
}

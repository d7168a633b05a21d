/** Which of the venue's bounds an order keeps after clamping and rounding. */
module VenueBounds {
  import opened Arith
  import opened LayerBook
  import opened OrderState
  import opened Reconcile
  import opened Wrappers

  /**
   * Rounding comes after the clamp, so an order respects the maximum exactly when the clamp leaves room for the
   * rounding.
   */
  lemma WithinMaximumIff(a: Action, p: Policy)
    requires PolicyOk(p) && a.price > 0
    ensures Clamp(a, p).qty <= p.maxQty <==> ClampQty(a, p) <= p.maxQty - p.maxQty % p.increment
  {
    QuotientNonNegative(p.minUsdt, p.qtyScale, a.price);
    RoundsUp(ClampQty(a, p), p.increment);
    RoundedFits(ClampQty(a, p), RoundQty(ClampQty(a, p), p.increment), p.maxQty, p.increment);
  }

  lemma RoundedFits(q: nat, rounded: int, limit: nat, increment: nat)
    requires Whole(rounded, increment) && q <= rounded < q + increment
    ensures rounded <= limit <==> q <= limit - limit % increment
  {
    var m, r := Division(limit, increment);
    var k, z := Division(rounded, increment);
    MulSub(k, m, increment);
    if k <= m {
      NonPositiveProduct(k - m, increment);
    } else {
      MulAtLeast(k - m, increment);
    }
  }

  // ----- what the clamp changes -----

  /**
   * Only the two quantities of an action change, and an order that keeps all bounds in whole increments goes out as
   * it is.
   */
  lemma ClampKeeps(a: Action, p: Policy)
    ensures Clamp(a, p) == a.(qty := Clamp(a, p).qty, lastQty := Clamp(a, p).lastQty)
    ensures && p.minQty <= a.qty <= p.maxQty && OrderValue(a.price, a.qty, p) >= p.minUsdt
            && Whole(a.qty, p.increment) && Whole(a.lastQty, p.increment)
            ==> Clamp(a, p) == a
  {
    if Whole(a.qty, p.increment) { RoundKeepsWhole(a.qty, p.increment); }
    if Whole(a.lastQty, p.increment) { RoundKeepsWhole(a.lastQty, p.increment); }
  }

  /** The rounded quantity is the least whole increment at or above `q`. */
  ghost predicate RoundedFrom(qty: int, q: int, p: Policy) {
    Whole(qty, p.increment) && q <= qty < q + p.increment
  }

  /** `q` units at `price` are the most that the minimum value buys. */
  ghost predicate MostBought(q: int, price: int, p: Policy) {
    q * price <= p.minUsdt * p.qtyScale < q * price + price
  }

  /** An order above the maximum goes out as the rounded maximum. */
  lemma AboveMaximum(a: Action, p: Policy)
    requires PolicyOk(p) && a.price > 0 && Raised(a, p) > p.maxQty
    ensures RoundedFrom(Clamp(a, p).qty, p.maxQty, p)
  {
    ValuedIsRaised(a, p);
    RoundsUp(p.maxQty, p.increment);
  }

  /** An order of enough value goes out as its own quantity or the minimum, whichever is larger, rounded up. */
  lemma EnoughValue(a: Action, p: Policy)
    requires PolicyOk(p) && a.price > 0 && !TooCheap(a, p) && a.qty <= p.maxQty && p.minQty <= p.maxQty
    ensures RoundedFrom(Clamp(a, p).qty, if a.qty < p.minQty then p.minQty else a.qty, p)
  {
    ValuedIsRaised(a, p);
    RoundsUp(Raised(a, p), p.increment);
  }

  /**
   * An order of too little value goes out as the most units the minimum value buys, rounded up, or as the rounded
   * maximum.
   */
  lemma TooLittleValue(a: Action, p: Policy) returns (q: int)
    requires PolicyOk(p) && a.price > 0 && TooCheap(a, p)
    ensures MostBought(q, a.price, p) && RoundedFrom(Clamp(a, p).qty, if q <= p.maxQty then q else p.maxQty, p)
  {
    ValuedIsRaised(a, p);
    ProductGrows(0, p.qtyScale, p.minUsdt);
    var bought, r := Division(p.minUsdt * p.qtyScale, a.price);
    q := bought;
    RoundsUp(ClampQty(a, p), p.increment);
  }

  // ----- the minimum quantity -----

  lemma ProductGrows(x: nat, y: nat, m: nat)
    requires x <= y
    ensures m * x <= m * y
  {
    NonPositiveProduct(x - y, m);
    MulSub(x, y, m);
  }

  lemma DivAtLeast(x: nat, m: nat, k: int)
    requires m > 0
    ensures x / m >= k <==> x >= k * m
  {
    var q, r := Division(x, m);
    MulSub(q, k, m);
    if q >= k {
      ProductGrows(0, q - k, m);
    } else {
      MulSub(k, q, m);
      MulAtLeast(k - q, m);
    }
  }

  /** An order is worth the minimum exactly when price times quantity reaches the scaled minimum. */
  lemma WorthMinimum(price: nat, qty: nat, p: Policy)
    requires PolicyOk(p)
    ensures OrderValue(price, qty, p) >= p.minUsdt <==> price * qty >= p.minUsdt * p.qtyScale
  {
    ProductGrows(0, qty, price);
    DivAtLeast(price * qty, p.qtyScale, p.minUsdt);
  }

  /** The quantity the minimum value buys is no less than the quantity that was too cheap. */
  lemma ValuedIsRaised(a: Action, p: Policy)
    requires PolicyOk(p) && a.price > 0
    ensures 0 <= p.minQty <= Raised(a, p) <= Valued(a, p)
  {
    if TooCheap(a, p) {
      WorthMinimum(a.price, Raised(a, p), p);
      ProductGrows(0, p.qtyScale, p.minUsdt);
      DivAtLeast(p.minUsdt * p.qtyScale, a.price, Raised(a, p));
      assert Raised(a, p) * a.price == a.price * Raised(a, p);
    }
  }

  /** An order has the minimum quantity exactly when the rounded maximum has. */
  lemma ReachesMinimumQtyIff(a: Action, p: Policy)
    requires PolicyOk(p) && a.price > 0
    ensures Clamp(a, p).qty >= p.minQty <==> RoundQty(p.maxQty, p.increment) >= p.minQty
  {
    ValuedIsRaised(a, p);
    RoundsUp(p.maxQty, p.increment);
    RoundsUp(ClampQty(a, p), p.increment);
  }

  // ----- the minimum value -----

  /**
   * The order's value reaches the minimum: capped orders by the maximum, raised ones by a division without remainder
   * or a rounding that goes up.
   */
  predicate ValueGuard(a: Action, p: Policy)
    requires p.increment > 0 && a.price > 0
  {
    if Valued(a, p) > p.maxQty then a.price * RoundQty(p.maxQty, p.increment) >= p.minUsdt * p.qtyScale
    else TooCheap(a, p) ==> p.minUsdt * p.qtyScale % a.price == 0 || Valued(a, p) % p.increment != 0
  }

  /** Rounding the quantity a value buys reaches that value exactly when nothing was cut off or the rounding goes up. */
  lemma BoughtReaches(n: nat, price: nat, increment: nat)
    requires price > 0 && increment > 0
    ensures n / price >= 0
    ensures price * RoundQty(n / price, increment) >= n <==> n % price == 0 || n / price % increment != 0
  {
    var q, r := Division(n, price);
    RoundsUp(q, increment);
    var rounded := RoundQty(q, increment);
    if q % increment == 0 {
      RoundKeepsWhole(q, increment);
    } else if rounded == q {
      assert Whole(rounded, increment);
    } else {
      ProductGrows(q + 1, rounded, price);
      assert price * (q + 1) == q * price + price;
    }
    ProductGrows(q, rounded, price);
    assert price * q == q * price;
  }

  /** An order's value reaches the venue's minimum exactly under the guard. */
  lemma ReachesMinimumValueIff(a: Action, p: Policy)
    requires PolicyOk(p) && a.price > 0
    ensures OrderValue(a.price, Clamp(a, p).qty, p) >= p.minUsdt <==> ValueGuard(a, p)
  {
    ValuedIsRaised(a, p);
    ClampWhole(a, p);
    WorthMinimum(a.price, Clamp(a, p).qty, p);
    if Valued(a, p) > p.maxQty {
    } else if TooCheap(a, p) {
      ProductGrows(0, p.qtyScale, p.minUsdt);
      BoughtReaches(p.minUsdt * p.qtyScale, a.price, p.increment);
    } else {
      WorthMinimum(a.price, Raised(a, p), p);
      RoundsUp(Raised(a, p), p.increment);
      ProductGrows(Raised(a, p), Clamp(a, p).qty, a.price);
    }
  }

  // ----- orders outside the bounds -----

  /** An order of `qty` at `price`. */
  function Order(price: int, qty: int): Action {
    Action(0, price, qty, Buy, None, 1, NO_ID, 0)
  }

  /** With a maximum of 15 and an increment of 10, an order of 12 goes out as 20. */
  lemma ExceedsMaximum()
    ensures var p := Policy(1, 1, 1, 0, 0, 15, 0, 10, 1); PolicyOk(p) && Clamp(Order(3, 12), p).qty == 20 > p.maxQty
  {
  }

  /** With a minimum value of 10, an order at price 3 goes out as 3 and is worth 9. */
  lemma MissesMinimumValue()
    ensures var p := Policy(1, 1, 1, 10, 0, 100, 0, 1, 1);
            PolicyOk(p) && Clamp(Order(3, 1), p).qty == 3 && OrderValue(3, 3, p) == 9 < p.minUsdt
  {
  }
}

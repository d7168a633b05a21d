/** What the ledger's fields mean: average-cost accounting of the net position and of the two legs. */
module AverageCost {
  import opened Arith
  import opened Wrappers
  import opened Ledger

  /** What the open position has cost. */
  function OpenCost(b: Book): int {
    if b.position > 0 then b.buyOpen else if b.position < 0 then b.sellOpen else 0
  }

  /** The truncated average price of the open position; 0 when flat. */
  function Average(b: Book): int {
    Quotient(OpenCost(b), Abs(b.position))
  }

  ghost predicate BookOk(b: Book) {
    NetOk(b.position, NetOf(b))
  }

  /** How much of the open position a fill closes. */
  function Closed(b: Book, f: Fill): int {
    if Closes(b.position, f) then Min(f.qty, Abs(b.position)) else 0
  }

  /** What one unit closed at `price` gains over the average. */
  function Gain(b: Book, price: int): int {
    if b.position > 0 then price - Average(b) else Average(b) - price
  }

  lemma AverageOf(average: int, n: int)
    requires average >= 0 && n > 0
    ensures Quotient(average * n, n) == average
  {
    ProductNotNegative(average, n);
    DivUnique(average * n, n, average, 0);
  }

  lemma QuotientNotNegative(x: int, n: int)
    requires x >= 0 && n > 0
    ensures Quotient(x, n) >= 0
  {
    var q, r := Division(x, n);
  }

  /** A quotient lies between the factors that bound its dividend. */
  lemma QuotientBetween(x: int, n: int, lo: int, hi: int)
    requires n > 0 && lo * n <= x < hi * n + n
    ensures lo <= x / n <= hi
  {
    var q, r := Division(x, n);
    if q < lo {
      MulSub(lo, q, n);
      MulAtLeast(lo - q, n);
    }
    if q > hi {
      MulSub(q, hi, n);
      MulAtLeast(q - hi, n);
    }
  }

  lemma MixBounds(a: int, p: int, q: int, n: int, r: int)
    requires q > 0 && n >= 0 && 0 <= r < q
    ensures p <= a ==> p * (q + n) <= a * q + r + p * n < a * (q + n) + (q + n)
    ensures a < p ==> a * (q + n) <= a * q + r + p * n < p * (q + n) + (q + n)
  {
    Expand(a, p, q, n);
    if p <= a {
      NonPositiveProduct(p - a, q);
      NonPositiveProduct(p - a, n);
    } else {
      NonPositiveProduct(a - p, q);
      NonPositiveProduct(a - p, n);
    }
  }

  lemma Expand(a: int, p: int, q: int, n: int)
    ensures (p - a) * q == p * q - a * q && (p - a) * n == p * n - a * n
    ensures (a - p) * q == a * q - p * q && (a - p) * n == a * n - p * n
    ensures p * (q + n) == p * q + p * n && a * (q + n) == a * q + a * n
  {
  }

  /** Adding at a price moves a truncated average toward that price and not past it. */
  lemma AverageMovesToward(cost: int, size: int, price: int, qty: int)
    requires cost >= 0 && size > 0 && price >= 0 && qty >= 0
    ensures Nearer(Quotient(cost, size), Quotient(cost + price * qty, size + qty), price)
  {
    var a, r := Division(cost, size);
    ProductNotNegative(price, qty);
    MixBounds(a, price, size, qty, r);
    if price <= a {
      QuotientBetween(cost + price * qty, size + qty, price, a);
    } else {
      QuotientBetween(cost + price * qty, size + qty, a, price);
    }
  }

  /** `after` lies between `before` and `price`. */
  predicate Nearer(before: int, after: int, price: int) {
    price <= after <= before || before <= after <= price
  }

  // ----- one fill on the net position -----

  /**
   * A fill that opens realises nothing, adds its price times its quantity to the cost, and moves the average toward its
   * price and not past it.
   */
  lemma OpeningFill(b: Book, f: Fill)
    requires BookOk(b) && f.qty >= 0 && f.price >= 0 && !Closes(b.position, f)
    ensures var b' := AddFill(b, f);
            && OpenCost(b') == OpenCost(b) + (if b'.position == 0 then 0 else f.price * f.qty)
            && (f.side.None? ==> b'.realised == b.realised)
            && (b.position != 0 ==> Nearer(Average(b), Average(b'), f.price))
  {
    if b.position != 0 { AverageMovesToward(OpenCost(b), Abs(b.position), f.price, f.qty); }
  }

  /** A fill realises exactly what it closes, at its price against the average. */
  lemma FillRealises(b: Book, f: Fill)
    requires BookOk(b) && f.qty >= 0 && f.side.None?
    ensures AddFill(b, f).realised == b.realised + Closed(b, f) * Gain(b, f.price)
  {
    if Closes(b.position, f) {
      SignedGain(Closed(b, f), Average(b), f.price);
    }
  }

  lemma SignedGain(closed: int, average: int, price: int)
    ensures -(closed * (average - price)) == closed * (price - average)
  {
  }

  /** Closing at the average price realises nothing. */
  lemma ClosingAtAverage(b: Book, f: Fill)
    requires BookOk(b) && f.qty >= 0 && f.side.None? && Closes(b.position, f) && f.price == Average(b)
    ensures AddFill(b, f).realised == b.realised
  {
    FillRealises(b, f);
  }

  /** A fill that closes a part keeps the average of the rest. */
  lemma PartialCloseKeepsAverage(b: Book, f: Fill)
    requires BookOk(b) && 0 <= f.qty < Abs(b.position) && Closes(b.position, f)
    ensures var b' := AddFill(b, f);
            Average(b') == Average(b) && OpenCost(b') == Average(b) * Abs(b'.position) && b'.position != 0
  {
    QuotientNotNegative(OpenCost(b), Abs(b.position));
    AverageOf(Average(b), Abs(b.position) - f.qty);
  }

  /** A fill that closes all leaves no cost and nothing unrealised. */
  lemma WholeCloseLeavesNothing(b: Book, f: Fill)
    requires BookOk(b) && f.qty == Abs(b.position) && Closes(b.position, f)
    ensures var b' := AddFill(b, f); b'.position == 0 && b'.buyOpen == 0 == b'.sellOpen && b'.unrealised == 0
  {
  }

  /** A fill that crosses zero opens the other side at its own price. */
  lemma CrossingOpensAtPrice(b: Book, f: Fill)
    requires BookOk(b) && f.qty > Abs(b.position) && Closes(b.position, f) && f.price >= 0
    ensures var b' := AddFill(b, f);
            && Abs(b'.position) == f.qty - Abs(b.position) && Average(b') == f.price
            && OpenCost(b') == f.price * Abs(b'.position) && b'.unrealised == 0
  {
    AverageOf(f.price, f.qty - Abs(b.position));
  }

  /** After a fill the open position is marked at the fill's price, and the total is both results together. */
  lemma FillMarks(b: Book, f: Fill)
    requires BookOk(b) && f.qty >= 0 && f.price >= 0
    ensures var b' := AddFill(b, f);
            && b'.unrealised == (if b'.position >= 0 then f.price * Abs(b'.position) - OpenCost(b')
                                 else OpenCost(b') - f.price * Abs(b'.position))
            && b'.total == b'.realised + b'.unrealised
  {
    NetFillOk(NetOf(b), b.position, f);
    if b.position + Signed(f, f.qty) == 0 { assert f.price * 0 == 0; }
  }

  // ----- one fill on a leg -----

  /** A fill that closes on a leg takes its quantity off, down to nothing, and realises it against the leg's average. */
  lemma LegCloses(leg: Leg, long: bool, price: int, qty: int)
    requires LegOk(leg) && leg.qty > 0 && qty > 0
    ensures var leg', average := LegFill(leg, long, false, price, qty), Quotient(leg.cost, leg.qty);
            && leg'.qty == (if qty < leg.qty then leg.qty - qty else 0)
            && leg'.realised == leg.realised + Toward(long, (price - average) * Min(qty, leg.qty))
            && (qty < leg.qty ==> leg'.cost == average * leg'.qty + leg.cost % leg.qty)
            && (qty > leg.qty ==> leg'.cost == 0)
  {
    Remainder(leg.cost, leg.qty);
    LegCloseArithmetic(Quotient(leg.cost, leg.qty), 0, leg.qty - qty, leg.qty, qty);
  }

  /** A fill that opens on a leg realises nothing and moves the leg's average toward its price and not past it. */
  lemma LegOpens(leg: Leg, long: bool, price: int, qty: int)
    requires LegOk(leg) && qty >= 0 && price >= 0
    ensures var leg' := LegFill(leg, long, true, price, qty);
            && leg'.qty == leg.qty + qty && leg'.realised == leg.realised && leg'.cost == leg.cost + price * qty
            && (leg.qty > 0 ==> Nearer(Quotient(leg.cost, leg.qty), Quotient(leg'.cost, leg'.qty), price))
  {
    if leg.qty > 0 { AverageMovesToward(leg.cost, leg.qty, price, qty); }
  }

  /** A fill changes the quantity, cost and realised result of the leg it names and of no other. */
  lemma OnlyTheNamedLeg(b: Book, f: Fill)
    ensures var b' := AddFill(b, f);
            && (f.side != Some(Long) ==> b'.long == b.long.(unrealised := b'.long.unrealised))
            && (f.side != Some(Short) ==> b'.short == b.short.(unrealised := b'.short.unrealised))
            && (b'.long.qty <= 0 ==> b'.long.unrealised == 0) && (b'.short.qty <= 0 ==> b'.short.unrealised == 0)
            && (f.side.Some? ==> b'.realised == b'.long.realised + b'.short.realised)
  {
  }

  // ----- quotes -----

  /** A usable quote marks what is open at the mid price and touches nothing else; any other quote does nothing. */
  lemma QuoteMarks(b: Book, bid: int, ask: int)
    ensures var b' := UpdateBbo(b, bid, ask);
            && (bid <= 0 || ask <= 0 ==> b' == b)
            && (bid > 0 && ask > 0 ==>
                  && b'.total == b'.realised + b'.unrealised
                  && b' == b.(unrealised := b'.unrealised, total := b'.total, long := b'.long, short := b'.short)
                  && b'.long == b.long.(unrealised := b'.long.unrealised)
                  && b'.short == b.short.(unrealised := b'.short.unrealised)
                  && (b.position == 0 ==> b'.unrealised == b.unrealised))
  {
  }

  lemma QuoteMarksOpen(b: Book, bid: int, ask: int)
    requires BookOk(b) && bid > 0 && ask > 0 && b.position != 0
    ensures var mid, unrealised := (bid + ask) / 2, UpdateBbo(b, bid, ask).unrealised;
            && (b.position > 0 ==> unrealised == mid * Abs(b.position) - OpenCost(b))
            && (b.position < 0 ==> unrealised == OpenCost(b) - mid * Abs(b.position))
  {
  }

  // ----- whole runs -----

  /** Bought less sold. */
  function NetQty(events: seq<Event>): int {
    if events == [] then 0
    else
      var e := events[|events| - 1];
      NetQty(events[..|events| - 1]) + if e.Trade? then Signed(e.fill, e.fill.qty) else 0
  }

  /** Bought and sold. */
  function Traded(events: seq<Event>): int {
    if events == [] then 0
    else
      var e := events[|events| - 1];
      Traded(events[..|events| - 1]) + if e.Trade? then e.fill.qty else 0
  }

  /** The gains of all closing fills, each against the average at its turn. */
  function Gains(events: seq<Event>): int {
    if events == [] then 0
    else
      var before, e := events[..|events| - 1], events[|events| - 1];
      var b := Run(before).book;
      Gains(before) + if e.Trade? then Closed(b, e.fill) * Gain(b, e.fill.price) else 0
  }

  /** After every sequence of events the position is bought less sold and the volume is both. */
  lemma {:induction false} PositionAndVolume(events: seq<Event>)
    ensures Run(events).book.position == NetQty(events) && Run(events).book.volume == Traded(events)
  {
    if events != [] { PositionAndVolume(events[..|events| - 1]); }
  }

  /** After every sequence of fills and quotes without position sides the realised result is the sum of all gains. */
  lemma {:induction false} RealisedIsGains(events: seq<Event>)
    requires forall e | e in events :: Plausible(e) && (e.Trade? ==> e.fill.side.None?)
    ensures Run(events).book.realised == Gains(events)
  {
    if events != [] {
      var before, e := events[..|events| - 1], events[|events| - 1];
      RealisedIsGains(before);
      NetLedger(before);
      match e
      case Trade(f) => FillRealises(Run(before).book, f);
      case Quote(bid, ask) => QuoteMarks(Run(before).book, bid, ask);
    }
  }
}

/** The profit-and-loss ledger of one instrument: what fills and quote updates do to it. */
module Ledger {
  import opened Arith
  import opened Wrappers

  datatype PositionSide = Long | Short | InvalidSide

  /** The part of an execution report the ledger reads. */
  datatype Fill = Fill(buy: bool, price: int, qty: int, side: Optional<PositionSide>)

  function Sign(f: Fill): int {
    if f.buy then 1 else -1
  }

  function Min(x: int, y: int): int {
    if x < y then x else y
  }

  // ----- the ledger as a value -----

  /** The long or the short book of hedge mode. */
  datatype Leg = Leg(qty: int, cost: int, realised: int, unrealised: int)

  datatype Book = Book(position: int, volume: int, buyOpen: int, sellOpen: int,
                       realised: int, unrealised: int, total: int, long: Leg, short: Leg)

  const EMPTY_LEG := Leg(0, 0, 0, 0)
  const EMPTY_BOOK := Book(0, 0, 0, 0, 0, 0, 0, EMPTY_LEG, EMPTY_LEG)

  /** The average price at which a fill closes the leg; 0 when it closes nothing. */
  function CloseAverage(leg: Leg, qty: int): int {
    if leg.qty > 0 && Min(qty, leg.qty) > 0 then Quotient(leg.cost, leg.qty) else 0
  }

  /** `x` counted for a long leg, against a short one. */
  function Toward(long: bool, x: int): int {
    if long then x else -x
  }

  /** One fill on one leg. */
  function LegFill(leg: Leg, long: bool, opens: bool, price: int, qty: int): Leg {
    if opens then leg.(cost := leg.cost + price * qty, qty := leg.qty + qty)
    else
      var average, close := CloseAverage(leg, qty), Min(qty, leg.qty);
      var closes := leg.qty > 0 && close > 0;
      var realised := if closes then leg.realised + Toward(long, (price - average) * close) else leg.realised;
      var cost := if closes then leg.cost - average * close else leg.cost;
      if leg.qty - qty < 0 then leg.(qty := 0, cost := 0, realised := realised)
      else leg.(qty := leg.qty - qty, cost := cost, realised := realised)
  }

  function MarkLeg(leg: Leg, long: bool, price: int): Leg {
    leg.(unrealised :=
      if leg.qty > 0 then Toward(long, (price - Quotient(leg.cost, leg.qty)) * leg.qty) else 0)
  }

  function LongFill(leg: Leg, f: Fill): Leg {
    if f.side == Some(Long) then LegFill(leg, true, f.buy, f.price, f.qty) else leg
  }

  function ShortFill(leg: Leg, f: Fill): Leg {
    if f.side == Some(Short) then LegFill(leg, false, !f.buy, f.price, f.qty) else leg
  }

  /** `x` with the sign of the fill's side. */
  function Signed(f: Fill, x: int): int {
    if f.buy then x else -x
  }

  predicate Opposed(x: int, y: int) {
    x < 0 < y || y < 0 < x
  }

  lemma ProductSign(x: int, y: int)
    ensures x * y < 0 <==> Opposed(x, y)
  {
    if x > 0 && y > 0 { assert x * y > 0; }
    if x < 0 && y < 0 { assert x * y == (-x) * (-y) && (-x) * (-y) > 0; }
    if x > 0 && y < 0 { assert x * y == -(x * (-y)) && x * (-y) > 0; }
    if x < 0 && y > 0 { assert x * y == -((-x) * y) && (-x) * y > 0; }
  }

  /** The net books (buy side, sell side) and the realised delta of a fill. */
  datatype Net = Net(buyOpen: int, sellOpen: int, delta: int)

  /** The fill is against the position. */
  predicate Closes(position: int, f: Fill) {
    if f.buy then position < 0 else position > 0
  }

  function NetOpen(net: Net, after: int, f: Fill): Net {
    if after == 0 then Net(0, 0, 0)
    else if f.buy then net.(buyOpen := net.buyOpen + f.price * f.qty, delta := 0)
    else net.(sellOpen := net.sellOpen + f.price * f.qty, delta := 0)
  }

  /** Closing at an average cost. */
  function NetClose(net: Net, position: int, f: Fill, average: int): Net {
    var after, size := position + Signed(f, f.qty), Abs(position);
    var delta := Signed(f, Min(f.qty, size) * (average - f.price));
    if after == 0 then Net(0, 0, delta)
    else if Opposed(after, position) then
      if f.buy then Net(f.price * Abs(after), 0, delta) else Net(0, f.price * Abs(after), delta)
    else
      if f.buy then Net(net.buyOpen, average * Abs(after), delta)
      else Net(average * Abs(after), net.sellOpen, delta)
  }

  function NetFill(net: Net, position: int, f: Fill): Net {
    if Closes(position, f) then
      NetClose(net, position, f, Quotient(if f.buy then net.sellOpen else net.buyOpen, Abs(position)))
    else NetOpen(net, position + Signed(f, f.qty), f)
  }

  /** Unrealised result of the net position at a price; a flat position keeps `flat`. */
  function NetUnreal(position: int, buyOpen: int, sellOpen: int, price: int, flat: int): int {
    if position == 0 then flat
    else if position > 0 then price * Abs(position) - buyOpen
    else sellOpen - price * Abs(position)
  }

  function AddFill(b: Book, f: Fill): Book {
    var after := b.position + Signed(f, f.qty);
    var net := NetFill(Net(b.buyOpen, b.sellOpen, 0), b.position, f);
    var unrealised := NetUnreal(after, net.buyOpen, net.sellOpen, f.price, 0);
    var long := MarkLeg(LongFill(b.long, f), true, f.price);
    var short := MarkLeg(ShortFill(b.short, f), false, f.price);
    var realised := if f.side.Some? then long.realised + short.realised else b.realised + net.delta;
    Book(after, b.volume + f.qty, net.buyOpen, net.sellOpen, realised, unrealised, unrealised + realised, long, short)
  }

  function UpdateBbo(b: Book, bid: int, ask: int): Book {
    if bid <= 0 || ask <= 0 then b
    else
      var mid := (bid + ask) / 2;
      var unrealised := NetUnreal(b.position, b.buyOpen, b.sellOpen, mid, b.unrealised);
      b.(unrealised := unrealised, total := unrealised + b.realised,
         long := MarkLeg(b.long, true, mid), short := MarkLeg(b.short, false, mid))
  }

  // ----- the ledger as the program updates it -----

  class PositionInfo {
    var position: int
    var volume: int
    const openVwap: array<int>
    var realPnl: int
    var unrealPnl: int
    var totalPnl: int
    var longQty: int
    var longCost: int
    var longReal: int
    var longUnreal: int
    var shortQty: int
    var shortCost: int
    var shortReal: int
    var shortUnreal: int

    ghost predicate Valid() {
      openVwap.Length == 2
    }

    ghost function Contents(): Book
      requires Valid()
      reads this, openVwap
    {
      Book(position, volume, openVwap[0], openVwap[1], realPnl, unrealPnl, totalPnl,
           Leg(longQty, longCost, longReal, longUnreal), Leg(shortQty, shortCost, shortReal, shortUnreal))
    }

    constructor ()
      ensures Valid() && fresh(openVwap) && Contents() == EMPTY_BOOK
    {
      position, volume, realPnl, unrealPnl, totalPnl := 0, 0, 0, 0, 0;
      longQty, longCost, longReal, longUnreal := 0, 0, 0, 0;
      shortQty, shortCost, shortReal, shortUnreal := 0, 0, 0, 0;
      openVwap := new int[2](_ => 0);
    }

    method FillLongLeg(buy: bool, price: int, qty: int)
      requires Valid()
      modifies this`longQty, this`longCost, this`longReal
      ensures Leg(longQty, longCost, longReal, longUnreal)
              == LegFill(old(Leg(longQty, longCost, longReal, longUnreal)), true, buy, price, qty)
    {
      if buy {
        longCost := longCost + price * qty;
        longQty := longQty + qty;
      } else {
        var close := Min(qty, longQty);
        if longQty > 0 && close > 0 {
          var average := Quotient(longCost, longQty);
          longReal := longReal + (price - average) * close;
          longCost := longCost - average * close;
        }
        longQty := longQty - qty;
        if longQty < 0 {
          longQty, longCost := 0, 0;
        }
      }
    }

    method FillShortLeg(buy: bool, price: int, qty: int)
      requires Valid()
      modifies this`shortQty, this`shortCost, this`shortReal
      ensures Leg(shortQty, shortCost, shortReal, shortUnreal)
              == LegFill(old(Leg(shortQty, shortCost, shortReal, shortUnreal)), false, !buy, price, qty)
    {
      if !buy {
        shortCost := shortCost + price * qty;
        shortQty := shortQty + qty;
      } else {
        var close := Min(qty, shortQty);
        if shortQty > 0 && close > 0 {
          var average := Quotient(shortCost, shortQty);
          assert -((price - average) * close) == (average - price) * close;
          shortReal := shortReal + (average - price) * close;
          shortCost := shortCost - average * close;
        }
        shortQty := shortQty - qty;
        if shortQty < 0 {
          shortQty, shortCost := 0, 0;
        }
      }
    }

    method FillLegs(f: Fill)
      requires Valid()
      modifies this`longQty, this`longCost, this`longReal, this`shortQty, this`shortCost, this`shortReal
      ensures Leg(longQty, longCost, longReal, longUnreal)
              == LongFill(old(Leg(longQty, longCost, longReal, longUnreal)), f)
      ensures Leg(shortQty, shortCost, shortReal, shortUnreal)
              == ShortFill(old(Leg(shortQty, shortCost, shortReal, shortUnreal)), f)
    {
      if f.side == Some(Long) {
        FillLongLeg(f.buy, f.price, f.qty);
      } else if f.side == Some(Short) {
        FillShortLeg(f.buy, f.price, f.qty);
      }
    }

    method FillNet(f: Fill, before: int) returns (delta: int)
      requires Valid() && position == before + Signed(f, f.qty)
      modifies openVwap
      ensures Net(openVwap[0], openVwap[1], delta)
              == NetFill(Net(old(openVwap[0]), old(openVwap[1]), 0), before, f)
    {
      var index := if f.buy then 0 else 1;
      var s := Sign(f);
      delta := 0;
      ProductSign(before, s);
      ProductSign(position, before);
      if before * s >= 0 {
        openVwap[index] := openVwap[index] + f.price * f.qty;
      } else {
        var average := Quotient(openVwap[1 - index], Abs(before));
        openVwap[1 - index] := average * Abs(position);
        delta := Min(f.qty, Abs(before)) * (average - f.price) * s;
        if position * before < 0 {
          openVwap[index] := f.price * Abs(position);
          openVwap[1 - index] := 0;
        }
      }
      if position == 0 {
        openVwap[0], openVwap[1] := 0, 0;
      }
    }

    method MarkLegs(price: int)
      requires Valid()
      modifies this`longUnreal, this`shortUnreal
      ensures Leg(longQty, longCost, longReal, longUnreal)
              == MarkLeg(old(Leg(longQty, longCost, longReal, longUnreal)), true, price)
      ensures Leg(shortQty, shortCost, shortReal, shortUnreal)
              == MarkLeg(old(Leg(shortQty, shortCost, shortReal, shortUnreal)), false, price)
    {
      longUnreal := 0;
      if longQty > 0 {
        longUnreal := (price - Quotient(longCost, longQty)) * longQty;
      }
      shortUnreal := 0;
      if shortQty > 0 {
        var average := Quotient(shortCost, shortQty);
        assert -((price - average) * shortQty) == (average - price) * shortQty;
        shortUnreal := (average - price) * shortQty;
      }
    }

    method MarkNet(price: int)
      requires Valid()
      modifies this`unrealPnl
      ensures unrealPnl == NetUnreal(position, openVwap[0], openVwap[1], price, 0)
    {
      if position == 0 {
        unrealPnl := 0;
      } else if position > 0 {
        unrealPnl := price * Abs(position) - openVwap[0];
      } else {
        unrealPnl := openVwap[1] - price * Abs(position);
      }
    }

    method AddReport(f: Fill)
      requires Valid()
      modifies this, openVwap
      ensures Valid() && Contents() == old(AddFill(Contents(), f))
    {
      var before := position;
      assert f.qty * Sign(f) == Signed(f, f.qty);
      position := position + f.qty * Sign(f);
      volume := volume + f.qty;
      FillLegs(f);
      var delta := FillNet(f, before);
      MarkNet(f.price);
      MarkLegs(f.price);
      realPnl := if f.side.Some? then longReal + shortReal else realPnl + delta;
      totalPnl := unrealPnl + realPnl;
    }

    method UpdateQuote(bid: int, ask: int)
      requires Valid()
      modifies this
      ensures Valid() && Contents() == old(UpdateBbo(Contents(), bid, ask))
    {
      if bid <= 0 || ask <= 0 {
        return;
      }
      var mid := Quotient(bid + ask, 2);
      if position > 0 {
        unrealPnl := mid * Abs(position) - openVwap[0];
      } else if position < 0 {
        unrealPnl := openVwap[1] - mid * Abs(position);
      }
      MarkLegs(mid);
      totalPnl := unrealPnl + realPnl;
    }
  }

  // ----- the net ledger: one signed position, one signed cost -----

  /** The open side alone carries a cost, and it is not negative. */
  ghost predicate NetOk(position: int, net: Net) {
    && net.buyOpen >= 0 && net.sellOpen >= 0
    && (position <= 0 ==> net.buyOpen == 0)
    && (position >= 0 ==> net.sellOpen == 0)
  }

  function NetOf(b: Book): Net {
    Net(b.buyOpen, b.sellOpen, 0)
  }

  /** What the open position has cost; negative when it is short. */
  function Cost(net: Net): int {
    net.buyOpen - net.sellOpen
  }

  /** The part of the cost that the truncated average forgets when a fill closes. */
  function Residue(net: Net, position: int, f: Fill): int {
    if !Closes(position, f) then 0
    else if f.buy then -(net.sellOpen % -position)
    else net.buyOpen % position
  }

  /** The most a fill can forget. */
  function Cap(position: int, f: Fill): int {
    if Closes(position, f) then Abs(position) - 1 else 0
  }

  /** The cash a fill moves. */
  function Cash(f: Fill): int {
    -Signed(f, f.price * f.qty)
  }

  lemma ProductNotNegative(x: int, y: int)
    requires x >= 0 && y >= 0
    ensures x * y >= 0
  {
  }

  lemma NetFillOk(net: Net, position: int, f: Fill)
    requires NetOk(position, net) && f.price >= 0 && f.qty >= 0
    ensures NetOk(position + Signed(f, f.qty), NetFill(net, position, f))
  {
    var after := position + Signed(f, f.qty);
    ProductNotNegative(f.price, f.qty);
    ProductNotNegative(f.price, Abs(after));
    if Closes(position, f) {
      ProductNotNegative((if f.buy then net.sellOpen else net.buyOpen) / Abs(position), Abs(after));
    }
  }

  /** Closing trades the average cost of the whole position for the cash. */
  lemma CloseConserves(net: Net, position: int, f: Fill, average: int)
    requires NetOk(position, net) && f.qty >= 0 && Closes(position, f)
    ensures var net' := NetClose(net, position, f, average);
            net'.delta - Cost(net') == Cash(f) + Signed(f, average * Abs(position))
  {
    var size := Abs(position);
    if f.qty < size {
      PartialArithmetic(size, average, f.price, f.qty);
    } else if f.qty == size {
      PartialArithmetic(size, average, f.price, f.qty);
      assert average * (size - f.qty) == 0;
    } else {
      CrossArithmetic(size, average, f.price, f.qty);
    }
  }

  lemma PartialArithmetic(size: int, average: int, price: int, qty: int)
    ensures qty * (average - price) + average * (size - qty) == average * size - price * qty
  {
  }

  lemma CrossArithmetic(size: int, average: int, price: int, qty: int)
    ensures size * (average - price) - price * (qty - size) == average * size - price * qty
  {
  }

  lemma Remainder(c: int, size: int)
    requires c >= 0 && size > 0
    ensures Quotient(c, size) * size == c - c % size
  {
  }

  /** `net'` is `net` after a fill that moved `cash` and forgot `residue` of the cost. */
  ghost predicate Conserves(net: Net, net': Net, cash: int, residue: int) {
    net'.delta - Cost(net') == -Cost(net) + cash + residue
  }

  lemma ClosedResidue(net: Net, net': Net, position: int, f: Fill, average: int)
    requires NetOk(position, net) && Closes(position, f)
    requires average == Quotient(if f.buy then net.sellOpen else net.buyOpen, Abs(position))
    requires net'.delta - Cost(net') == Cash(f) + Signed(f, average * Abs(position))
    ensures Conserves(net, net', Cash(f), Residue(net, position, f))
  {
    Remainder(if f.buy then net.sellOpen else net.buyOpen, Abs(position));
  }

  lemma OpenConserves(net: Net, position: int, f: Fill)
    requires NetOk(position, net) && f.qty >= 0 && !Closes(position, f)
    ensures Conserves(net, NetOpen(net, position + Signed(f, f.qty), f), Cash(f), 0)
  {
    if f.qty == 0 { assert f.price * f.qty == 0; }
  }

  /** A fill moves realised result less cost by the cash it moves and the residue it forgets. */
  lemma NetConservation(net: Net, position: int, f: Fill)
    requires NetOk(position, net) && f.price >= 0 && f.qty >= 0
    ensures Conserves(net, NetFill(net, position, f), Cash(f), Residue(net, position, f))
  {
    if Closes(position, f) {
      var average := Quotient(if f.buy then net.sellOpen else net.buyOpen, Abs(position));
      CloseConserves(net, position, f, average);
      ClosedResidue(net, NetClose(net, position, f, average), position, f, average);
    } else {
      OpenConserves(net, position, f);
    }
  }

  /** Marked at a price, total and realised result differ by the position's worth less its cost. */
  lemma MarkedTotal(position: int, net: Net, price: int)
    requires NetOk(position, net)
    ensures NetUnreal(position, net.buyOpen, net.sellOpen, price, 0) == position * price - Cost(net)
  {
    assert price * -position == -(position * price);
  }

  // ----- one leg of hedge mode -----

  ghost predicate LegOk(leg: Leg) {
    leg.qty >= 0 && leg.cost >= 0
  }

  ghost predicate OverCloses(leg: Leg, opens: bool, qty: int) {
    !opens && qty > leg.qty
  }

  /** What an over-closing fill adds to the leg's books beyond the cash it moves. */
  function Gap(leg: Leg, long: bool, opens: bool, price: int, qty: int): int {
    if opens || qty <= leg.qty then 0
    else Toward(long, leg.cost - CloseAverage(leg, qty) * leg.qty - price * (qty - leg.qty))
  }

  function LegCash(long: bool, opens: bool, price: int, qty: int): int {
    if opens then -Toward(long, price * qty) else Toward(long, price * qty)
  }

  /** The cash a leg should have moved according to its own books. */
  function Booked(leg: Leg, long: bool): int {
    leg.realised - Toward(long, leg.cost)
  }

  lemma PartOfCost(average: int, close: int, size: int)
    requires average >= 0 && close <= size
    ensures average * close <= average * size
  {
    ProductNotNegative(average, size - close);
    assert average * (size - close) == average * size - average * close;
  }

  lemma CloseOkArithmetic(cost: int, size: int, close: int)
    requires cost >= 0 && 0 < close <= size
    ensures cost - Quotient(cost, size) * close >= 0
  {
    var average, _ := Division(cost, size);
    PartOfCost(average, close, size);
  }

  lemma LegFillOk(leg: Leg, long: bool, opens: bool, price: int, qty: int)
    requires LegOk(leg) && price >= 0 && qty >= 0
    ensures LegOk(LegFill(leg, long, opens, price, qty))
  {
    ProductNotNegative(price, qty);
    if !opens && leg.qty > 0 && qty > 0 {
      CloseOkArithmetic(leg.cost, leg.qty, Min(qty, leg.qty));
    }
  }

  /** Closing `close` at an average trades cost for cash. */
  lemma LegCloseArithmetic(price: int, average: int, close: int, qty: int, size: int)
    ensures (price - average) * close == price * close - average * close
    ensures price * (qty - size) == price * qty - price * size
    ensures close == 0 ==> price * close == 0 && average * close == 0
    ensures size == 0 ==> price * size == 0 && average * size == 0
  {
  }

  /** A leg's books follow its cash exactly, up to what over-closing fills add. */
  lemma LegConservation(leg: Leg, long: bool, opens: bool, price: int, qty: int)
    requires leg.qty >= 0 && qty >= 0
    ensures Booked(LegFill(leg, long, opens, price, qty), long)
         == Booked(leg, long) + LegCash(long, opens, price, qty) + Gap(leg, long, opens, price, qty)
  {
    if !opens {
      LegCloseArithmetic(price, CloseAverage(leg, qty), Min(qty, leg.qty), qty, leg.qty);
    }
  }

  /** A fill keeps a leg's books on its cash exactly when it does not over-close or by coincidence. */
  lemma LegExactIff(leg: Leg, long: bool, opens: bool, price: int, qty: int)
    requires leg.qty >= 0 && qty >= 0
    ensures Booked(LegFill(leg, long, opens, price, qty), long)
         == Booked(leg, long) + LegCash(long, opens, price, qty)
       <==> OverCloses(leg, opens, qty) ==>
              leg.cost - CloseAverage(leg, qty) * leg.qty == price * (qty - leg.qty)
  {
    LegConservation(leg, long, opens, price, qty);
  }

  /** A long leg of one bought at ten and closed by two at ten: its cash moves by twenty and its books by ten. */
  lemma OverCloseLosesCash()
    ensures var leg := LegFill(EMPTY_LEG, true, true, 10, 1);
            && leg == Leg(1, 10, 0, 0) && LegCash(true, false, 10, 2) == 20
            && Booked(LegFill(leg, true, false, 10, 2), true) == Booked(leg, true) + 10
  {
  }

  /**
   * Marked at a price, an open leg is worth its cash and its quantity at that price, and less than a tick apiece
   * more.
   */
  lemma LegMarked(leg: Leg, long: bool, price: int)
    requires LegOk(leg) && leg.qty > 0
    ensures var m := MarkLeg(leg, long, price);
            m.realised + m.unrealised == Booked(leg, long) + Toward(long, price * leg.qty + leg.cost % leg.qty)
  {
    Remainder(leg.cost, leg.qty);
    LegCloseArithmetic(price, Quotient(leg.cost, leg.qty), leg.qty, 0, 0);
  }

  // ----- whole runs -----

  datatype Event = Trade(fill: Fill) | Quote(bid: int, ask: int)

  /** The ledger beside an independent account of the same events. */
  datatype Account = Account(
    book: Book,
    cash: int,       // cash moved by every fill
    forgotten: int,  // cost dropped by truncated averages
    allowance: int,  // sum of |position| - 1 over the closing fills
    mark: int,       // price of the last fill or the last usable mid quote
    longCash: int, longGap: int, shortCash: int, shortGap: int)

  function Start(): Account {
    Account(EMPTY_BOOK, 0, 0, 0, 0, 0, 0, 0, 0)
  }

  function OnTrade(a: Account, f: Fill): Account {
    var b := a.book;
    Account(
      AddFill(b, f),
      a.cash + Cash(f),
      a.forgotten + Residue(NetOf(b), b.position, f),
      a.allowance + Cap(b.position, f),
      f.price,
      a.longCash + (if f.side == Some(Long) then LegCash(true, f.buy, f.price, f.qty) else 0),
      a.longGap + (if f.side == Some(Long) then Gap(b.long, true, f.buy, f.price, f.qty) else 0),
      a.shortCash + (if f.side == Some(Short) then LegCash(false, !f.buy, f.price, f.qty) else 0),
      a.shortGap + (if f.side == Some(Short) then Gap(b.short, false, !f.buy, f.price, f.qty) else 0))
  }

  function OnQuote(a: Account, bid: int, ask: int): Account {
    a.(book := UpdateBbo(a.book, bid, ask),
       mark := if bid <= 0 || ask <= 0 then a.mark else (bid + ask) / 2)
  }

  function On(a: Account, e: Event): Account {
    match e
    case Trade(f) => OnTrade(a, f)
    case Quote(bid, ask) => OnQuote(a, bid, ask)
  }

  function Run(events: seq<Event>): Account {
    if events == [] then Start() else On(Run(events[..|events| - 1]), events[|events| - 1])
  }

  ghost predicate Plausible(e: Event) {
    e.Trade? ==> e.fill.price >= 0 && e.fill.qty >= 0
  }

  ghost predicate NetInv(a: Account) {
    && NetOk(a.book.position, NetOf(a.book))
    && a.book.realised - Cost(NetOf(a.book)) == a.cash + a.forgotten
    && a.book.total == a.cash + a.forgotten + a.book.position * a.mark
    && (a.book.position == 0 ==> a.book.unrealised == 0)
    && -a.allowance <= a.forgotten <= a.allowance
  }

  lemma ResidueBound(net: Net, position: int, f: Fill)
    requires NetOk(position, net)
    ensures -Cap(position, f) <= Residue(net, position, f) <= Cap(position, f)
  {
  }

  /** What a fill without a position side does to the net part of the account. */
  ghost predicate NetStep(a: Account, a': Account, f: Fill, net: Net, residue: int, cap: int) {
    var b, b' := a.book, a'.book;
    && b'.position == b.position + Signed(f, f.qty) && NetOf(b') == net.(delta := 0)
    && b'.realised == b.realised + net.delta
    && b'.unrealised == NetUnreal(b'.position, net.buyOpen, net.sellOpen, f.price, 0)
    && b'.total == b'.unrealised + b'.realised
    && a'.cash == a.cash + Cash(f) && a'.mark == f.price
    && a'.forgotten == a.forgotten + residue && a'.allowance == a.allowance + cap
  }

  lemma OnTradeNet(a: Account, f: Fill)
    requires f.side.None?
    ensures NetStep(a, OnTrade(a, f), f, NetFill(NetOf(a.book), a.book.position, f),
                    Residue(NetOf(a.book), a.book.position, f), Cap(a.book.position, f))
  {
  }

  lemma NetStepInv(a: Account, a': Account, f: Fill, net: Net, residue: int, cap: int)
    requires NetInv(a) && NetStep(a, a', f, net, residue, cap) && NetOk(a'.book.position, net)
    requires Conserves(NetOf(a.book), net, Cash(f), residue) && -cap <= residue <= cap
    ensures NetInv(a')
  {
    MarkedTotal(a'.book.position, net, f.price);
  }

  lemma TradeNet(a: Account, f: Fill)
    requires NetInv(a) && f.price >= 0 && f.qty >= 0 && f.side.None?
    ensures NetInv(OnTrade(a, f))
  {
    var before, position := NetOf(a.book), a.book.position;
    OnTradeNet(a, f);
    NetFillOk(before, position, f);
    NetConservation(before, position, f);
    ResidueBound(before, position, f);
    NetStepInv(a, OnTrade(a, f), f, NetFill(before, position, f), Residue(before, position, f), Cap(position, f));
  }

  /** Marking the net position at a price. */
  lemma MarkedInv(a: Account, a': Account, price: int)
    requires NetInv(a)
    requires a'.book.position == a.book.position && NetOf(a'.book) == NetOf(a.book) && a'.book.realised == a.book.realised
    requires a'.cash == a.cash && a'.forgotten == a.forgotten && a'.allowance == a.allowance && a'.mark == price
    requires a'.book.unrealised == NetUnreal(a.book.position, a.book.buyOpen, a.book.sellOpen, price, a.book.unrealised)
    requires a'.book.total == a'.book.unrealised + a'.book.realised
    ensures NetInv(a')
  {
    MarkedTotal(a.book.position, NetOf(a.book), price);
  }

  lemma QuoteNet(a: Account, bid: int, ask: int)
    requires NetInv(a)
    ensures NetInv(OnQuote(a, bid, ask))
  {
    if bid > 0 && ask > 0 {
      MarkedInv(a, OnQuote(a, bid, ask), (bid + ask) / 2);
    }
  }

  /**
   * Without position sides, after every fill and every quote the total is the cash moved plus the position at
   * the last price, within the sum of (|position| - 1) over the closing fills.
   */
  lemma {:induction false} NetLedger(events: seq<Event>)
    requires forall e | e in events :: Plausible(e) && (e.Trade? ==> e.fill.side.None?)
    ensures NetInv(Run(events))
  {
    if events != [] {
      var before, e := events[..|events| - 1], events[|events| - 1];
      NetLedger(before);
      match e
      case Trade(f) => TradeNet(Run(before), f);
      case Quote(bid, ask) => QuoteNet(Run(before), bid, ask);
    }
  }

  ghost predicate HedgeInv(a: Account) {
    && LegOk(a.book.long) && Booked(a.book.long, true) == a.longCash + a.longGap
    && LegOk(a.book.short) && Booked(a.book.short, false) == a.shortCash + a.shortGap
  }

  lemma TradeHedge(a: Account, f: Fill)
    requires HedgeInv(a) && f.price >= 0 && f.qty >= 0
    ensures HedgeInv(OnTrade(a, f))
  {
    if f.side == Some(Long) {
      LegFillOk(a.book.long, true, f.buy, f.price, f.qty);
      LegConservation(a.book.long, true, f.buy, f.price, f.qty);
    } else if f.side == Some(Short) {
      LegFillOk(a.book.short, false, !f.buy, f.price, f.qty);
      LegConservation(a.book.short, false, !f.buy, f.price, f.qty);
    }
  }

  /** The fill closes no more than the leg it names holds. */
  ghost predicate Covered(b: Book, f: Fill) {
    && (f.side == Some(Long) ==> !OverCloses(b.long, f.buy, f.qty))
    && (f.side == Some(Short) ==> !OverCloses(b.short, !f.buy, f.qty))
  }

  ghost predicate NeverOverCloses(events: seq<Event>) {
    forall i | 0 <= i < |events| && events[i].Trade? :: Covered(Run(events[..i]).book, events[i].fill)
  }

  lemma {:induction false} HedgeRun(events: seq<Event>)
    requires forall e | e in events :: Plausible(e)
    ensures HedgeInv(Run(events))
  {
    if events != [] {
      var n := |events| - 1;
      HedgeRun(events[..n]);
      assert Plausible(events[n]);
      match events[n]
      case Trade(f) => TradeHedge(Run(events[..n]), f);
      case Quote(_, _) =>
    }
  }

  lemma {:induction false} NoGaps(events: seq<Event>)
    requires NeverOverCloses(events)
    ensures Run(events).longGap == 0 == Run(events).shortGap
  {
    if events != [] {
      var n := |events| - 1;
      forall i | 0 <= i < n && events[..n][i].Trade?
        ensures Covered(Run(events[..n][..i]).book, events[..n][i].fill)
      {
        assert events[..n][..i] == events[..i] && events[..n][i] == events[i];
      }
      NoGaps(events[..n]);
    }
  }

  /**
   * With position sides, each leg's realised result and cost give that leg's cash flow exactly, unless a fill
   * over-closes.
   */
  lemma HedgeLedger(events: seq<Event>)
    requires (forall e | e in events :: Plausible(e)) && NeverOverCloses(events)
    ensures var a := Run(events);
            && a.book.long.realised - a.book.long.cost == a.longCash
            && a.book.short.realised + a.book.short.cost == a.shortCash
  {
    HedgeRun(events);
    NoGaps(events);
  }
}

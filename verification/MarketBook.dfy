/** The two-sided bucket book and its market-data entry point. */
module MarketBook {
  import opened Bits
  import opened Bitmap
  import opened BookSpec
  import opened BucketBook

  datatype UpdateKind = Invalid | ClearBook | AddLevel | ModifyLevel | CancelLevel | Trade | BookTicker

  datatype MarketUpdate = MarketUpdate(kind: UpdateKind, isBuy: bool, price: int, qty: int)

  /** `kMaxBucketPoolSize` */
  const MAX_POOL := 256

  function BucketCount(minPrice: int, maxPrice: int): nat
    requires minPrice <= maxPrice
  {
    (maxPrice - minPrice + 1 + 4095) / 4096
  }

  function PoolSize(bucketCount: nat): nat {
    if bucketCount <= MAX_POOL then bucketCount else MAX_POOL
  }

  /** What one update does to one side, on the plain-map view. */
  ghost function Applied(dir: Dir, s: Side, u: MarketUpdate, minPrice: int, maxPrice: int): Side
    requires Indexed(s.levels)
  {
    if !(minPrice <= u.price <= maxPrice) then s
    else if u.kind == ClearBook then ClearSide(s)
    else if Touches(u.kind) && u.isBuy == dir.Highest? then TouchedAt(dir, s, u.kind == CancelLevel, u.price - minPrice, u.qty, minPrice)
    else s
  }

  predicate Touches(kind: UpdateKind) {
    kind == AddLevel || kind == ModifyLevel || kind == CancelLevel
  }

  /** Add, Modify and Cancel on the side they name. */
  ghost function TouchedAt(dir: Dir, s: Side, cancel: bool, idx: nat, qty: int, minPrice: int): Side
    requires Indexed(s.levels)
  {
    if cancel then BucketCancel(dir, s, idx, minPrice) else BucketAdd(dir, s, idx, qty, minPrice)
  }

  /** What the updates `us`, oldest first, make of an empty side. */
  ghost function AppliedAll(dir: Dir, us: seq<MarketUpdate>, minPrice: int, maxPrice: int): (s: Side)
    ensures Indexed(s.levels)
  {
    if us == [] then EMPTY
    else
      var before := AppliedAll(dir, us[..|us| - 1], minPrice, maxPrice);
      AppliedIndexed(dir, before, us[|us| - 1], minPrice, maxPrice);
      Applied(dir, before, us[|us| - 1], minPrice, maxPrice)
  }

  lemma AppliedIndexed(dir: Dir, s: Side, u: MarketUpdate, minPrice: int, maxPrice: int)
    requires Indexed(s.levels)
    ensures Indexed(Applied(dir, s, u, minPrice, maxPrice).levels)
  {
  }

  class MarketOrderBook {
    const minPrice: int
    const maxPrice: int
    const bid: BucketSide
    const ask: BucketSide
    /** The updates received so far. */
    ghost var history: seq<MarketUpdate>

    ghost predicate Valid()
      reads this, bid, ask
    {
      var bids, asks := bid.Valid(), ask.Valid();
      && bid != ask && bids && asks && minPrice <= maxPrice
      && bid.dir == Highest && ask.dir == Lowest
      && bid.minPrice == minPrice == ask.minPrice
      && |bid.buckets| == |ask.buckets| == BucketCount(minPrice, maxPrice)
      && bid.poolSize == ask.poolSize == PoolSize(BucketCount(minPrice, maxPrice))
    }

    /** Both sides are what the updates so far make of an empty book. */
    ghost predicate Tracks()
      requires Valid()
      reads this, bid, ask
    {
      && bid.Abs() == AppliedAll(Highest, history, minPrice, maxPrice)
      && ask.Abs() == AppliedAll(Lowest, history, minPrice, maxPrice)
    }

    constructor (minPrice: int, maxPrice: int)
      requires minPrice <= maxPrice
      ensures Valid() && this.minPrice == minPrice && this.maxPrice == maxPrice
      ensures bid.Abs() == EMPTY && ask.Abs() == EMPTY && fresh(bid) && fresh(ask)
      ensures history == [] && Tracks()
    {
      this.minPrice, this.maxPrice := minPrice, maxPrice;
      history := [];
      var n := BucketCount(minPrice, maxPrice);
      bid := new BucketSide(Highest, minPrice, n, PoolSize(n));
      ask := new BucketSide(Lowest, minPrice, n, PoolSize(n));
    }

    /** The pool of the side an in-range update touches has a bucket for it. */
    ghost predicate Serves(u: MarketUpdate)
      requires Valid()
      reads this, bid, ask
    {
      minPrice <= u.price <= maxPrice && Touches(u.kind) ==> ServesAt(u.isBuy, u.price - minPrice)
    }

    ghost predicate ServesAt(isBuy: bool, idx: nat)
      requires Valid()
      reads this, bid, ask
    {
      idx < 4096 * |bid.buckets| && (if isBuy then bid else ask).CanTouch(idx)
    }

    /** The side the update names changes, the other does not. */
    method UpdateOne(isBuy: bool, cancel: bool, idx: nat, qty: int, ghost bids: Side, ghost asks: Side)
      requires Valid() && ServesAt(isBuy, idx) && bid.Abs() == bids && ask.Abs() == asks
      requires Indexed(bids.levels) && Indexed(asks.levels)
      modifies bid, ask
      ensures Valid()
      ensures bid.Abs() == if isBuy then TouchedAt(Highest, bids, cancel, idx, qty, minPrice) else bids
      ensures ask.Abs() == if isBuy then asks else TouchedAt(Lowest, asks, cancel, idx, qty, minPrice)
    {
      if isBuy {
        UpdateSide(bid, cancel, idx, qty);
      } else {
        UpdateSide(ask, cancel, idx, qty);
      }
    }

    method ClearBoth(ghost bids: Side, ghost asks: Side)
      requires Valid() && bid.Abs() == bids && ask.Abs() == asks
      modifies bid, ask
      ensures Valid() && bid.Abs() == ClearSide(bids) && ask.Abs() == ClearSide(asks)
    {
      bid.ClearAll();
      ask.ClearAll();
    }

    /** The update itself, from sides `bids` and `asks` to `bids'` and `asks'`. */
    method Apply(u: MarketUpdate, ghost bids: Side, ghost asks: Side, ghost bids': Side, ghost asks': Side)
      requires Valid() && Serves(u) && bid.Abs() == bids && ask.Abs() == asks
      requires Becomes(Highest, bids, bids', u, minPrice, maxPrice) && Becomes(Lowest, asks, asks', u, minPrice, maxPrice)
      modifies bid, ask
      ensures Valid() && bid.Abs() == bids' && ask.Abs() == asks'
    {
      if u.price > maxPrice || u.price < minPrice {
        return;
      }
      if u.kind == ClearBook {
        ClearBoth(bids, asks);
      } else if Touches(u.kind) {
        UpdateOne(u.isBuy, u.kind == CancelLevel, u.price - minPrice, u.qty, bids, asks);
      }
    }

    /** `on_market_data_updated`; without a bucket to take, the source would write through a null pointer. */
    method OnMarketData(u: MarketUpdate)
      requires Valid() && Serves(u)
      modifies this`history, bid, ask
      ensures Valid() && history == old(history) + [u] && (old(Tracks()) ==> Tracks())
      ensures bid.Abs() == Applied(Highest, old(bid.Abs()), u, minPrice, maxPrice)
      ensures ask.Abs() == Applied(Lowest, old(ask.Abs()), u, minPrice, maxPrice)
    {
      ghost var bids, asks := bid.Abs(), ask.Abs();
      AppliedBecomes(Highest, bids, u, minPrice, maxPrice);
      AppliedBecomes(Lowest, asks, u, minPrice, maxPrice);
      Apply(u, bids, asks, Applied(Highest, bids, u, minPrice, maxPrice), Applied(Lowest, asks, u, minPrice, maxPrice));
      history := history + [u];
    }
  }

  /** What an update makes of a side, case by case. */
  ghost predicate Becomes(dir: Dir, s: Side, t: Side, u: MarketUpdate, minPrice: int, maxPrice: int) {
    var inside, touched := minPrice <= u.price <= maxPrice, Touches(u.kind) && u.isBuy == dir.Highest?;
    && Indexed(s.levels)
    && (inside && u.kind == ClearBook ==> t == ClearSide(s))
    && (inside && touched ==> t == TouchedAt(dir, s, u.kind == CancelLevel, u.price - minPrice, u.qty, minPrice))
    && (!inside || (u.kind != ClearBook && !touched) ==> t == s)
  }

  lemma AppliedBecomes(dir: Dir, s: Side, u: MarketUpdate, minPrice: int, maxPrice: int)
    requires Indexed(s.levels)
    ensures Becomes(dir, s, Applied(dir, s, u, minPrice, maxPrice), u, minPrice, maxPrice)
  {
  }

  lemma PriceInBook(minPrice: int, maxPrice: int, price: int)
    requires minPrice <= price <= maxPrice
    ensures 0 <= price - minPrice < 4096 * BucketCount(minPrice, maxPrice)
  {
  }

  // ----- what a run of updates leaves -----

  /** The quantity quoted at an in-range price after the updates `us`; 0 for none. */
  function Quoted(us: seq<MarketUpdate>, isBuy: bool, price: int, minPrice: int, maxPrice: int): nat {
    if us == [] then 0
    else
      var before, u := Quoted(us[..|us| - 1], isBuy, price, minPrice, maxPrice), us[|us| - 1];
      if u.price < minPrice || u.price > maxPrice then before
      else match u.kind
        case ClearBook => 0
        case AddLevel => if u.isBuy == isBuy && u.price == price then Positive(u.qty) else before
        case ModifyLevel => if u.isBuy == isBuy && u.price == price then Positive(u.qty) else before
        case CancelLevel => if u.isBuy == isBuy && u.price == price then 0 else before
        case _ => before
  }

  function Positive(qty: int): nat {
    if qty > 0 then qty else 0
  }

  /**
   * After every sequence of updates each side has exactly the levels that the latest in-range update at their price
   * left: the quantity of an Add or a Modify, nothing after a Cancel, a Clear or a quantity that is not positive.
   */
  lemma {:induction false} BookShowsLatest(dir: Dir, us: seq<MarketUpdate>, price: int, minPrice: int, maxPrice: int)
    requires minPrice <= price
    ensures var levels, qty := AppliedAll(dir, us, minPrice, maxPrice).levels, Quoted(us, dir == Highest, price, minPrice, maxPrice);
            && (price - minPrice in levels <==> qty > 0)
            && (price - minPrice in levels ==> levels[price - minPrice] == qty)
  {
    if us != [] { BookShowsLatest(dir, us[..|us| - 1], price, minPrice, maxPrice); }
  }

  /** One update as an operation on one side of the plain map, if it is one. */
  function OpOf(dir: Dir, u: MarketUpdate, minPrice: int, maxPrice: int): seq<Op> {
    if u.price < minPrice || u.price > maxPrice then []
    else match u.kind
      case ClearBook => [Clear]
      case AddLevel => if u.isBuy == dir.Highest? then [Add(u.price - minPrice, u.qty)] else []
      case ModifyLevel => if u.isBuy == dir.Highest? then [Add(u.price - minPrice, u.qty)] else []
      case CancelLevel => if u.isBuy == dir.Highest? then [Cancel(u.price - minPrice)] else []
      case _ => []
  }

  function OpsOf(dir: Dir, us: seq<MarketUpdate>, minPrice: int, maxPrice: int): seq<Op> {
    if us == [] then [] else OpsOf(dir, us[..|us| - 1], minPrice, maxPrice) + OpOf(dir, us[|us| - 1], minPrice, maxPrice)
  }

  lemma UpdateIsOp(dir: Dir, s: Side, u: MarketUpdate, minPrice: int, maxPrice: int)
    requires Indexed(s.levels)
    ensures var more, t := OpOf(dir, u, minPrice, maxPrice), Applied(dir, s, u, minPrice, maxPrice);
            |more| <= 1 && t == if more == [] then s else Step(false, dir, s, more[0], minPrice)
  {
  }

  lemma RunMore(dir: Dir, ops: seq<Op>, more: seq<Op>, minPrice: int)
    requires |more| <= 1
    ensures var s := Run(false, dir, ops, minPrice);
            Run(false, dir, ops + more, minPrice) == if more == [] then s else Step(false, dir, s, more[0], minPrice)
  {
    if more == [] {
      assert ops + more == ops;
    } else {
      assert (ops + more)[..|ops|] == ops;
    }
  }

  /** A run of updates is, on each side, the run of its operations. */
  lemma {:induction false} UpdatesAreOps(dir: Dir, us: seq<MarketUpdate>, minPrice: int, maxPrice: int)
    ensures AppliedAll(dir, us, minPrice, maxPrice) == Run(false, dir, OpsOf(dir, us, minPrice, maxPrice), minPrice)
  {
    if us != [] {
      var before, u := us[..|us| - 1], us[|us| - 1];
      UpdatesAreOps(dir, before, minPrice, maxPrice);
      UpdateIsOp(dir, AppliedAll(dir, before, minPrice, maxPrice), u, minPrice, maxPrice);
      RunMore(dir, OpsOf(dir, before, minPrice, maxPrice), OpOf(dir, u, minPrice, maxPrice), minPrice);
    }
  }

  /** The cache invariant holds after every sequence of updates. */
  lemma UpdatesKeepCache(dir: Dir, us: seq<MarketUpdate>, minPrice: int, maxPrice: int)
    ensures CacheOk(dir, AppliedAll(dir, us, minPrice, maxPrice))
  {
    UpdatesAreOps(dir, us, minPrice, maxPrice);
    RunKeepsCache(false, dir, OpsOf(dir, us, minPrice, maxPrice), minPrice);
  }

  /** No in-range Clear, and no in-range Add or Modify without a quantity. */
  ghost predicate QuietUpdate(u: MarketUpdate, minPrice: int, maxPrice: int) {
    minPrice <= u.price <= maxPrice ==> u.kind != ClearBook && (u.kind == AddLevel || u.kind == ModifyLevel ==> u.qty > 0)
  }

  /** After every sequence of such updates the quote is exactly the best level of each side. */
  lemma QuietUpdatesExact(dir: Dir, us: seq<MarketUpdate>, minPrice: int, maxPrice: int)
    requires forall i | 0 <= i < |us| :: QuietUpdate(us[i], minPrice, maxPrice)
    ensures BboExact(dir, AppliedAll(dir, us, minPrice, maxPrice), minPrice)
  {
    UpdatesAreOps(dir, us, minPrice, maxPrice);
    QuietOps(dir, us, minPrice, maxPrice);
    QuietRunExact(dir, OpsOf(dir, us, minPrice, maxPrice), minPrice);
  }

  ghost predicate AllQuiet(ops: seq<Op>) {
    forall i | 0 <= i < |ops| :: Quiet(ops[i])
  }

  lemma {:induction false} QuietOps(dir: Dir, us: seq<MarketUpdate>, minPrice: int, maxPrice: int)
    requires forall i | 0 <= i < |us| :: QuietUpdate(us[i], minPrice, maxPrice)
    ensures AllQuiet(OpsOf(dir, us, minPrice, maxPrice))
  {
    if us != [] {
      QuietOps(dir, us[..|us| - 1], minPrice, maxPrice);
      assert QuietUpdate(us[|us| - 1], minPrice, maxPrice);
      assert AllQuiet(OpOf(dir, us[|us| - 1], minPrice, maxPrice));
    }
  }

  // ----- one side, and its pool -----

  method UpdateSide(side: BucketSide, cancel: bool, idx: nat, qty: int)
    requires side.Valid() && idx < 4096 * |side.buckets| && side.CanTouch(idx)
    modifies side
    ensures side.Valid() && |side.buckets| == old(|side.buckets|)
    ensures side.Abs() == TouchedAt(side.dir, old(side.Abs()), cancel, idx, qty, side.minPrice)
  {
    if cancel {
      side.DeleteOrder(idx);
    } else {
      side.AddOrder(idx, qty);
    }
  }

  /** With a pool at least as large as the bucket table, an allocation never fails. */
  lemma PoolServes(side: BucketSide, idx: nat)
    requires side.Valid() && idx < 4096 * |side.buckets| && |side.buckets| <= side.poolSize
    ensures side.CanTouch(idx)
  {}

  /** A book of at most 256 buckets serves every update. */
  lemma SmallBookServes(book: MarketOrderBook, u: MarketUpdate)
    requires book.Valid() && BucketCount(book.minPrice, book.maxPrice) <= MAX_POOL
    ensures book.Serves(u)
  {
    if book.minPrice <= u.price <= book.maxPrice {
      PriceInBook(book.minPrice, book.maxPrice, u.price);
      PoolServes(book.bid, u.price - book.minPrice);
      PoolServes(book.ask, u.price - book.minPrice);
    }
  }

  lemma {:induction false} CountOfPrefix(buckets: seq<Slot>, n: nat)
    requires n <= |buckets|
    requires forall b | 0 <= b < |buckets| :: buckets[b].Ptr? <==> b < n
    ensures CountAllocated(buckets) == n
  {
    if n < |buckets| { CountOfPrefix(buckets[..|buckets| - 1], n); }
  }

  /** The first level of each of the first `n` buckets is active, and nothing behind them. */
  ghost predicate FirstLevels(levels: map<int, int>, n: nat) {
    (forall b | 0 <= b < n :: 4096 * b in levels) && forall x | x in levels :: x < 4096 * n
  }

  lemma FirstLevelsGrow(levels: map<int, int>, n: nat)
    requires FirstLevels(levels, n)
    ensures FirstLevels(SetLevel(levels, 4096 * n, 1), n + 1)
  {}

  /** An allocated bucket holds an active level. */
  lemma SomeLevel(buckets: seq<Slot>, summary: seq<Word>, b: nat) returns (x: int)
    requires RepOk(buckets, summary) && b < |buckets| && buckets[b].Ptr?
    ensures x in Levels(buckets) && 4096 * b <= x
  {
    assert BucketOk(buckets[b].bucket);
    var off :| 0 <= off < 4096 && Has(buckets[b].bucket.bitmap, off);
    LevelOf(buckets, summary, b, off);
    x := 4096 * b + off;
  }

  /** Levels in exactly the first `n` buckets mean exactly those are allocated. */
  lemma AllocatedPrefix(buckets: seq<Slot>, summary: seq<Word>, n: nat)
    requires RepOk(buckets, summary) && n <= |buckets|
    requires FirstLevels(Levels(buckets), n)
    ensures CountAllocated(buckets) == n
    ensures forall b | 0 <= b < |buckets| :: buckets[b].Ptr? <==> b < n
  {
    forall b | 0 <= b < |buckets| ensures buckets[b].Ptr? <==> b < n {
      AllocatedIffFirst(buckets, summary, n, b);
    }
    CountOfPrefix(buckets, n);
  }

  lemma AllocatedIffFirst(buckets: seq<Slot>, summary: seq<Word>, n: nat, b: nat)
    requires RepOk(buckets, summary) && n <= |buckets| && b < |buckets|
    requires FirstLevels(Levels(buckets), n)
    ensures buckets[b].Ptr? <==> b < n
  {
    if b < n {
      FirstIsAllocated(buckets, summary, n, b);
    } else {
      OthersAreNull(buckets, summary, n, b);
    }
  }

  lemma FirstIsAllocated(buckets: seq<Slot>, summary: seq<Word>, n: nat, b: nat)
    requires RepOk(buckets, summary) && n <= |buckets| && b < n && FirstLevels(Levels(buckets), n)
    ensures buckets[b].Ptr?
  {
    ActiveLevel(buckets, summary, 4096 * b);
  }

  lemma OthersAreNull(buckets: seq<Slot>, summary: seq<Word>, n: nat, b: nat)
    requires RepOk(buckets, summary) && n <= b < |buckets| && FirstLevels(Levels(buckets), n)
    ensures !buckets[b].Ptr?
  {
    if buckets[b].Ptr? {
      var x := SomeLevel(buckets, summary, b);
      assert false;
    }
  }

  /** With a smaller pool there is a run of Adds after which an allocation fails. */
  method PoolRunsDry(side: BucketSide)
    requires side.Valid() && side.Abs() == EMPTY && side.poolSize < |side.buckets|
    modifies side
    ensures side.Valid() && |side.buckets| == old(|side.buckets|)
    ensures 4096 * side.poolSize < 4096 * |side.buckets| && !side.CanTouch(4096 * side.poolSize)
  {
    var i := 0;
    while i < side.poolSize
      invariant 0 <= i <= side.poolSize && side.Valid() && |side.buckets| == old(|side.buckets|)
      invariant FirstLevels(side.Abs().levels, i)
    {
      AllocatedPrefix(side.buckets, side.summary, i);
      FirstLevelsGrow(side.Abs().levels, i);
      side.AddOrder(4096 * i, 1);
      i := i + 1;
    }
    AllocatedPrefix(side.buckets, side.summary, i);
  }
}

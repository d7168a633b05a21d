/** The order manager as the program runs it, each entry point equal to its step of the desk. */
module OrderManager {
  import opened Arith
  import opened Wrappers
  import opened LayerBook
  import opened OrderState
  import opened Reconcile
  import opened Expiry
  import opened OrderDesk

  // ----- sweeping key by key -----

  ghost predicate HitBy(keys: seq<Key>, book: nat, layer: nat, id: nat) {
    exists k :: k in keys && k.book == book && k.layer == layer && k.id == id
  }

  ghost function SweptBy(b: Book, book: nat, keys: seq<Key>, now: nat): Book
    requires Shape(b)
  {
    b.(slots := seq(SLOTS, l requires 0 <= l < SLOTS => SweptSlot(b.slots[l], HitBy(keys, book, l, b.slots[l].id), now)))
  }

  /** One expired entry against the side book it names. */
  function WithExpired(b: Book, k: Key, now: nat): (r: Book)
    requires Shape(b)
    ensures Shape(r)
  {
    if k.layer >= SLOTS || b.slots[k.layer].id != k.id then b
    else WithSlot(b, k.layer, SweptSlot(b.slots[k.layer], true, now))
  }

  lemma SweptByNone(b: Book, book: nat, now: nat)
    requires Shape(b)
    ensures SweptBy(b, book, [], now) == b
  {
    assert SweptBy(b, book, [], now).slots == b.slots;
  }

  lemma SweptByStep(b: Book, book: nat, keys: seq<Key>, n: nat, now: nat)
    requires Shape(b) && n < |keys|
    ensures SweptBy(b, book, keys[..n + 1], now)
         == if keys[n].book == book then WithExpired(SweptBy(b, book, keys[..n], now), keys[n], now)
            else SweptBy(b, book, keys[..n], now)
  {
    var before, after, k := keys[..n], keys[..n + 1], keys[n];
    assert after == before + [k];
    forall l | 0 <= l < SLOTS
      ensures HitBy(after, book, l, b.slots[l].id)
         <==> HitBy(before, book, l, b.slots[l].id) || (k.book == book && k.layer == l && k.id == b.slots[l].id)
    {
      assert k in after;
      if HitBy(before, book, l, b.slots[l].id) {
        var j :| j in before && j.book == book && j.layer == l && j.id == b.slots[l].id;
        assert j in after;
      }
    }
    assert SweptBy(b, book, after, now).slots
        == (if k.book == book then WithExpired(SweptBy(b, book, before, now), k, now)
            else SweptBy(b, book, before, now)).slots;
  }

  lemma SweptByAll(b: Book, book: nat, queue: multiset<Key>, keys: seq<Key>, now: nat)
    requires Shape(b) && Splits(queue, now, true, multiset(keys))
    ensures SweptBy(b, book, keys, now) == SweptBook(b, book, queue, now)
  {
    forall k: Key ensures k in keys <==> k in queue && k.expire <= now {
      assert k in keys <==> k in multiset(keys);
    }
    assert SweptBy(b, book, keys, now).slots == SweptBook(b, book, queue, now).slots;
  }

  lemma UpdateFields(d: Desk, d': Desk, r: Report, now: nat, c: Config)
    requires Shapes(d.books) && c.policy.scale > 0
    requires var i := BookIndex(r.side, r.positionSide); var h := Handle(d.books[i], r, now, c.policy.scale);
             && d'.books == d.books[i := h.book] && d'.reserved == d.reserved - Signed(r.side, h.released)
             && d'.queue == WithEntry(d.queue, i, h.book, r, now, c)
    ensures d' == Update(d, r, now, c)
  {
  }

  function WithEntry(queue: multiset<Key>, i: BookNo, b: Book, r: Report, now: nat, c: Config): multiset<Key>
    requires Shape(b)
  {
    var layer := Registers(b, r);
    if layer < 0 then queue else queue + multiset{Key(now + c.ttlLive, i, layer, r.id)}
  }

  /** The three parts of the desk after an action is carried out. */
  ghost predicate Placing(d: Desk, d': Desk, a: Action, isNew: bool, now: nat, c: Config)
    requires Shapes(d.books) && c.policy.scale > 0
  {
    && d'.books == d.books[BookOf(a) := Placed(d.books[BookOf(a)], a, isNew, now, c)]
    && d'.reserved == d.reserved + Delta(a)
    && d'.queue == d.queue + multiset{Key(now + c.ttlReserved, BookOf(a), a.layer, a.id)}
  }

  lemma PlaceFields(d: Desk, d': Desk, a: Action, isNew: bool, now: nat, c: Config)
    requires Shapes(d.books) && c.policy.scale > 0 && !Blocked(d.books[BookOf(a)], a, c.policy)
    requires Placing(d, d', a, isNew, now, c)
    ensures d' == Place(d, a, isNew, now, c)
  {
  }

  class OrderManager {
    const config: Config
    const books: seq<SideBook>
    const tracker: ReservedPositionTracker
    const expiry: OrderExpiryManager
    const states: OrderStateManager

    ghost predicate Valid()
      reads this, books, tracker, expiry, states
    {
      && |books| == 4
      && books[0] !in books[1..] && books[1] !in books[2..] && books[2] != books[3]
      && books[0].Valid() && books[1].Valid() && books[2].Valid() && books[3].Valid()
      && config.policy.scale > 0 && states.scale == config.policy.scale
      && expiry.ttlReserved == config.ttlReserved && expiry.ttlLive == config.ttlLive
    }

    ghost function Contents(): (d: Desk)
      requires Valid()
      reads this, books, tracker, expiry, states
      ensures Shapes(d.books)
    {
      Desk([books[0].Contents(), books[1].Contents(), books[2].Contents(), books[3].Contents()],
           tracker.reserved, expiry.queue)
    }

    /** Only side book `i` has changed. */
    twostate lemma OneBook(i: nat)
      requires old(Valid()) && i < 4 && books[i].Valid()
      requires forall j | 0 <= j < 4 && j != i :: unchanged(books[j])
      ensures Valid() && Contents().books == old(Contents()).books[i := books[i].Contents()]
      ensures Contents().reserved == tracker.reserved && Contents().queue == expiry.queue
      ensures old(Contents()).books[i] == old(books[i].Contents())
      ensures old(Contents()).reserved == old(tracker.reserved) && old(Contents()).queue == old(expiry.queue)
    {
    }

    constructor (config: Config)
      requires config.policy.scale > 0
      ensures Valid() && this.config == config
      ensures Contents() == Desk([EmptyBook(), EmptyBook(), EmptyBook(), EmptyBook()], 0, multiset{})
    {
      var b0 := new SideBook();
      var b1 := new SideBook();
      var b2 := new SideBook();
      var b3 := new SideBook();
      this.config := config;
      books := [b0, b1, b2, b3];
      tracker := new ReservedPositionTracker();
      expiry := new OrderExpiryManager(config.ttlReserved, config.ttlLive);
      states := new OrderStateManager(config.policy.scale);
    }

    // ----- execution reports -----

    method RegisterReport(i: BookNo, book: SideBook, r: Report, now: nat)
      requires book.Valid() && expiry.ttlLive == config.ttlLive
      modifies expiry
      ensures expiry.queue == WithEntry(old(expiry.queue), i, book.Contents(), r, now, config)
    {
      if r.status == AckNew {
        var layer := book.FindLayerById(r.id);
        if layer < 0 && r.id in book.newIds {
          layer := book.newIds[r.id];
        }
        if layer >= 0 {
          expiry.Register(i, layer, r.id, true, now);
        }
      } else if r.status == PartiallyFilled {
        var layer := book.FindLayerById(r.id);
        if layer >= 0 && book.slots[layer].state == Live {
          expiry.Register(i, layer, r.id, true, now);
        }
      }
    }

    method OnOrderUpdated(r: Report, now: nat)
      requires Valid()
      modifies books, tracker, expiry
      ensures Valid() && Contents() == old(Update(Contents(), r, now, config))
    {
      var i := BookIndex(r.side, r.positionSide);
      states.HandleReport(r, books[i], tracker, now);
      RegisterReport(i, books[i], r, now);
      OneBook(i);
      UpdateFields(old(Contents()), Contents(), r, now, config);
    }

    // ----- sending orders -----

    method CarryOutNew(book: SideBook, i: BookNo, a: Action, now: nat)
      requires book.Valid() && config.policy.scale > 0 && expiry.ttlReserved == config.ttlReserved
      modifies book, tracker, expiry
      ensures book.Valid() && book.Contents() == old(PlacedNew(book.Contents(), a, now, config))
      ensures tracker.reserved == old(tracker.reserved) + Signed(a.side, a.qty)
      ensures expiry.queue == old(expiry.queue) + multiset{Key(now + config.ttlReserved, i, a.layer, a.id)}
    {
      WriteNew(book, a, now);
      tracker.AddReserved(a.side, a.qty);
      expiry.Register(i, a.layer, a.id, false, now);
    }

    method CommitNew(a: Action, now: nat)
      requires Valid() && a.lastQty == 0 && !Blocked(Contents().books[BookOf(a)], a, config.policy)
      modifies books, tracker, expiry
      ensures Valid() && Contents() == old(Place(Contents(), a, true, now, config))
    {
      var i := BookOf(a);
      CarryOutNew(books[i], i, a, now);
      OneBook(i);
      PlaceFields(old(Contents()), Contents(), a, true, now, config);
    }

    method SendNew(a: Action, now: nat)
      requires Valid() && a.lastQty == 0
      modifies books, tracker, expiry
      ensures Valid() && Contents() == old(Place(Contents(), a, true, now, config))
    {
      var existing := books[BookOf(a)].FindLayerByTicks(ToTicks(a.price, config.policy.scale));
      if existing >= 0 && existing != a.layer {
        return;
      }
      CommitNew(a, now);
    }

    method WriteNew(book: SideBook, a: Action, now: nat)
      requires book.Valid() && config.policy.scale > 0
      modifies book
      ensures book.Valid() && book.Contents() == old(PlacedNew(book.Contents(), a, now, config))
    {
      book.ticks := book.ticks[a.layer := ToTicks(a.price, config.policy.scale)];
      book.slots := book.slots[a.layer := Slot(Reserved, a.price, a.qty, now, a.id)];
    }

    method CarryOutReplace(book: SideBook, i: BookNo, a: Action, now: nat)
      requires book.Valid() && config.policy.scale > 0 && expiry.ttlReserved == config.ttlReserved
      modifies book, tracker, expiry
      ensures book.Valid() && book.Contents() == old(PlacedReplace(book.Contents(), a, now, config))
      ensures tracker.reserved == old(tracker.reserved) + Signed(a.side, a.qty - a.lastQty)
      ensures expiry.queue == old(expiry.queue) + multiset{Key(now + config.ttlReserved, i, a.layer, a.id)}
    {
      WriteReplace(book, a, now);
      tracker.AddReserved(a.side, a.qty - a.lastQty);
      expiry.Register(i, a.layer, a.id, false, now);
    }

    method CommitReplace(a: Action, now: nat)
      requires Valid() && !Blocked(Contents().books[BookOf(a)], a, config.policy)
      modifies books, tracker, expiry
      ensures Valid() && Contents() == old(Place(Contents(), a, false, now, config))
    {
      var i := BookOf(a);
      CarryOutReplace(books[i], i, a, now);
      OneBook(i);
      PlaceFields(old(Contents()), Contents(), a, false, now, config);
    }

    method SendReplace(a: Action, now: nat)
      requires Valid()
      modifies books, tracker, expiry
      ensures Valid() && Contents() == old(Place(Contents(), a, false, now, config))
    {
      var existing := books[BookOf(a)].FindLayerByTicks(ToTicks(a.price, config.policy.scale));
      if existing >= 0 && existing != a.layer {
        return;
      }
      CommitReplace(a, now);
    }

    method WriteReplace(book: SideBook, a: Action, now: nat)
      requires book.Valid() && config.policy.scale > 0
      modifies book
      ensures book.Valid() && book.Contents() == old(PlacedReplace(book.Contents(), a, now, config))
    {
      var tick := ToTicks(a.price, config.policy.scale);
      var oldPrice, oldTick := book.slots[a.layer].price, book.ticks[a.layer];
      book.ticks := book.ticks[a.layer := tick];
      book.slots := book.slots[a.layer := Slot(CancelReserved, a.price, a.qty, now, a.id)];
      book.newIds := EraseLayer(book.newIds, a.layer);
      if config.reorder {
        book.cancelIds := book.cancelIds[CancelId(a.id) := a.layer];
        book.newIds := book.newIds[a.id := a.layer];
        book.pending := book.pending[a.layer :=
          Some(Replace(a.price, a.qty, tick, a.id, a.lastQty, a.oldId, oldPrice, oldTick))];
      } else {
        book.newIds := book.newIds[a.oldId := a.layer];
        book.pending := book.pending[a.layer :=
          Some(Replace(a.price, a.qty, tick, a.oldId, a.lastQty, a.oldId, oldPrice, oldTick))];
      }
    }

    method ProcessNewOrders(acts: seq<Action>, now: nat)
      requires Valid() && forall i | 0 <= i < |acts| :: acts[i].lastQty == 0
      modifies books, tracker, expiry
      ensures Valid() && Contents() == old(PlaceAll(Contents(), acts, |acts|, true, now, config))
    {
      for i := 0 to |acts|
        invariant Valid() && Contents() == old(PlaceAll(Contents(), acts, i, true, now, config))
      {
        SendNew(acts[i], now);
      }
    }

    method ProcessReplaceOrders(acts: seq<Action>, now: nat)
      requires Valid()
      modifies books, tracker, expiry
      ensures Valid() && Contents() == old(PlaceAll(Contents(), acts, |acts|, false, now, config))
    {
      for i := 0 to |acts|
        invariant Valid() && Contents() == old(PlaceAll(Contents(), acts, i, false, now, config))
      {
        SendReplace(acts[i], now);
      }
    }

    // ----- sweeping -----

    method ExpireOne(book: SideBook, k: Key, now: nat)
      requires book.Valid()
      modifies book
      ensures book.Valid() && book.Contents() == old(WithExpired(book.Contents(), k, now))
    {
      if k.layer >= SLOTS {
        return;
      }
      var slot := book.slots[k.layer];
      if slot.id != k.id {
        return;
      }
      if slot.state == Dead || slot.state == CancelReserved {
        return;
      }
      if slot.state == Live || slot.state == Reserved {
        book.slots := book.slots[k.layer := slot.(state := CancelReserved, lastUsed := now)];
      }
    }

    /** After the first `n` expired entries. */
    ghost predicate Sweeping(books0: seq<Book>, expired: seq<Key>, n: nat, now: nat)
      requires Valid() && Shapes(books0) && n <= |expired|
      reads this, books, tracker, expiry, states
    {
      forall i | 0 <= i < 4 :: Contents().books[i] == SweptBy(books0[i], i, expired[..n], now)
    }

    method SweepStep(ghost books0: seq<Book>, expired: seq<Key>, n: nat, now: nat)
      requires Valid() && Shapes(books0) && n < |expired| && Sweeping(books0, expired, n, now)
      modifies books
      ensures Valid() && Sweeping(books0, expired, n + 1, now)
    {
      var k := expired[n];
      ExpireOne(books[k.book], k, now);
      OneBook(k.book);
      forall i | 0 <= i < 4 ensures Contents().books[i] == SweptBy(books0[i], i, expired[..n + 1], now) {
        SweptByStep(books0[i], i, expired, n, now);
      }
    }

    method SweepExpiredOrders(now: nat)
      requires Valid()
      modifies books, expiry
      ensures Valid() && Contents() == old(Sweep(Contents(), now))
    {
      ghost var d := Contents();
      var expired := expiry.SweepExpired(now);
      forall i | 0 <= i < 4 ensures SweptBy(d.books[i], i, [], now) == d.books[i] {
        SweptByNone(d.books[i], i, now);
      }
      assert expired[..0] == [];
      for n := 0 to |expired|
        invariant Valid() && Sweeping(d.books, expired, n, now)
        invariant expiry.queue == Left(d.queue, now) && tracker.reserved == d.reserved
      {
        SweepStep(d.books, expired, n, now);
      }
      assert expired[..|expired|] == expired;
      forall i | 0 <= i < 4 ensures Contents().books[i] == Sweep(d, now).books[i] {
        SweptByAll(d.books[i], i, d.queue, expired, now);
      }
      assert Contents().books == Sweep(d, now).books;
    }

    // ----- quoting -----

    method ChooseFor(it: Intent, stamp: nat) returns (c: Choice)
      requires Valid() && it.price.Some?
      ensures c == Choose(Contents().books[BookIndex(it.side, it.positionSide)], it, stamp, config.policy)
    {
      var book := books[BookIndex(it.side, it.positionSide)];
      var price, scale := it.price.value, config.policy.scale;
      var plan := book.PlanFor(ToTicks(price, scale));
      var slot := book.slots[plan.layer];
      if plan.evicts {
        return ReplaceOrder(Action(plan.layer, price, it.qty, it.side, it.positionSide, stamp, slot.id, slot.qty));
      }
      if slot.state == Invalid || slot.state == Dead {
        return NewOrder(Action(plan.layer, price, it.qty, it.side, it.positionSide, stamp, NO_ID, 0));
      }
      if slot.state == Live {
        var slotTick, tick := ToTicks(slot.price, scale), ToTicks(price, scale);
        var priceDiffers := if slotTick > tick then slotTick - tick >= config.policy.minReplaceTick
                            else tick - slotTick >= config.policy.minReplaceTick;
        if priceDiffers || Abs(slot.qty - it.qty) >= config.policy.minReplaceQty {
          return ReplaceOrder(Action(plan.layer, price, it.qty, it.side, it.positionSide, stamp, slot.id, slot.qty));
        }
      }
      return Nothing;
    }

    method PlanSide(intents: seq<Intent>, side: Side, stamp: nat, acts0: Actions) returns (acts: Actions)
      requires Valid()
      ensures acts == DiffSide(Contents().books, acts0, intents, side, |intents|, stamp, config.policy)
    {
      acts := acts0;
      for n := 0 to |intents|
        invariant acts == DiffSide(Contents().books, acts0, intents, side, n, stamp, config.policy)
      {
        var it := intents[n];
        if it.side == side && Active(it) {
          var c := ChooseFor(it, stamp);
          acts := Added(acts, c);
        }
      }
    }

    method PlanAll(intents: seq<Intent>, stamp: nat) returns (acts: Actions)
      requires Valid()
      ensures acts == Diff(Contents().books, intents, stamp, config.policy)
    {
      acts := PlanSide(intents, Buy, stamp, Actions([], []));
      acts := PlanSide(intents, Sell, stamp, acts);
    }

    method RecentSides(now: nat) returns (recent: seq<bool>)
      requires Valid()
      ensures recent == Recent(Contents().books, now, config.policy)
    {
      recent := [];
      for i := 0 to 4
        invariant |recent| == i && recent == Recent(Contents().books, now, config.policy)[..i]
      {
        var last := LatestUse(books[i].slots);
        recent := recent + [TooRecent(now, last, config.policy.timeGap)];
      }
    }

    method FilterAll(intents: seq<Intent>, now: nat, stamp: nat, acc: Account) returns (acts: Actions)
      requires Valid()
      ensures acts == Filters(Contents(), intents, now, stamp, acc, config).0
    {
      var plan := PlanAll(intents, stamp);
      var recent := RecentSides(now);
      var news := Throttle(plan.news, recent);
      var repls := Throttle(plan.repls, recent);
      news := ClampAll(news, config.policy);
      repls := ClampAll(repls, config.policy);
      var running := tracker.reserved;
      news, running := FilterActions(acc, news, running);
      repls, running := FilterActions(acc, repls, running);
      acts := Actions(news, repls);
    }

    method ApplyQuotes(intents: seq<Intent>, now: nat, stamp: nat, acc: Account)
      requires Valid()
      modifies books, tracker, expiry
      ensures Valid() && Contents() == old(Apply(Contents(), intents, now, stamp, acc, config))
    {
      if intents == [] {
        SweepExpiredOrders(now);
        return;
      }
      var acts := FilterAll(intents, now, stamp, acc);
      NewsAreNew(Contents(), intents, now, stamp, acc, config);
      ProcessNewOrders(acts.news, now);
      ProcessReplaceOrders(acts.repls, now);
      SweepExpiredOrders(now);
    }
  }

  // ----- new orders replace nothing -----

  ghost predicate AllNew(acts: seq<Action>) {
    forall i | 0 <= i < |acts| :: acts[i].lastQty == 0
  }

  lemma {:induction false} PlannedNew(books: seq<Book>, acts: Actions, intents: seq<Intent>, side: Side, n: nat, stamp: nat, p: Policy)
    requires Shapes(books) && p.scale > 0 && n <= |intents| && AllNew(acts.news)
    ensures AllNew(DiffSide(books, acts, intents, side, n, stamp, p).news)
  {
    if n > 0 { PlannedNew(books, acts, intents, side, n - 1, stamp, p); }
  }

  lemma {:induction false} ErasedNew(acts: seq<Action>, side: Side, positionSide: PositionSide, i: nat)
    requires i <= |acts| && AllNew(acts)
    ensures AllNew(Erased(acts, side, positionSide, i))
    decreases |acts| - i
  {
    if i < |acts| {
      if Matches(acts[i], side, positionSide) {
        ErasedNew(acts[i := acts[|acts| - 1]][..|acts| - 1], side, positionSide, i);
      } else {
        ErasedNew(acts, side, positionSide, i + 1);
      }
    }
  }

  lemma ThrottledNew(acts: seq<Action>, recent: seq<bool>)
    requires |recent| == 4 && AllNew(acts)
    ensures AllNew(ThrottledAll(acts, recent))
  {
    ErasedNew(acts, Buy, Long, 0);
    var a1 := Throttled(acts, Buy, Long, recent[0]);
    ErasedNew(a1, Sell, Long, 0);
    var a2 := Throttled(a1, Sell, Long, recent[1]);
    ErasedNew(a2, Buy, Short, 0);
    var a3 := Throttled(a2, Buy, Short, recent[2]);
    ErasedNew(a3, Sell, Short, 0);
  }

  lemma {:induction false} FilteredNew(acc: Account, acts: seq<Action>, n: nat, running: int)
    requires n <= |acts| && AllNew(acts)
    ensures AllNew(Filtered(acc, acts, n, running).0)
  {
    if n > 0 { FilteredNew(acc, acts, n - 1, running); }
  }

  lemma RoundZero(increment: nat)
    ensures RoundQty(0, increment) == 0
  {
  }

  lemma ClampedNew(acts: seq<Action>, p: Policy)
    requires AllNew(acts)
    ensures AllNew(Clamped(acts, p))
  {
    RoundZero(p.increment);
    forall i | 0 <= i < |acts| ensures Clamped(acts, p)[i].lastQty == 0 {
      ClampLast(acts[i], p);
    }
  }

  lemma ClampLast(a: Action, p: Policy)
    ensures Clamp(a, p).lastQty == RoundQty(a.lastQty, p.increment)
  {
  }

  lemma PlanNew(books: seq<Book>, intents: seq<Intent>, stamp: nat, p: Policy)
    requires Shapes(books) && p.scale > 0
    ensures AllNew(Diff(books, intents, stamp, p).news)
  {
    var none := Actions([], []);
    PlannedNew(books, none, intents, Buy, |intents|, stamp, p);
    PlannedNew(books, DiffSide(books, none, intents, Buy, |intents|, stamp, p), intents, Sell, |intents|, stamp, p);
  }

  lemma NewsAreNew(d: Desk, intents: seq<Intent>, now: nat, stamp: nat, acc: Account, c: Config)
    requires Shapes(d.books) && c.policy.scale > 0
    ensures AllNew(Filters(d, intents, now, stamp, acc, c).0.news)
  {
    PlanNew(d.books, intents, stamp, c.policy);
    var plan, recent := Diff(d.books, intents, stamp, c.policy), Recent(d.books, now, c.policy);
    ThrottledNew(plan.news, recent);
    ClampedNew(ThrottledAll(plan.news, recent), c.policy);
    var news := Clamped(ThrottledAll(plan.news, recent), c.policy);
    FilteredNew(acc, news, |news|, d.reserved);
  }
}

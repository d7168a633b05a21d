/** What the order desk keeps over every run of quotes, execution reports and sweeps. */
module DeskRuns {
  import opened Wrappers
  import opened LayerBook
  import opened OrderState
  import opened Reconcile
  import opened Expiry
  import opened OrderDesk

  // ----- runs -----

  datatype World = World(desk: Desk, position: int)

  datatype Event =
    | Quote(intents: seq<Intent>, now: nat, stamp: nat, pnl: int)
    | Execution(report: Report, time: nat)

  function Start(position: int): World {
    World(Desk(seq(4, _ => EmptyBook()), 0, multiset{}), position)
  }

  /** A trade reaches the position before its report reaches the desk. */
  ghost function Step(w: World, e: Event, c: Config): (w': World)
    requires Shapes(w.desk.books) && c.policy.scale > 0
    ensures Shapes(w'.desk.books)
  {
    match e
    case Quote(intents, now, stamp, pnl) =>
      w.(desk := Apply(w.desk, intents, now, stamp, Account(c.limits, w.position, pnl), c))
    case Execution(r, now) =>
      World(Update(w.desk, r, now, c), w.position + if r.trade then Signed(r.side, r.lastQty) else 0)
  }

  ghost function Run(position: int, events: seq<Event>, c: Config): (w: World)
    requires c.policy.scale > 0
    ensures Shapes(w.desk.books)
  {
    if events == [] then Start(position)
    else Step(Run(position, events[..|events| - 1], c), events[|events| - 1], c)
  }

  lemma RunNext(position: int, events: seq<Event>, i: nat, c: Config)
    requires c.policy.scale > 0 && i < |events|
    ensures Run(position, events[..i + 1], c) == Step(Run(position, events[..i], c), events[i], c)
  {
    assert events[..i + 1][..i] == events[..i];
  }

  // ----- the reserved position is what the layers hold -----

  /** Buys less sells, over the layers of the four side books. */
  function Total(books: seq<Book>): int
    requires |books| == 4
  {
    Held(books[0].slots) - Held(books[1].slots) + Held(books[2].slots) - Held(books[3].slots)
  }

  ghost predicate DeskOk(d: Desk, increment: nat) {
    && |d.books| == 4 && (forall i | 0 <= i < 4 :: BookOk(d.books[i], increment))
    && d.reserved == Total(d.books)
  }

  lemma TotalUpdate(books: seq<Book>, side: Side, positionSide: Optional<PositionSide>, b: Book)
    requires |books| == 4
    ensures var i := BookIndex(side, positionSide);
            Total(books[i := b]) == Total(books) + Signed(side, Held(b.slots) - Held(books[i].slots))
  {
  }

  lemma PendingIsOccupied(b: Book, layer: Layer, increment: nat)
    requires BookOk(b, increment)
    ensures b.pending[layer].Some? ==> Occupied(b.slots[layer])
  {
    if b.pending[layer].Some? { assert ReplaceOk(b, layer, increment); }
  }

  lemma PlacedNewOk(b: Book, a: Action, now: nat, c: Config)
    requires ConfigOk(c) && BookOk(b, c.policy.increment) && ReadyNew(b, a, c.policy) && Whole(a.qty, c.policy.increment)
    ensures BookOk(PlacedNew(b, a, now, c), c.policy.increment)
    ensures Held(PlacedNew(b, a, now, c).slots) == Held(b.slots) + a.qty
  {
    var inc := c.policy.increment;
    PendingIsOccupied(b, a.layer, inc);
    SlotKeepsOk(b, a.layer, Slot(Reserved, a.price, a.qty, now, a.id), inc);
    SettleKeepsOk(WithSlot(b, a.layer, Slot(Reserved, a.price, a.qty, now, a.id)), a.layer,
                  ToTicks(a.price, c.policy.scale), 0, 0, inc);
  }

  lemma PlacedReplaceOk(b: Book, a: Action, now: nat, c: Config)
    requires ConfigOk(c) && BookOk(b, c.policy.increment) && ReadyReplace(b, a, c.policy) && Whole(a.qty, c.policy.increment)
    ensures BookOk(PlacedReplace(b, a, now, c), c.policy.increment)
    ensures Held(PlacedReplace(b, a, now, c).slots) == Held(b.slots) + a.qty - a.lastQty
  {
    var inc := c.policy.increment;
    HeldUpdate(b.slots, a.layer, Slot(CancelReserved, a.price, a.qty, now, a.id));
    var b' := PlacedReplace(b, a, now, c);
    forall i | 0 <= i < SLOTS && b'.pending[i].Some? ensures ReplaceOk(b', i, inc) {
      if i != a.layer { assert ReplaceOk(b, i, inc); }
    }
  }

  /** `d'` is `d` after one action: its reservation moved by the action and only its side book changed. */
  ghost predicate OneMore(d: Desk, d': Desk, a: Action) {
    && |d.books| == 4 == |d'.books| && d'.reserved == d.reserved + Delta(a)
    && (forall i | 0 <= i < 4 && i != BookOf(a) :: d'.books[i] == d.books[i])
  }

  lemma PlacedOk(b: Book, a: Action, isNew: bool, now: nat, c: Config)
    requires ConfigOk(c) && BookOk(b, c.policy.increment) && Whole(a.qty, c.policy.increment)
    requires if isNew then ReadyNew(b, a, c.policy) else ReadyReplace(b, a, c.policy)
    ensures BookOk(Placed(b, a, isNew, now, c), c.policy.increment)
    ensures Held(Placed(b, a, isNew, now, c).slots) == Held(b.slots) + a.qty - a.lastQty
  {
    if isNew { PlacedNewOk(b, a, now, c); } else { PlacedReplaceOk(b, a, now, c); }
  }

  lemma PlaceIs(d: Desk, a: Action, isNew: bool, now: nat, c: Config)
    requires Shapes(d.books) && c.policy.scale > 0 && Ready(d.books, a, isNew, c.policy)
    ensures var d', i := Place(d, a, isNew, now, c), BookOf(a);
            && d'.books == d.books[i := Placed(d.books[i], a, isNew, now, c)] && d'.reserved == d.reserved + Delta(a)
  {
  }

  lemma PlaceOk(d: Desk, a: Action, isNew: bool, now: nat, c: Config)
    requires ConfigOk(c) && DeskOk(d, c.policy.increment)
    requires Ready(d.books, a, isNew, c.policy) && Whole(a.qty, c.policy.increment)
    ensures OneMore(d, Place(d, a, isNew, now, c), a) && DeskOk(Place(d, a, isNew, now, c), c.policy.increment)
  {
    PlaceIs(d, a, isNew, now, c);
    PlacedOk(d.books[BookOf(a)], a, isNew, now, c);
    BookChangeOk(d, Place(d, a, isNew, now, c), a.side, a.positionSide,
                 Placed(d.books[BookOf(a)], a, isNew, now, c), c.policy.increment);
  }

  /** A desk that changes one side book and its reservation by the same amount stays in order. */
  lemma BookChangeOk(d: Desk, d': Desk, side: Side, positionSide: Optional<PositionSide>, b: Book, increment: nat)
    requires DeskOk(d, increment) && BookOk(b, increment) && d'.books == d.books[BookIndex(side, positionSide) := b]
    requires d'.reserved == d.reserved + Signed(side, Held(b.slots) - Held(d.books[BookIndex(side, positionSide)].slots))
    ensures DeskOk(d', increment)
  {
    TotalUpdate(d.books, side, positionSide, b);
  }

  ghost predicate Untouched(acts: seq<Action>, n: nat, i: nat)
    requires n <= |acts|
  {
    forall j | 0 <= j < n :: BookOf(acts[j]) != i
  }

  ghost predicate AllReady(books: seq<Book>, acts: seq<Action>, isNew: bool, p: Policy) {
    && |books| == 4 && Distinct(acts)
    && (forall a | a in acts :: Ready(books, a, isNew, p) && Whole(a.qty, p.increment))
  }

  /** `d'` is `d` after the first `n` actions, and only their side books changed. */
  ghost predicate Sent(d: Desk, d': Desk, acts: seq<Action>, n: nat)
    requires n <= |acts|
  {
    && |d.books| == 4 == |d'.books| && d'.reserved == d.reserved + Sum(acts[..n])
    && (forall i | 0 <= i < 4 && Untouched(acts, n, i) :: d'.books[i] == d.books[i])
  }

  lemma SentMore(d: Desk, before: Desk, after: Desk, acts: seq<Action>, n: nat)
    requires n < |acts| && Sent(d, before, acts, n) && OneMore(before, after, acts[n])
    ensures Sent(d, after, acts, n + 1)
  {
    assert acts[..n + 1][..n] == acts[..n];
    forall i | 0 <= i < 4 && Untouched(acts, n + 1, i) ensures after.books[i] == d.books[i] {
      assert Untouched(acts, n, i) && BookOf(acts[n]) != i;
    }
  }

  lemma NextReady(d: Desk, before: Desk, acts: seq<Action>, n: nat, isNew: bool, p: Policy)
    requires n < |acts| && AllReady(d.books, acts, isNew, p) && Sent(d, before, acts, n)
    ensures Ready(before.books, acts[n], isNew, p) && Whole(acts[n].qty, p.increment)
  {
    assert Untouched(acts, n, BookOf(acts[n]));
    assert Ready(d.books, acts[n], isNew, p);
  }

  lemma SendStep(d: Desk, before: Desk, after: Desk, acts: seq<Action>, n: nat, isNew: bool, now: nat, c: Config)
    requires ConfigOk(c) && n < |acts| && AllReady(d.books, acts, isNew, c.policy)
    requires DeskOk(before, c.policy.increment) && Sent(d, before, acts, n)
    requires after == Place(before, acts[n], isNew, now, c)
    ensures DeskOk(after, c.policy.increment) && Sent(d, after, acts, n + 1)
  {
    NextReady(d, before, acts, n, isNew, c.policy);
    PlaceOk(before, acts[n], isNew, now, c);
    SentMore(d, before, after, acts, n);
  }

  lemma {:induction false} PlaceAllOk(d: Desk, acts: seq<Action>, n: nat, isNew: bool, now: nat, c: Config)
    requires ConfigOk(c) && DeskOk(d, c.policy.increment) && n <= |acts| && AllReady(d.books, acts, isNew, c.policy)
    ensures DeskOk(PlaceAll(d, acts, n, isNew, now, c), c.policy.increment)
    ensures Sent(d, PlaceAll(d, acts, n, isNew, now, c), acts, n)
  {
    if n > 0 {
      PlaceAllOk(d, acts, n - 1, isNew, now, c);
      SendStep(d, PlaceAll(d, acts, n - 1, isNew, now, c), PlaceAll(d, acts, n, isNew, now, c), acts, n - 1, isNew, now, c);
    }
  }

  lemma StillReady(d: Desk, d': Desk, acts: Actions, p: Policy)
    requires Sound(d.books, acts, p) && AllReady(d.books, acts.repls, false, p)
    requires Sent(d, d', acts.news, |acts.news|)
    ensures AllReady(d'.books, acts.repls, false, p)
  {
    forall a | a in acts.repls ensures Ready(d'.books, a, false, p) {
      assert Ready(d.books, a, false, p);
      assert Untouched(acts.news, |acts.news|, BookOf(a));
    }
  }

  /** Carrying out a sound plan moves the reservation by the plan's total. */
  lemma SendOk(d: Desk, acts: Actions, now: nat, c: Config)
    requires ConfigOk(c) && DeskOk(d, c.policy.increment) && Sound(d.books, acts, c.policy)
    requires AllReady(d.books, acts.news, true, c.policy) && AllReady(d.books, acts.repls, false, c.policy)
    ensures DeskOk(Send(d, acts, now, c), c.policy.increment)
    ensures Send(d, acts, now, c).reserved == d.reserved + Sum(acts.news) + Sum(acts.repls)
  {
    PlaceAllOk(d, acts.news, |acts.news|, true, now, c);
    var d1 := PlaceAll(d, acts.news, |acts.news|, true, now, c);
    StillReady(d, d1, acts, c.policy);
    PlaceAllOk(d1, acts.repls, |acts.repls|, false, now, c);
    SentBoth(d, d1, Send(d, acts, now, c), acts);
  }

  lemma SentBoth(d: Desk, d1: Desk, d2: Desk, acts: Actions)
    requires Sent(d, d1, acts.news, |acts.news|) && Sent(d1, d2, acts.repls, |acts.repls|)
    ensures d2.reserved == d.reserved + Sum(acts.news) + Sum(acts.repls)
  {
    assert acts.news[..|acts.news|] == acts.news && acts.repls[..|acts.repls|] == acts.repls;
  }

  lemma ClampedFrom(acts: seq<Action>, throttled: seq<Action>, k: Action, p: Policy)
    requires k in Clamped(throttled, p) && forall a | a in throttled :: a in acts
    ensures exists a :: a in acts && BookOf(a) == BookOf(k)
  {
    var i :| 0 <= i < |throttled| && Clamped(throttled, p)[i] == k;
    assert throttled[i] in acts && BookOf(throttled[i]) == BookOf(k);
  }

  lemma StagesSound(books: seq<Book>, acts: seq<Action>, isNew: bool, recent: seq<bool>, acc: Account, running: int, p: Policy)
    requires PolicyOk(p) && |books| == 4 && (forall i | 0 <= i < 4 :: BookOk(books[i], p.increment)) && |recent| == 4
    requires forall a | a in acts :: Ready(books, a, isNew, p)
    ensures var clamped := Clamped(ThrottledAll(acts, recent), p); var kept := Filtered(acc, clamped, |clamped|, running).0;
            && |kept| <= |acts| && (Distinct(acts) ==> Distinct(kept))
            && (forall k | k in kept :: Ready(books, k, isNew, p) && Whole(k.qty, p.increment))
            && (forall k | k in kept :: exists a :: a in acts && BookOf(a) == BookOf(k))
  {
    ThrottledSub(acts, recent);
    var throttled := ThrottledAll(acts, recent);
    ClampedSound(books, throttled, isNew, p);
    var clamped := Clamped(throttled, p);
    FilteredSub(acc, clamped, |clamped|, running);
    var kept := Filtered(acc, clamped, |clamped|, running).0;
    assert clamped[..|clamped|] == clamped;
    forall k | k in kept ensures exists a :: a in acts && BookOf(a) == BookOf(k) {
      ClampedFrom(acts, throttled, k, p);
    }
  }

  /** The filtered plan is sound, and the risk check's running total is the reservation it leads to. */
  lemma FiltersSound(d: Desk, intents: seq<Intent>, now: nat, stamp: nat, acc: Account, c: Config)
    requires ConfigOk(c) && DeskOk(d, c.policy.increment) && OneEach(intents) && Positive(intents)
    ensures var (acts, running) := Filters(d, intents, now, stamp, acc, c);
            && Sound(d.books, acts, c.policy)
            && AllReady(d.books, acts.news, true, c.policy) && AllReady(d.books, acts.repls, false, c.policy)
            && running == d.reserved + Sum(acts.news) + Sum(acts.repls)
  {
    var plan, recent := Diff(d.books, intents, stamp, c.policy), Recent(d.books, now, c.policy);
    DiffSound(d.books, intents, stamp, c.policy);
    StagesSound(d.books, plan.news, true, recent, acc, d.reserved, c.policy);
    var news := Clamped(ThrottledAll(plan.news, recent), c.policy);
    StagesSound(d.books, plan.repls, false, recent, acc, Filtered(acc, news, |news|, d.reserved).1, c.policy);
  }

  lemma {:induction false} SameHeld(s: seq<Slot>, t: seq<Slot>)
    requires |s| == |t| && forall i | 0 <= i < |s| :: SlotQty(s[i]) == SlotQty(t[i])
    ensures Held(s) == Held(t)
  {
    if s != [] { SameHeld(s[..|s| - 1], t[..|t| - 1]); }
  }

  lemma SweptBookOk(b: Book, book: nat, queue: multiset<Key>, now: nat, increment: nat)
    requires BookOk(b, increment)
    ensures BookOk(SweptBook(b, book, queue, now), increment)
    ensures Held(SweptBook(b, book, queue, now).slots) == Held(b.slots)
  {
    var b' := SweptBook(b, book, queue, now);
    SameHeld(b'.slots, b.slots);
    forall i | 0 <= i < SLOTS && b'.pending[i].Some? ensures ReplaceOk(b', i, increment) {
      assert ReplaceOk(b, i, increment);
    }
  }

  lemma SweepOk(d: Desk, now: nat, increment: nat)
    requires DeskOk(d, increment)
    ensures DeskOk(Sweep(d, now), increment) && Sweep(d, now).reserved == d.reserved
  {
    forall i | 0 <= i < 4
      ensures BookOk(Sweep(d, now).books[i], increment)
      ensures Held(Sweep(d, now).books[i].slots) == Held(d.books[i].slots)
    {
      SweptBookOk(d.books[i], i, d.queue, now, increment);
    }
  }

  /** `apply` keeps the desk in order and ends with the reservation the risk check computed. */
  lemma ApplyOk(d: Desk, intents: seq<Intent>, now: nat, stamp: nat, acc: Account, c: Config)
    requires ConfigOk(c) && DeskOk(d, c.policy.increment) && OneEach(intents) && Positive(intents)
    ensures DeskOk(Apply(d, intents, now, stamp, acc, c), c.policy.increment)
    ensures Apply(d, intents, now, stamp, acc, c).reserved
         == if intents == [] then d.reserved else Filters(d, intents, now, stamp, acc, c).1
  {
    if intents == [] {
      SweepOk(d, now, c.policy.increment);
    } else {
      FiltersSound(d, intents, now, stamp, acc, c);
      var acts := Filters(d, intents, now, stamp, acc, c).0;
      SendOk(d, acts, now, c);
      SweepOk(Send(d, acts, now, c), now, c.policy.increment);
    }
  }

  lemma UpdateIs(d: Desk, r: Report, now: nat, c: Config)
    requires Shapes(d.books) && c.policy.scale > 0
    ensures var d', i := Update(d, r, now, c), BookIndex(r.side, r.positionSide);
            var h := Handle(d.books[i], r, now, c.policy.scale);
            d'.books == d.books[i := h.book] && d'.reserved == d.reserved - Signed(r.side, h.released)
  {
  }

  lemma HandledOk(d: Desk, d': Desk, r: Report, h: Handled, increment: nat)
    requires DeskOk(d, increment) && Conserved(d.books[BookIndex(r.side, r.positionSide)], h, increment)
    requires d'.books == d.books[BookIndex(r.side, r.positionSide) := h.book]
    requires d'.reserved == d.reserved - Signed(r.side, h.released)
    ensures DeskOk(d', increment)
  {
    BookChangeOk(d, d', r.side, r.positionSide, h.book, increment);
  }

  lemma UpdateOk(d: Desk, r: Report, now: nat, c: Config)
    requires ConfigOk(c) && DeskOk(d, c.policy.increment)
    requires Consistent(d.books[BookIndex(r.side, r.positionSide)], r, c.policy.scale, c.policy.increment)
    ensures DeskOk(Update(d, r, now, c), c.policy.increment)
  {
    var b := d.books[BookIndex(r.side, r.positionSide)];
    HandleConserves(b, r, now, c.policy.scale, c.policy.increment);
    UpdateIs(d, r, now, c);
    HandledOk(d, Update(d, r, now, c), r, Handle(b, r, now, c.policy.scale), c.policy.increment);
  }

  /** Quotes with at most one active intent a side book, and reports consistent with the book they reach. */
  ghost predicate Plausible(w: World, e: Event, c: Config)
    requires Shapes(w.desk.books) && c.policy.scale > 0 && c.policy.increment > 0
  {
    match e
    case Quote(intents, _, _, _) => OneEach(intents) && Positive(intents)
    case Execution(r, _) =>
      Consistent(w.desk.books[BookIndex(r.side, r.positionSide)], r, c.policy.scale, c.policy.increment)
  }

  ghost predicate PlausibleRun(position: int, events: seq<Event>, c: Config)
    requires ConfigOk(c)
  {
    forall i | 0 <= i < |events| :: Plausible(Run(position, events[..i], c), events[i], c)
  }

  lemma StepOk(w: World, e: Event, c: Config)
    requires ConfigOk(c) && DeskOk(w.desk, c.policy.increment) && Plausible(w, e, c)
    ensures DeskOk(Step(w, e, c).desk, c.policy.increment)
  {
    match e
    case Quote(intents, now, stamp, pnl) =>
      ApplyOk(w.desk, intents, now, stamp, Account(c.limits, w.position, pnl), c);
    case Execution(r, now) => UpdateOk(w.desk, r, now, c);
  }

  lemma {:induction false} EmptyHeld(n: nat)
    ensures Held(seq(n, _ => Slot(Invalid, UNSET, UNSET, 0, NO_ID))) == 0
  {
    if n > 0 {
      EmptyHeld(n - 1);
      var s := seq(n, _ => Slot(Invalid, UNSET, UNSET, 0, NO_ID));
      SameHeld(s[..n - 1], seq(n - 1, _ => Slot(Invalid, UNSET, UNSET, 0, NO_ID)));
    }
  }

  lemma StartOk(position: int, c: Config)
    requires ConfigOk(c)
    ensures DeskOk(Start(position).desk, c.policy.increment)
  {
    EmptyHeld(SLOTS);
    SameHeld(EmptyBook().slots, seq(SLOTS, _ => Slot(Invalid, UNSET, UNSET, 0, NO_ID)));
  }

  lemma PrefixPlausible(position: int, events: seq<Event>, n: nat, c: Config)
    requires ConfigOk(c) && PlausibleRun(position, events, c) && n <= |events|
    ensures PlausibleRun(position, events[..n], c)
  {
    forall i | 0 <= i < n ensures var ok := Plausible(Run(position, events[..n][..i], c), events[..n][i], c); ok {
      assert events[..n][..i] == events[..i];
    }
  }

  /** At every point of every plausible run the reserved position is exactly what the live layers hold. */
  lemma {:induction false} ReservedIsHeld(position: int, events: seq<Event>, c: Config)
    requires ConfigOk(c) && PlausibleRun(position, events, c)
    ensures DeskOk(Run(position, events, c).desk, c.policy.increment)
  {
    if events == [] {
      StartOk(position, c);
    } else {
      var n := |events| - 1;
      PrefixPlausible(position, events, n, c);
      ReservedIsHeld(position, events[..n], c);
      StepOk(Run(position, events[..n], c), events[n], c);
    }
  }

  // ----- a replace from end to end -----

  /** The id under which the venue answers a replace. */
  function ReplyId(a: Action, c: Config): nat {
    if c.reorder then a.id else a.oldId
  }

  /**
   * A rejected replace leaves the book as it was before it, but for the layer's last use, and gives back what it
   * reserved.
   */
  lemma ReplaceUndone(b: Book, a: Action, r: Report, now: nat, later: nat, c: Config)
    requires ConfigOk(c) && ReadyReplace(b, a, c.policy) && b.pending[a.layer].None?
    requires (r.status == Rejected || r.status == Expired) && r.id == ReplyId(a, c)
    ensures var h := Handle(PlacedReplace(b, a, now, c), r, later, c.policy.scale);
            && h.book.slots == b.slots[a.layer := b.slots[a.layer].(lastUsed := now)]
            && h.book.ticks == b.ticks && h.book.pending == b.pending
            && h.released == a.qty - a.lastQty
  {
    var b1 := PlacedReplace(b, a, now, c);
    assert b1.newIds[r.id] == a.layer && RejectsReplace(b1, r);
    var b2 := Restored(b1, a.layer, r.id).book;
    assert b2.slots == b.slots[a.layer := b.slots[a.layer].(lastUsed := now)];
    assert b2.ticks == b.ticks && b2.pending == b.pending;
  }

  /** The cancel half and then the new half of a cancel-and-reorder leave the new order live and nothing in flight. */
  lemma ReplaceCompletes(b: Book, a: Action, cancel: Report, ack: Report, now: nat, later: nat, c: Config)
    requires ConfigOk(c) && ReadyReplace(b, a, c.policy) && c.reorder
    requires cancel.status == Canceled && cancel.id == CancelId(a.id)
    requires ack.status == AckNew && ack.id == a.id && ack.price == a.price && ack.leaves == a.qty
    ensures var h1 := Handle(PlacedReplace(b, a, now, c), cancel, later, c.policy.scale);
            var h2 := Handle(h1.book, ack, later, c.policy.scale);
            && h1.released == 0 == h2.released
            && h2.book.slots == b.slots[a.layer := Slot(Live, a.price, a.qty, now, a.id)]
            && h2.book.ticks == b.ticks[a.layer := ToTicks(a.price, c.policy.scale)]
            && h2.book.pending == b.pending[a.layer := None]
            && a.id !in h2.book.newIds && CancelId(a.id) !in h2.book.cancelIds
  {
    var b1 := PlacedReplace(b, a, now, c);
    assert b1.cancelIds[cancel.id] == a.layer;
    var b2 := HandleCanceled(b1, cancel, c.policy.scale).book;
    assert b2.newIds[ack.id] == a.layer;
    var b3 := HandleNew(b2, ack, c.policy.scale).book;
    assert b3.slots == b.slots[a.layer := Slot(Live, a.price, a.qty, now, a.id)];
    assert b3.pending == b.pending[a.layer := None];
  }
}

/** Two active intents on one side book: exactly when the reserved position still is what the layers hold. */
module DeskPairs {
  import opened Wrappers
  import opened LayerBook
  import opened OrderState
  import opened Reconcile
  import opened OrderDesk
  import opened DeskRuns

  /**
   * Two quotes at one tick, or at ticks the book does not know, are planned on the same layer, as new orders or as an
   * eviction alike.
   */
  lemma SameLayer(b: Book, it: Intent, other: Intent, stamp: nat, p: Policy)
    requires Shape(b) && p.scale > 0 && Active(it) && Active(other)
    requires var t, u := ToTicks(it.price.value, p.scale), ToTicks(other.price.value, p.scale);
             t == u || (FindByTick(b, t) < 0 && FindByTick(b, u) < 0)
    ensures var c, e := Choose(b, it, stamp, p), Choose(b, other, stamp, p);
            && (c.NewOrder? <==> e.NewOrder?)
            && (!c.Nothing? && !e.Nothing? ==> c.action.layer == e.action.layer)
            && (PlanLayer(b, ToTicks(it.price.value, p.scale)).evicts ==> c.ReplaceOrder? && e.ReplaceOrder?)
  {
  }

  // ----- two actions on one side book -----

  lemma HeldPlaced(b: Book, a: Action, isNew: bool, now: nat, c: Config)
    requires Shape(b) && c.policy.scale > 0
    ensures Held(Placed(b, a, isNew, now, c).slots) == Held(b.slots) - SlotQty(b.slots[a.layer]) + a.qty
  {
    HeldUpdate(b.slots, a.layer, Slot(if isNew then Reserved else CancelReserved, a.price, a.qty, now, a.id));
  }

  /**
   * The second action leaves the reservation right: it is on another layer, the first one moved nothing, or it is not
   * carried out.
   */
  ghost predicate PairGuard(b: Book, first: Action, isNew: bool, second: Action, now: nat, c: Config)
    requires Shape(b) && c.policy.scale > 0
  {
    first.layer != second.layer || first.qty == first.lastQty || Blocked(Placed(b, first, isNew, now, c), second, c.policy)
  }

  /** What the second action finds on its layer. */
  lemma FoundQty(b: Book, first: Action, firstNew: bool, second: Action, secondNew: bool, now: nat, c: Config)
    requires c.policy.scale > 0 && Shape(b)
    requires if firstNew then ReadyNew(b, first, c.policy) else ReadyReplace(b, first, c.policy)
    requires if secondNew then ReadyNew(b, second, c.policy) else ReadyReplace(b, second, c.policy)
    ensures var s := Placed(b, first, firstNew, now, c).slots[second.layer];
            if first.layer == second.layer then SlotQty(s) == first.qty && first.lastQty == second.lastQty
            else SlotQty(s) == second.lastQty
  {
  }

  /** A desk whose reservation is right, after one action more. */
  lemma OneMoreAction(d: Desk, d': Desk, a: Action, isNew: bool, now: nat, c: Config)
    requires |d.books| == 4 && c.policy.scale > 0 && Shape(d.books[BookOf(a)]) && d.reserved == Total(d.books)
    requires d'.books == d.books[BookOf(a) := Placed(d.books[BookOf(a)], a, isNew, now, c)]
    requires d'.reserved == d.reserved + Delta(a)
    ensures d'.reserved - Total(d'.books) == Signed(a.side, SlotQty(d.books[BookOf(a)].slots[a.layer]) - a.lastQty)
  {
    var b := d.books[BookOf(a)];
    HeldPlaced(b, a, isNew, now, c);
    TotalUpdate(d.books, a.side, a.positionSide, Placed(b, a, isNew, now, c));
  }

  /** The gap the second action leaves once it is carried out. */
  lemma PairGap(d: Desk, b: Book, first: Action, firstNew: bool, second: Action, secondNew: bool, now: nat, c: Config)
    requires Shapes(d.books) && c.policy.scale > 0 && d.reserved == Total(d.books) && Shape(b)
    requires BookOf(first) == BookOf(second) && d.books[BookOf(second)] == Placed(b, first, firstNew, now, c)
    requires !Blocked(d.books[BookOf(second)], second, c.policy)
    requires if firstNew then ReadyNew(b, first, c.policy) else ReadyReplace(b, first, c.policy)
    requires if secondNew then ReadyNew(b, second, c.policy) else ReadyReplace(b, second, c.policy)
    ensures var d' := Place(d, second, secondNew, now, c);
            && |d'.books| == 4
            && d'.reserved - Total(d'.books)
            == if first.layer == second.layer then Signed(first.side, first.qty - first.lastQty) else 0
  {
    FoundQty(b, first, firstNew, second, secondNew, now, c);
    OneMoreAction(d, Place(d, second, secondNew, now, c), second, secondNew, now, c);
  }

  /** How far the reservation is above what the layers hold. */
  function Excess(d: Desk): int
    requires |d.books| == 4
  {
    d.reserved - Total(d.books)
  }

  lemma SecondConservesIff(d: Desk, b: Book, first: Action, firstNew: bool, second: Action, secondNew: bool, now: nat, c: Config)
    requires Shapes(d.books) && c.policy.scale > 0 && Excess(d) == 0 && Shape(b)
    requires BookOf(first) == BookOf(second) && d.books[BookOf(first)] == Placed(b, first, firstNew, now, c)
    requires if firstNew then ReadyNew(b, first, c.policy) else ReadyReplace(b, first, c.policy)
    requires if secondNew then ReadyNew(b, second, c.policy) else ReadyReplace(b, second, c.policy)
    ensures var d' := Place(d, second, secondNew, now, c);
            && |d'.books| == 4
            && (Excess(d') == 0 || Excess(d') == Signed(first.side, first.qty - first.lastQty))
            && (Excess(d') == 0 <==> PairGuard(b, first, firstNew, second, now, c))
  {
    if !Blocked(d.books[BookOf(second)], second, c.policy) {
      PairGap(d, b, first, firstNew, second, secondNew, now, c);
    }
  }

  /**
   * Carrying out two ready actions of one side book conserves exactly under the guard; otherwise the reservation is
   * off by what the first one reserved.
   */
  lemma PairConservesIff(d: Desk, first: Action, firstNew: bool, second: Action, secondNew: bool, now: nat, c: Config)
    requires ConfigOk(c) && DeskOk(d, c.policy.increment) && BookOf(first) == BookOf(second)
    requires Ready(d.books, first, firstNew, c.policy) && Ready(d.books, second, secondNew, c.policy)
    requires Whole(first.qty, c.policy.increment)
    ensures Shapes(Place(d, first, firstNew, now, c).books)
    ensures var d' := Place(Place(d, first, firstNew, now, c), second, secondNew, now, c);
            && |d'.books| == 4
            && (Excess(d') == 0 || Excess(d') == Signed(first.side, first.qty - first.lastQty))
            && (Excess(d') == 0 <==> PairGuard(d.books[BookOf(first)], first, firstNew, second, now, c))
  {
    AfterFirst(d, first, firstNew, now, c);
    SecondConservesIff(Place(d, first, firstNew, now, c), d.books[BookOf(first)], first, firstNew, second, secondNew, now, c);
  }

  lemma AfterFirst(d: Desk, a: Action, isNew: bool, now: nat, c: Config)
    requires ConfigOk(c) && DeskOk(d, c.policy.increment)
    requires Ready(d.books, a, isNew, c.policy) && Whole(a.qty, c.policy.increment)
    ensures var d' := Place(d, a, isNew, now, c);
            && Shapes(d'.books) && Excess(d') == 0
            && d'.books[BookOf(a)] == Placed(d.books[BookOf(a)], a, isNew, now, c)
  {
    PlaceShapes(d, a, isNew, now, c);
    PlaceIs(d, a, isNew, now, c);
    RightAfterOne(d, a, isNew, now, c);
  }

  lemma RightAfterOne(d: Desk, a: Action, isNew: bool, now: nat, c: Config)
    requires ConfigOk(c) && DeskOk(d, c.policy.increment)
    requires Ready(d.books, a, isNew, c.policy) && Whole(a.qty, c.policy.increment)
    ensures |Place(d, a, isNew, now, c).books| == 4 && Excess(Place(d, a, isNew, now, c)) == 0
  {
    PlaceOk(d, a, isNew, now, c);
  }

  // ----- two intents in one apply -----

  /** All the actions, as they are carried out. */
  function InOrder(acts: Actions): seq<Action> {
    acts.news + acts.repls
  }

  /** Every action is ready, whole and on side book `i`. */
  ghost predicate AllOn(books: seq<Book>, acts: Actions, i: nat, p: Policy) {
    && |books| == 4
    && (forall a | a in acts.news :: Ready(books, a, true, p) && Whole(a.qty, p.increment) && BookOf(a) == i)
    && (forall a | a in acts.repls :: Ready(books, a, false, p) && Whole(a.qty, p.increment) && BookOf(a) == i)
  }

  /** The plan for two intents of one side: one after the other. */
  lemma DiffTwo(books: seq<Book>, x: Intent, y: Intent, stamp: nat, p: Policy)
    requires Shapes(books) && p.scale > 0 && Active(x) && Active(y) && (x.side == y.side || x.side == Buy)
    ensures Diff(books, [x, y], stamp, p)
         == Added(Added(Actions([], []), Choose(books[BookIndex(x.side, x.positionSide)], x, stamp, p)),
                  Choose(books[BookIndex(y.side, y.positionSide)], y, stamp, p))
  {
    var none, intents := Actions([], []), [x, y];
    TwoSteps(books, none, x, y, Buy, stamp, p);
    TwoSteps(books, DiffSide(books, none, intents, Buy, 2, stamp, p), x, y, Sell, stamp, p);
  }

  lemma TwoSteps(books: seq<Book>, acts: Actions, x: Intent, y: Intent, side: Side, stamp: nat, p: Policy)
    requires Shapes(books) && p.scale > 0
    ensures DiffSide(books, acts, [x, y], side, 2, stamp, p)
         == DiffIntent(books, DiffIntent(books, acts, x, side, stamp, p), y, side, stamp, p)
  {
    assert DiffSide(books, acts, [x, y], side, 1, stamp, p) == DiffIntent(books, acts, x, side, stamp, p);
  }

  /** The plan for two intents on one side book has at most two actions, all ready and all on it. */
  lemma PlanTwo(books: seq<Book>, x: Intent, y: Intent, stamp: nat, p: Policy)
    requires Shapes(books) && p.scale > 0 && Active(x) && Active(y) && x.price.value > 0 && y.price.value > 0
    requires BookIndex(x.side, x.positionSide) == BookIndex(y.side, y.positionSide)
    ensures var plan, i := Diff(books, [x, y], stamp, p), BookIndex(x.side, x.positionSide);
            && |plan.news| + |plan.repls| <= 2
            && (forall a | a in plan.news :: Ready(books, a, true, p) && BookOf(a) == i)
            && (forall a | a in plan.repls :: Ready(books, a, false, p) && BookOf(a) == i)
  {
    DiffTwo(books, x, y, stamp, p);
    ChooseReady(books[BookIndex(x.side, x.positionSide)], x, stamp, p);
    ChooseReady(books[BookIndex(y.side, y.positionSide)], y, stamp, p);
  }

  lemma FiltersTwo(d: Desk, x: Intent, y: Intent, now: nat, stamp: nat, acc: Account, c: Config)
    requires ConfigOk(c) && DeskOk(d, c.policy.increment)
    requires Active(x) && Active(y) && x.price.value > 0 && y.price.value > 0
    requires BookIndex(x.side, x.positionSide) == BookIndex(y.side, y.positionSide)
    ensures var acts := Filters(d, [x, y], now, stamp, acc, c).0;
            |InOrder(acts)| <= 2 && AllOn(d.books, acts, BookIndex(x.side, x.positionSide), c.policy)
  {
    PlanTwo(d.books, x, y, stamp, c.policy);
    var plan, recent := Diff(d.books, [x, y], stamp, c.policy), Recent(d.books, now, c.policy);
    StagesSound(d.books, plan.news, true, recent, acc, d.reserved, c.policy);
    var news := Clamped(ThrottledAll(plan.news, recent), c.policy);
    StagesSound(d.books, plan.repls, false, recent, acc, Filtered(acc, news, |news|, d.reserved).1, c.policy);
  }

  /** Carrying out two actions or fewer. */
  lemma SendFew(d: Desk, acts: Actions, now: nat, c: Config)
    requires Shapes(d.books) && c.policy.scale > 0 && |InOrder(acts)| <= 2
    ensures var all, n := InOrder(acts), |acts.news|;
            && (|all| == 0 ==> Send(d, acts, now, c) == d)
            && (|all| == 1 ==> Send(d, acts, now, c) == Place(d, all[0], n > 0, now, c))
            && (|all| == 2 ==>
                  Shapes(Place(d, all[0], n > 0, now, c).books) &&
                  Send(d, acts, now, c) == Place(Place(d, all[0], n > 0, now, c), all[1], n > 1, now, c))
  {
    if |InOrder(acts)| == 2 { PlaceShapes(d, InOrder(acts)[0], |acts.news| > 0, now, c); }
    PlaceFew(d, acts.news, true, now, c);
    PlaceFew(PlaceAll(d, acts.news, |acts.news|, true, now, c), acts.repls, false, now, c);
  }

  lemma PlaceFew(d: Desk, acts: seq<Action>, isNew: bool, now: nat, c: Config)
    requires Shapes(d.books) && c.policy.scale > 0 && |acts| <= 2
    ensures |acts| == 0 ==> PlaceAll(d, acts, |acts|, isNew, now, c) == d
    ensures |acts| == 1 ==> PlaceAll(d, acts, |acts|, isNew, now, c) == Place(d, acts[0], isNew, now, c)
    ensures |acts| == 2 ==>
              && Shapes(Place(d, acts[0], isNew, now, c).books)
              && PlaceAll(d, acts, |acts|, isNew, now, c)
              == Place(Place(d, acts[0], isNew, now, c), acts[1], isNew, now, c)
  {
    if |acts| == 2 {
      PlaceShapes(d, acts[0], isNew, now, c);
      assert PlaceAll(d, acts, 1, isNew, now, c) == Place(d, acts[0], isNew, now, c);
    }
  }

  /** A sweep changes neither the reservation nor what the layers hold. */
  lemma SweepTotal(d: Desk, now: nat)
    requires Shapes(d.books)
    ensures Sweep(d, now).reserved == d.reserved && Total(Sweep(d, now).books) == Total(d.books)
  {
    forall i | 0 <= i < 4 ensures Held(Sweep(d, now).books[i].slots) == Held(d.books[i].slots) {
      SameHeld(Sweep(d, now).books[i].slots, d.books[i].slots);
    }
  }

  /** Fewer than two actions, or two under the guard. */
  ghost predicate FewGuard(b: Book, acts: Actions, now: nat, c: Config)
    requires Shape(b) && c.policy.scale > 0
  {
    var all := InOrder(acts);
    |all| < 2 || PairGuard(b, all[0], |acts.news| > 0, all[1], now, c)
  }

  lemma SendPairIff(d: Desk, acts: Actions, i: nat, now: nat, c: Config)
    requires ConfigOk(c) && DeskOk(d, c.policy.increment) && i < 4
    requires |InOrder(acts)| <= 2 && AllOn(d.books, acts, i, c.policy)
    ensures Excess(Send(d, acts, now, c)) == 0 <==> FewGuard(d.books[i], acts, now, c)
  {
    var all, n := InOrder(acts), |acts.news|;
    SendFew(d, acts, now, c);
    if |all| > 0 {
      assert all[0] in (if n > 0 then acts.news else acts.repls);
      RightAfterOne(d, all[0], n > 0, now, c);
    }
    if |all| == 2 {
      assert all[1] in (if n > 1 then acts.news else acts.repls);
      PairConservesIff(d, all[0], n > 0, all[1], n > 1, now, c);
    }
  }

  /**
   * One apply with two active intents on one side book conserves exactly when the filters leave fewer than two
   * actions, or two under the guard.
   */
  lemma ApplyPairIff(d: Desk, x: Intent, y: Intent, now: nat, stamp: nat, acc: Account, c: Config)
    requires ConfigOk(c) && DeskOk(d, c.policy.increment)
    requires Active(x) && Active(y) && x.price.value > 0 && y.price.value > 0
    requires BookIndex(x.side, x.positionSide) == BookIndex(y.side, y.positionSide)
    ensures var d', acts := Apply(d, [x, y], now, stamp, acc, c), Filters(d, [x, y], now, stamp, acc, c).0;
            && |InOrder(acts)| <= 2
            && (Excess(d') == 0 <==> FewGuard(d.books[BookIndex(x.side, x.positionSide)], acts, now, c))
  {
    var acts := Filters(d, [x, y], now, stamp, acc, c).0;
    FiltersTwo(d, x, y, now, stamp, acc, c);
    SendPairIff(d, acts, BookIndex(x.side, x.positionSide), now, c);
    SweepTotal(Send(d, acts, now, c), now);
  }
}

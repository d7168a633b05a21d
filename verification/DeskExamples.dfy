/** Concrete runs of the desk that leave what the run theorems guard. */
module DeskExamples {
  import opened Wrappers
  import opened Arith
  import opened LayerBook
  import opened OrderState
  import opened Reconcile
  import opened Expiry
  import opened OrderDesk
  import opened DeskRuns
  import opened DeskPairs
  import opened DeskLimits
  import opened DeskTtl

  // ----- a small desk -----

  /** Ticks and increments of one, no minimum value and no throttle. */
  const POLICY := Policy(1, 1, 1, 0, 0, 1000, 0, 1, 1)

  /** A cancel-and-reorder venue, a time to live of ten, and positions from `-limit` to `limit`. */
  function Setup(limit: int): Config {
    Config(POLICY, true, 10, 10, Limits(1000, limit, -limit, 0))
  }

  function Want(side: Side, price: int, qty: int): Intent {
    Intent(side, None, Some(price), qty)
  }

  /** The new order that an intent on an empty side book becomes. */
  function FirstOrder(side: Side, price: int, qty: int): Action {
    Action(0, price, qty, side, None, 1, NO_ID, 0)
  }

  // The orders of the runs below: two bids, an ask, and the bid raised to seven.
  const BID_5 := FirstOrder(Buy, 10, 5)
  const BID_7 := FirstOrder(Buy, 11, 7)
  const ASK_10 := FirstOrder(Sell, 20, 10)
  const RAISE := Action(0, 10, 7, Buy, None, 3, 1, 5)

  // ----- planning and filters on the small desk -----

  lemma PlainTick(price: nat)
    requires price < TWO_64
    ensures ToTicks(price, 1) == price
  {
  }

  lemma EmptyChoice(side: Side, price: int, qty: int)
    requires 0 < price < UNSET && 0 < qty
    ensures Choose(EmptyBook(), Want(side, price, qty), 1, POLICY) == NewOrder(FirstOrder(side, price, qty))
  {
    PlainTick(price);
    FindTickIsFirst(EmptyBook().ticks, price, 0);
    assert Free(EmptyBook(), 0);
  }

  /** The venue's clamps leave these orders alone. */
  lemma Unclamped()
    ensures Clamp(BID_5, POLICY) == BID_5 && Clamp(BID_7, POLICY) == BID_7
    ensures Clamp(ASK_10, POLICY) == ASK_10 && Clamp(RAISE, POLICY) == RAISE
  {
  }

  lemma PlainStages(books: seq<Book>, acts: seq<Action>, now: nat)
    requires |books| == 4 && forall i | 0 <= i < |acts| :: acts[i] in {BID_5, BID_7, ASK_10, RAISE}
    ensures Clamped(ThrottledAll(acts, Recent(books, now, POLICY)), POLICY) == acts
  {
    var recent := Recent(books, now, POLICY);
    assert forall i | 0 <= i < 4 :: !recent[i];
    Unclamped();
  }

  /** The filters on a plan of such orders: only the risk check is left. */
  lemma PlainFilters(d: Desk, intents: seq<Intent>, now: nat, stamp: nat, acc: Account, c: Config, plan: Actions)
    requires Shapes(d.books) && c.policy == POLICY && Diff(d.books, intents, stamp, POLICY) == plan
    requires forall i | 0 <= i < |plan.news| :: plan.news[i] in {BID_5, BID_7, ASK_10, RAISE}
    requires forall i | 0 <= i < |plan.repls| :: plan.repls[i] in {BID_5, BID_7, ASK_10, RAISE}
    ensures var news := Filtered(acc, plan.news, |plan.news|, d.reserved);
            var repls := Filtered(acc, plan.repls, |plan.repls|, news.1);
            Filters(d, intents, now, stamp, acc, c) == (Actions(news.0, repls.0), repls.1)
  {
    PlainStages(d.books, plan.news, now);
    PlainStages(d.books, plan.repls, now);
  }

  lemma OnePasses(acc: Account, a: Action, running: int)
    requires Passes(acc, a, running)
    ensures Filtered(acc, [a], 1, running) == ([a], running + Delta(a))
  {
    assert Filtered(acc, [a], 0, running) == ([], running);
  }

  lemma BothPass(acc: Account, a: Action, b: Action, running: int)
    requires Passes(acc, a, running) && Passes(acc, b, running + Delta(a))
    ensures Filtered(acc, [a, b], 2, running) == ([a, b], running + Delta(a) + Delta(b))
  {
    assert Filtered(acc, [a, b], 0, running) == ([], running);
    assert Filtered(acc, [a, b], 1, running) == ([a], running + Delta(a));
    assert [a, b][1] == b && [a] + [b] == [a, b];
  }

  lemma NewsPass(d: Desk, intents: seq<Intent>, now: nat, stamp: nat, acc: Account, c: Config, news: seq<Action>, total: int)
    requires Shapes(d.books) && c.policy == POLICY && Diff(d.books, intents, stamp, POLICY) == Actions(news, [])
    requires forall i | 0 <= i < |news| :: news[i] in {BID_5, BID_7, ASK_10, RAISE}
    requires Filtered(acc, news, |news|, d.reserved) == (news, total)
    ensures Filters(d, intents, now, stamp, acc, c) == (Actions(news, []), total)
  {
    PlainFilters(d, intents, now, stamp, acc, c, Actions(news, []));
  }

  /** A sweep before anything is due. */
  lemma NothingDue(d: Desk, now: nat)
    requires Shapes(d.books) && forall k | k in d.queue :: k.expire > now
    ensures Sweep(d, now) == d
  {
    forall i | 0 <= i < 4 ensures SweptBook(d.books[i], i, d.queue, now) == d.books[i] {
      assert SweptBook(d.books[i], i, d.queue, now).slots == d.books[i].slots;
    }
    assert Sweep(d, now).books == d.books;
    assert Left(d.queue, now) == d.queue;
  }

  /** The plan for two quotes on an empty desk. */
  lemma FirstPlan(y: Intent, b: Action)
    requires (y == Want(Buy, 11, 7) && b == BID_7) || (y == Want(Sell, 20, 10) && b == ASK_10)
    ensures Diff(Start(0).desk.books, [Want(Buy, 10, 5), y], 1, POLICY) == Actions([BID_5, b], [])
  {
    EmptyChoice(Buy, 10, 5);
    EmptyChoice(Buy, 11, 7);
    EmptyChoice(Sell, 20, 10);
    DiffTwo(Start(0).desk.books, Want(Buy, 10, 5), y, 1, POLICY);
  }

  lemma PassTwo(d: Desk, intents: seq<Intent>, a: Action, b: Action, acc: Account, c: Config)
    requires Shapes(d.books) && c.policy == POLICY && d.reserved == 0
    requires Diff(d.books, intents, 1, POLICY) == Actions([a, b], [])
    requires a == BID_5 && (b == BID_7 || b == ASK_10) && Passes(acc, a, 0) && Passes(acc, b, 5)
    ensures Filters(d, intents, 1, 1, acc, c).0 == Actions([a, b], [])
  {
    BothPass(acc, a, b, 0);
    NewsPass(d, intents, 1, 1, acc, c, [a, b], Delta(a) + Delta(b));
  }

  // ----- two intents on one side book -----

  /**
   * Two bids in one apply of an empty desk: the second takes the first one's layer, and five units stay reserved that
   * no layer holds.
   */
  lemma TwoBidsOverbook()
    ensures var acc, c := Account(Setup(100).limits, 0, 0), Setup(100);
            var d := Apply(Start(0).desk, [Want(Buy, 10, 5), Want(Buy, 11, 7)], 1, 1, acc, c);
            ConfigOk(c) && d.reserved != Total(d.books)
  {
    var acc, c, d := Account(Setup(100).limits, 0, 0), Setup(100), Start(0).desk;
    FirstPlan(Want(Buy, 11, 7), BID_7);
    PassTwo(d, [Want(Buy, 10, 5), Want(Buy, 11, 7)], BID_5, BID_7, acc, c);
    StartOk(0, c);
    Overbooks(d, Want(Buy, 10, 5), Want(Buy, 11, 7), acc, c);
  }

  lemma Overbooks(d: Desk, x: Intent, y: Intent, acc: Account, c: Config)
    requires c == Setup(100) && DeskOk(d, c.policy.increment) && d.books[0] == EmptyBook()
    requires x == Want(Buy, 10, 5) && y == Want(Buy, 11, 7)
    requires Filters(d, [x, y], 1, 1, acc, c).0 == Actions([BID_5, BID_7], [])
    ensures Excess(Apply(d, [x, y], 1, 1, acc, c)) != 0
  {
    ApplyPairIff(d, x, y, 1, 1, acc, c);
    OverwritesBid(c);
  }

  lemma OverwritesBid(c: Config)
    requires c == Setup(100)
    ensures !PairGuard(EmptyBook(), BID_5, true, BID_7, 1, c)
  {
    PlainTick(10);
    PlainTick(11);
    FindTickIsFirst(Placed(EmptyBook(), BID_5, true, 1, c).ticks, 11, 0);
  }

  // ----- runs, one event at a time -----

  lemma Extend(events: seq<Event>, e: Event, c: Config)
    requires ConfigOk(c)
    ensures Run(0, events + [e], c) == Step(Run(0, events, c), e, c)
    ensures PlausibleRun(0, events, c) && Plausible(Run(0, events, c), e, c) ==> PlausibleRun(0, events + [e], c)
    ensures FairRun(0, events, c) && FairEvent(Run(0, events, c), e, c) ==> FairRun(0, events + [e], c)
    ensures TraceableRun(0, events, c) && Traceable(Run(0, events, c), e, c) ==> TraceableRun(0, events + [e], c)
  {
    var more := events + [e];
    assert more[..|events|] == events;
    assert forall i | 0 <= i < |events| :: more[..i] == events[..i] && more[i] == events[i];
  }

  lemma FirstEvent(e: Event, c: Config)
    requires ConfigOk(c) && e.Quote? && Plausible(Start(0), e, c)
    ensures Run(0, [e], c) == Step(Start(0), e, c)
    ensures PlausibleRun(0, [e], c) && FairRun(0, [e], c) && TraceableRun(0, [e], c)
  {
    Extend([], e, c);
    assert [] + [e] == [e];
  }

  /** The bid of five on an otherwise unused side book. */
  ghost predicate Lone(b: Book, s: Slot) {
    && Shape(b) && b.slots[0] == s && b.ticks[0] == 10 && b.pending[0] == None
    && b.newIds == map[] && b.cancelIds == map[] && forall j | 1 <= j < SLOTS :: b.slots[j].id == NO_ID
  }

  /** A first order on an unused side book is carried out. */
  lemma PlaceFirst(d: Desk, a: Action, c: Config)
    requires Shapes(d.books) && c.policy == POLICY && d.books[BookOf(a)] == EmptyBook() && (a == BID_5 || a == ASK_10)
    ensures var d' := Place(d, a, true, 1, c);
            && Shapes(d'.books) && d'.books == d.books[BookOf(a) := PlacedNew(EmptyBook(), a, 1, c)]
            && d'.reserved == d.reserved + Delta(a)
            && d'.queue == d.queue + multiset{Key(1 + c.ttlReserved, BookOf(a), 0, 1)}
  {
    PlainTick(a.price);
    FindTickIsFirst(EmptyBook().ticks, a.price, 0);
    PlaceShapes(d, a, true, 1, c);
  }

  lemma LoneBid(c: Config)
    requires c.policy == POLICY
    ensures Lone(PlacedNew(EmptyBook(), BID_5, 1, c), Slot(Reserved, 10, 5, 1, 1))
  {
    PlainTick(10);
  }

  // ----- a cancel that leaves the position limits -----

  const BOTH_SIDES := Quote([Want(Buy, 10, 5), Want(Sell, 20, 10)], 1, 1, 0)
  const BID_CANCELED := Report(Canceled, 1, 10, 0, 0, Buy, None, false)

  lemma SendBoth(d: Desk, c: Config)
    requires d == Start(0).desk && c == Setup(5)
    ensures var d' := Send(d, Actions([BID_5, ASK_10], []), 1, c);
            && d'.reserved == -5 && Lone(d'.books[0], Slot(Reserved, 10, 5, 1, 1))
            && forall k | k in d'.queue :: k.expire == 11
  {
    SendFew(d, Actions([BID_5, ASK_10], []), 1, c);
    LoneBid(c);
    PlaceFirst(d, BID_5, c);
    PlaceFirst(Place(d, BID_5, true, 1, c), ASK_10, c);
  }

  lemma OpenBoth(c: Config)
    requires c == Setup(5)
    ensures var d := Step(Start(0), BOTH_SIDES, c).desk; d.reserved == -5 && Lone(d.books[0], Slot(Reserved, 10, 5, 1, 1))
  {
    var d, acc := Start(0).desk, Account(c.limits, 0, 0);
    FirstPlan(Want(Sell, 20, 10), ASK_10);
    PassTwo(d, [Want(Buy, 10, 5), Want(Sell, 20, 10)], BID_5, ASK_10, acc, c);
    SendBoth(d, c);
    NothingDue(Send(d, Actions([BID_5, ASK_10], []), 1, c), 1);
  }

  lemma CancelFits(w: World, c: Config)
    requires Shapes(w.desk.books) && c == Setup(5) && w.position == 0 && w.desk.reserved == -5
    requires Lone(w.desk.books[0], Slot(Reserved, 10, 5, 1, 1))
    ensures var e := Execution(BID_CANCELED, 2);
            && Plausible(w, e, c) && FairEvent(w, e, c) && WithinLimits(w, c) && !WithinLimits(Step(w, e, c), c)
  {
    FindSlotIsFirst(w.desk.books[0].slots, 1, 0);
    ReportWithinIff(w, BID_CANCELED, 2, c);
  }

  /** A bid of five and an ask of ten pass the limit of five; once the bid is canceled the ask alone is past it. */
  lemma CancelLeavesLimits()
    ensures var c, events := Setup(5), [BOTH_SIDES] + [Execution(BID_CANCELED, 2)];
            && ConfigOk(c) && PlausibleRun(0, events, c) && FairRun(0, events, c)
            && WithinLimits(Run(0, [BOTH_SIDES], c), c) && !WithinLimits(Run(0, events, c), c)
  {
    var c := Setup(5);
    OpenBoth(c);
    FirstEvent(BOTH_SIDES, c);
    CancelFits(Run(0, [BOTH_SIDES], c), c);
    Extend([BOTH_SIDES], Execution(BID_CANCELED, 2), c);
  }

  // ----- an order that comes back without a time to live -----

  const ONE_BID := Quote([Want(Buy, 10, 5)], 1, 1, 0)
  const BID_LIVE := Report(AckNew, 1, 10, 5, 0, Buy, None, false)
  const RAISED := Quote([Want(Buy, 10, 7)], 100, 3, 0)
  const RAISE_REJECTED := Report(Rejected, 3, 10, 0, 0, Buy, None, false)

  lemma DiffOne(books: seq<Book>, x: Intent, stamp: nat)
    requires Shapes(books) && Active(x)
    ensures Diff(books, [x], stamp, POLICY)
         == Added(Actions([], []), Choose(books[BookIndex(x.side, x.positionSide)], x, stamp, POLICY))
  {
    OneStep(books, Actions([], []), x, Buy, stamp);
    OneStep(books, DiffSide(books, Actions([], []), [x], Buy, 1, stamp, POLICY), x, Sell, stamp);
  }

  lemma OneStep(books: seq<Book>, acts: Actions, x: Intent, side: Side, stamp: nat)
    requires Shapes(books)
    ensures DiffSide(books, acts, [x], side, 1, stamp, POLICY) == DiffIntent(books, acts, x, side, stamp, POLICY)
  {
    assert DiffSide(books, acts, [x], side, 0, stamp, POLICY) == acts;
  }

  lemma OpenBid(c: Config)
    requires c == Setup(100)
    ensures var d := Step(Start(0), ONE_BID, c).desk;
            Lone(d.books[0], Slot(Reserved, 10, 5, 1, 1)) && d.queue == multiset{Key(11, 0, 0, 1)} && d.reserved == 5
  {
    var d, acc, acts := Start(0).desk, Account(c.limits, 0, 0), Actions([BID_5], []);
    EmptyChoice(Buy, 10, 5);
    DiffOne(d.books, Want(Buy, 10, 5), 1);
    OnePasses(acc, BID_5, 0);
    NewsPass(d, [Want(Buy, 10, 5)], 1, 1, acc, c, [BID_5], 5);
    SendFew(d, acts, 1, c);
    LoneBid(c);
    PlaceFirst(d, BID_5, c);
    NothingDue(Send(d, acts, 1, c), 1);
  }

  lemma BidGoesLive(w: World, c: Config)
    requires Shapes(w.desk.books) && c == Setup(100) && Lone(w.desk.books[0], Slot(Reserved, 10, 5, 1, 1))
    ensures var e := Execution(BID_LIVE, 2); var d := Step(w, e, c).desk;
            && Plausible(w, e, c) && Traceable(w, e, c)
            && Lone(d.books[0], Slot(Live, 10, 5, 1, 1)) && d.reserved == w.desk.reserved
            && d.queue == w.desk.queue + multiset{Key(12, 0, 0, 1)}
  {
    var b := w.desk.books[0];
    PlainTick(10);
    FindSlotIsFirst(b.slots, 1, 0);
    FindSlotIsFirst(HandleNew(b, BID_LIVE, 1).book.slots, 1, 0);
  }

  lemma RaiseChoice(b: Book)
    requires Lone(b, Slot(Live, 10, 5, 1, 1))
    ensures Choose(b, Want(Buy, 10, 7), 3, POLICY) == ReplaceOrder(RAISE) && !Blocked(b, RAISE, POLICY)
  {
    PlainTick(10);
    FindTickIsFirst(b.ticks, 10, 0);
  }

  ghost predicate BidLive(w: World) {
    && Shapes(w.desk.books) && w.position == 0 && w.desk.reserved == 5
    && Lone(w.desk.books[0], Slot(Live, 10, 5, 1, 1)) && forall k | k in w.desk.queue :: k.expire <= 12
  }

  /** A replace of order 1 by order 3 is in flight on the first layer, and only the new order is in the queue. */
  ghost predicate Replacing(d: Desk) {
    && Shapes(d.books) && d.books[0].newIds == map[3 := 0]
    && d.books[0].pending[0].Some? && d.books[0].pending[0].value.oldId == 1
    && Occupied(d.books[0].slots[0]) && forall k | k in d.queue :: k.id == 3
  }

  lemma RaiseFilters(w: World, c: Config)
    requires c == Setup(100) && BidLive(w)
    ensures Filters(w.desk, [Want(Buy, 10, 7)], 100, 3, Account(c.limits, 0, 0), c).0 == Actions([], [RAISE])
  {
    var d, acc := w.desk, Account(c.limits, 0, 0);
    RaiseChoice(d.books[0]);
    DiffOne(d.books, Want(Buy, 10, 7), 3);
    PlainFilters(d, [Want(Buy, 10, 7)], 100, 3, acc, c, Actions([], [RAISE]));
    OnePasses(acc, RAISE, 5);
  }

  /** The bid is replaced by one of seven, and the sweep takes every entry of the bid. */
  lemma RaiseBid(w: World, c: Config)
    requires c == Setup(100) && BidLive(w)
    ensures Replacing(Step(w, RAISED, c).desk) && Plausible(w, RAISED, c) && Traceable(w, RAISED, c)
  {
    RaiseFilters(w, c);
    RaiseChoice(w.desk.books[0]);
    SendFew(w.desk, Actions([], [RAISE]), 100, c);
  }

  lemma RejectRevives(w: World, c: Config)
    requires c == Setup(100) && Replacing(w.desk)
    ensures var e := Execution(RAISE_REJECTED, 101);
            && Plausible(w, e, c) && ById(w.desk.books[0], RAISE_REJECTED, c.policy.scale)
            && !AllWatched(Step(w, e, c).desk)
  {
    var d := Step(w, Execution(RAISE_REJECTED, 101), c).desk;
    assert d.books[0].slots[0].state == Live && d.books[0].slots[0].id == 1;
    assert !HasEntry(d.queue, 0, 0, 1);
  }

  /** A bid is sent and goes live. */
  lemma LiveRun(live: seq<Event>, c: Config)
    requires live == [ONE_BID] + [Execution(BID_LIVE, 2)] && c == Setup(100)
    ensures PlausibleRun(0, live, c) && TraceableRun(0, live, c) && BidLive(Run(0, live, c))
  {
    OpenBid(c);
    FirstEvent(ONE_BID, c);
    BidGoesLive(Run(0, [ONE_BID], c), c);
    Extend([ONE_BID], Execution(BID_LIVE, 2), c);
  }

  /** The bid is raised after its time to live has run out. */
  lemma RaisedRun(live: seq<Event>, c: Config)
    requires c == Setup(100) && PlausibleRun(0, live, c) && TraceableRun(0, live, c) && BidLive(Run(0, live, c))
    ensures PlausibleRun(0, live + [RAISED], c) && TraceableRun(0, live + [RAISED], c)
    ensures Replacing(Run(0, live + [RAISED], c).desk)
  {
    RaiseBid(Run(0, live, c), c);
    Extend(live, RAISED, c);
  }

  /**
   * The bid goes live, is replaced after its time to live has run out, and the replace is rejected: it is live again
   * with no entry in the queue.
   */
  lemma RejectEscapes()
    ensures var c, before := Setup(100), [ONE_BID] + [Execution(BID_LIVE, 2)] + [RAISED];
            var events := before + [Execution(RAISE_REJECTED, 101)];
            && ConfigOk(c) && PlausibleRun(0, events, c) && TraceableRun(0, before, c)
            && ById(Run(0, before, c).desk.books[0], RAISE_REJECTED, c.policy.scale)
            && !AllWatched(Run(0, events, c).desk)
  {
    var c, live := Setup(100), [ONE_BID] + [Execution(BID_LIVE, 2)];
    LiveRun(live, c);
    RaisedRun(live, c);
    RejectRevives(Run(0, live + [RAISED], c), c);
    Extend(live + [RAISED], Execution(RAISE_REJECTED, 101), c);
  }
}

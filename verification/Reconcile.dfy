/** From quote intents to the orders the desk sends: reconciliation, venue rules and pre-trade risk. */
module Reconcile {
  import opened Arith
  import opened Wrappers
  import opened LayerBook
  import opened OrderState

  datatype Intent = Intent(side: Side, positionSide: Optional<PositionSide>, price: Optional<int>, qty: int)

  /** A new order, or a replace when `lastQty` and `oldId` are those of the order it replaces. */
  datatype Action = Action(layer: Layer, price: int, qty: int, side: Side, positionSide: Optional<PositionSide>,
                           id: nat, oldId: nat, lastQty: int)

  datatype Actions = Actions(news: seq<Action>, repls: seq<Action>)

  datatype Policy = Policy(scale: nat, minReplaceQty: int, minReplaceTick: nat,
                           minUsdt: int, minQty: int, maxQty: int, timeGap: nat, increment: nat, qtyScale: nat)

  ghost predicate PolicyOk(p: Policy) {
    p.scale > 0 && p.increment > 0 && p.qtyScale > 0 && p.minUsdt >= 0 && p.minQty >= 0 && p.maxQty >= 0
  }

  /** Long and unsided orders share the first pair of side books. */
  function BookIndex(side: Side, positionSide: Optional<PositionSide>): (i: nat)
    ensures i < 4
  {
    (if positionSide == Some(Short) then 2 else 0) + (if side == Buy then 0 else 1)
  }

  function BookOf(a: Action): nat {
    BookIndex(a.side, a.positionSide)
  }

  // ----- reconciliation -----

  predicate Active(it: Intent) {
    it.price.Some? && it.price.value != UNSET && it.qty > 0
  }

  predicate Differs(s: Slot, it: Intent, p: Policy)
    requires it.price.Some? && p.scale > 0
  {
    || Abs(ToTicks(s.price, p.scale) - ToTicks(it.price.value, p.scale)) >= p.minReplaceTick
    || Abs(s.qty - it.qty) >= p.minReplaceQty
  }

  datatype Choice = Nothing | NewOrder(action: Action) | ReplaceOrder(action: Action)

  /** What one active intent asks for, given the side book it quotes on. */
  function Choose(b: Book, it: Intent, stamp: nat, p: Policy): Choice
    requires Shape(b) && p.scale > 0 && it.price.Some?
  {
    var plan := PlanLayer(b, ToTicks(it.price.value, p.scale));
    var s := b.slots[plan.layer];
    var a := Action(plan.layer, it.price.value, it.qty, it.side, it.positionSide, stamp, s.id, s.qty);
    if plan.evicts then ReplaceOrder(a)
    else if !Occupied(s) then NewOrder(a.(oldId := NO_ID, lastQty := 0))
    else if s.state == Live && Differs(s, it, p) then ReplaceOrder(a)
    else Nothing
  }

  function Added(acts: Actions, c: Choice): Actions {
    match c
    case Nothing => acts
    case NewOrder(a) => acts.(news := acts.news + [a])
    case ReplaceOrder(a) => acts.(repls := acts.repls + [a])
  }

  predicate Shapes(books: seq<Book>) {
    |books| == 4 && forall i | 0 <= i < 4 :: Shape(books[i])
  }

  function DiffIntent(books: seq<Book>, acts: Actions, it: Intent, side: Side, stamp: nat, p: Policy): Actions
    requires Shapes(books) && p.scale > 0
  {
    if it.side == side && Active(it)
    then Added(acts, Choose(books[BookIndex(it.side, it.positionSide)], it, stamp, p))
    else acts
  }

  /** The first `n` intents, as one pass for a side sees them. */
  function DiffSide(books: seq<Book>, acts: Actions, intents: seq<Intent>, side: Side, n: nat, stamp: nat, p: Policy): Actions
    requires Shapes(books) && p.scale > 0 && n <= |intents|
  {
    if n == 0 then acts
    else DiffIntent(books, DiffSide(books, acts, intents, side, n - 1, stamp, p), intents[n - 1], side, stamp, p)
  }

  function Diff(books: seq<Book>, intents: seq<Intent>, stamp: nat, p: Policy): Actions
    requires Shapes(books) && p.scale > 0
  {
    var buys := DiffSide(books, Actions([], []), intents, Buy, |intents|, stamp, p);
    DiffSide(books, buys, intents, Sell, |intents|, stamp, p)
  }

  // ----- venue rules -----

  /** Up to the next whole increment. */
  function RoundQty(qty: int, increment: nat): int {
    Quotient(qty + increment - 1, increment) * increment
  }

  /** The action's quantity, raised to the venue's minimum. */
  function Raised(a: Action, p: Policy): int {
    if a.qty < p.minQty then p.minQty else a.qty
  }

  /** What an order is worth, as the venue policy computes it. */
  function OrderValue(price: int, qty: int, p: Policy): int {
    Quotient(price * qty, p.qtyScale)
  }

  predicate TooCheap(a: Action, p: Policy) {
    OrderValue(a.price, Raised(a, p), p) < p.minUsdt
  }

  /** The raised quantity, or the quantity the minimum value buys when that is too cheap. */
  function Valued(a: Action, p: Policy): int {
    if TooCheap(a, p) then Quotient(p.minUsdt * p.qtyScale, a.price) else Raised(a, p)
  }

  function ClampQty(a: Action, p: Policy): int {
    if Valued(a, p) > p.maxQty then p.maxQty else Valued(a, p)
  }

  function Clamp(a: Action, p: Policy): Action {
    a.(qty := RoundQty(ClampQty(a, p), p.increment), lastQty := RoundQty(a.lastQty, p.increment))
  }

  predicate Matches(a: Action, side: Side, positionSide: PositionSide) {
    a.side == side && a.positionSide == Some(positionSide)
  }

  /** Erasing from place `i` on, each time by moving the last action into the gap. */
  function Erased(acts: seq<Action>, side: Side, positionSide: PositionSide, i: nat): seq<Action>
    requires i <= |acts|
    decreases |acts| - i
  {
    if i == |acts| then acts
    else if Matches(acts[i], side, positionSide) then
      Erased(acts[i := acts[|acts| - 1]][..|acts| - 1], side, positionSide, i)
    else Erased(acts, side, positionSide, i + 1)
  }

  /** The last use of a live or reserved layer. */
  function LastTime(slots: seq<Slot>): nat {
    if slots == [] then 0
    else
      var before, s := LastTime(slots[..|slots| - 1]), slots[|slots| - 1];
      if (s.state == Live || s.state == Reserved) && s.lastUsed > before then s.lastUsed else before
  }

  predicate TooRecent(now: nat, last: nat, gap: nat) {
    (now - last) % TWO_64 < gap
  }

  function Throttled(acts: seq<Action>, side: Side, positionSide: PositionSide, recent: bool): seq<Action> {
    if recent then Erased(acts, side, positionSide, 0) else acts
  }

  function ThrottledAll(acts: seq<Action>, recent: seq<bool>): seq<Action>
    requires |recent| == 4
  {
    Throttled(Throttled(Throttled(Throttled(acts, Buy, Long, recent[0]), Sell, Long, recent[1]),
                        Buy, Short, recent[2]), Sell, Short, recent[3])
  }

  function Recent(books: seq<Book>, now: nat, p: Policy): (r: seq<bool>)
    requires |books| == 4
    ensures |r| == 4
  {
    seq(4, i requires 0 <= i < 4 => TooRecent(now, LastTime(books[i].slots), p.timeGap))
  }

  function Clamped(acts: seq<Action>, p: Policy): (r: seq<Action>)
    ensures |r| == |acts|
  {
    seq(|acts|, i requires 0 <= i < |acts| => Clamp(acts[i], p))
  }

  method EraseMatching(acts: seq<Action>, side: Side, positionSide: PositionSide) returns (left: seq<Action>)
    ensures left == Erased(acts, side, positionSide, 0)
  {
    left := acts;
    var i := 0;
    while i < |left|
      invariant i <= |left| && Erased(acts, side, positionSide, 0) == Erased(left, side, positionSide, i)
    {
      if left[i].side == side && left[i].positionSide == Some(positionSide) {
        left := left[i := left[|left| - 1]];
        left := left[..|left| - 1];
      } else {
        i := i + 1;
      }
    }
  }

  method Throttle(acts: seq<Action>, recent: seq<bool>) returns (left: seq<Action>)
    requires |recent| == 4
    ensures left == ThrottledAll(acts, recent)
  {
    left := acts;
    if recent[0] { left := EraseMatching(left, Buy, Long); }
    if recent[1] { left := EraseMatching(left, Sell, Long); }
    if recent[2] { left := EraseMatching(left, Buy, Short); }
    if recent[3] { left := EraseMatching(left, Sell, Short); }
  }

  method LatestUse(slots: seq<Slot>) returns (last: nat)
    ensures last == LastTime(slots)
  {
    last := 0;
    for i := 0 to |slots|
      invariant last == LastTime(slots[..i])
    {
      assert slots[..i + 1][..i] == slots[..i];
      if slots[i].state == Live || slots[i].state == Reserved {
        last := if slots[i].lastUsed > last then slots[i].lastUsed else last;
      }
    }
    assert slots[..|slots|] == slots;
  }

  method ClampAll(acts: seq<Action>, p: Policy) returns (r: seq<Action>)
    ensures r == Clamped(acts, p)
  {
    r := acts;
    for i := 0 to |acts|
      invariant |r| == |acts|
      invariant forall j | 0 <= j < |acts| :: r[j] == if j < i then Clamp(acts[j], p) else acts[j]
    {
      var a := r[i];
      if a.qty < p.minQty {
        a := a.(qty := p.minQty);
      }
      if Quotient(a.price * a.qty, p.qtyScale) < p.minUsdt {
        a := a.(qty := Quotient(p.minUsdt * p.qtyScale, a.price));
      }
      if a.qty > p.maxQty {
        a := a.(qty := p.maxQty);
      }
      r := r[i := a.(qty := RoundQty(a.qty, p.increment), lastQty := RoundQty(a.lastQty, p.increment))];
    }
  }

  // ----- pre-trade risk -----

  datatype Limits = Limits(maxOrder: int, maxPosition: int, minPosition: int, maxLoss: int)

  datatype Verdict = Allowed | OrderTooLarge | PositionTooLarge | PositionTooSmall | LossTooLarge

  function CheckRisk(l: Limits, position: int, pnl: int, side: Side, qty: int, reserved: int): Verdict {
    if qty > l.maxOrder then OrderTooLarge
    else if position + reserved + Signed(side, qty) > l.maxPosition then PositionTooLarge
    else if position + reserved + Signed(side, qty) < l.minPosition then PositionTooSmall
    else if pnl < l.maxLoss then LossTooLarge
    else Allowed
  }

  function Delta(a: Action): int {
    Signed(a.side, a.qty - a.lastQty)
  }

  function Sum(acts: seq<Action>): int {
    if acts == [] then 0 else Sum(acts[..|acts| - 1]) + Delta(acts[|acts| - 1])
  }

  datatype Account = Account(limits: Limits, position: int, pnl: int)

  predicate Passes(acc: Account, a: Action, running: int) {
    CheckRisk(acc.limits, acc.position, acc.pnl, a.side, a.qty - a.lastQty, running) == Allowed
  }

  /** The first `n` actions, filtered against the running reservation. */
  function Filtered(acc: Account, acts: seq<Action>, n: nat, running: int): (r: (seq<Action>, int))
    requires n <= |acts|
    ensures r.1 == running + Sum(r.0)
  {
    if n == 0 then ([], running)
    else
      var (kept, total) := Filtered(acc, acts, n - 1, running);
      var a := acts[n - 1];
      if Passes(acc, a, total) then
        assert (kept + [a])[..|kept|] == kept;
        (kept + [a], total + Delta(a))
      else (kept, total)
  }

  method FilterActions(acc: Account, acts: seq<Action>, running: int) returns (kept: seq<Action>, total: int)
    ensures (kept, total) == Filtered(acc, acts, |acts|, running)
  {
    kept, total := acts, running;
    var i := 0;
    ghost var n := 0;
    assert kept[..0] == [] && kept[0..] == acts[0..];
    while i < |kept|
      invariant i <= |kept| && n + |kept| - i == |acts| && n <= |acts|
      invariant kept[..i] == Filtered(acc, acts, n, running).0 && total == Filtered(acc, acts, n, running).1
      invariant kept[i..] == acts[n..]
      decreases |kept| - i
    {
      var a := kept[i];
      assert a == kept[i..][0] == acts[n];
      assert kept[i + 1..] == kept[i..][1..] == acts[n + 1..];
      if CheckRisk(acc.limits, acc.position, acc.pnl, a.side, a.qty - a.lastQty, total) == Allowed {
        total := total + Signed(a.side, a.qty - a.lastQty);
        assert kept[..i + 1] == kept[..i] + [a];
        i := i + 1;
      } else {
        Gap(kept, i);
        kept := kept[..i] + kept[i + 1..];
      }
      n := n + 1;
    }
    assert kept[..i] == kept;
  }

  lemma Gap(s: seq<Action>, i: nat)
    requires i < |s|
    ensures (s[..i] + s[i + 1..])[..i] == s[..i] && (s[..i] + s[i + 1..])[i..] == s[i + 1..]
  {
  }

  ghost predicate InRange(acc: Account, reserved: int) {
    acc.limits.minPosition <= acc.position + reserved <= acc.limits.maxPosition
  }

  /** Every action that passes leaves the running total within the position limits. */
  lemma {:induction false} FilteredInRange(acc: Account, acts: seq<Action>, n: nat, running: int)
    requires n <= |acts|
    ensures var r := Filtered(acc, acts, n, running); r.0 == [] || InRange(acc, r.1)
  {
    if n > 0 { FilteredInRange(acc, acts, n - 1, running); }
  }

  // ----- what the actions promise about the books they were planned on -----

  /** No other layer quotes the action's tick. */
  ghost predicate TickFree(b: Book, a: Action, p: Policy)
    requires p.scale > 0
  {
    var known := FindByTick(b, ToTicks(a.price, p.scale));
    known == -1 || known == a.layer
  }

  ghost predicate ReadyNew(b: Book, a: Action, p: Policy) {
    && Shape(b) && p.scale > 0 && a.price > 0
    && !Occupied(b.slots[a.layer]) && a.lastQty == 0 && TickFree(b, a, p)
  }

  ghost predicate ReadyReplace(b: Book, a: Action, p: Policy) {
    && Shape(b) && p.scale > 0 && a.price > 0
    && b.slots[a.layer].state == Live && a.lastQty == b.slots[a.layer].qty && a.oldId == b.slots[a.layer].id
    && TickFree(b, a, p)
  }

  ghost predicate Ready(books: seq<Book>, a: Action, new_: bool, p: Policy)
    requires |books| == 4
  {
    if new_ then ReadyNew(books[BookOf(a)], a, p) else ReadyReplace(books[BookOf(a)], a, p)
  }

  ghost predicate Distinct(acts: seq<Action>) {
    forall i, j | 0 <= i < j < |acts| :: BookOf(acts[i]) != BookOf(acts[j])
  }

  ghost predicate Apart(news: seq<Action>, repls: seq<Action>) {
    forall a, b | a in news && b in repls :: BookOf(a) != BookOf(b)
  }

  /** At most one action a side book, each ready to be carried out. */
  ghost predicate Sound(books: seq<Book>, acts: Actions, p: Policy) {
    && |books| == 4
    && (forall a | a in acts.news :: Ready(books, a, true, p))
    && (forall a | a in acts.repls :: Ready(books, a, false, p))
    && Distinct(acts.news) && Distinct(acts.repls) && Apart(acts.news, acts.repls)
  }

  /** `xs` holds some of the actions of `ys`, none of them more often. */
  ghost predicate Picked(xs: seq<Action>, ys: seq<Action>) {
    (forall x | x in xs :: x in ys) && |xs| <= |ys| && (Distinct(ys) ==> Distinct(xs))
  }

  /** At most one active intent a side book. */
  ghost predicate OneEach(intents: seq<Intent>) {
    forall i, j | 0 <= i < j < |intents| && Active(intents[i]) && Active(intents[j]) ::
      BookIndex(intents[i].side, intents[i].positionSide) != BookIndex(intents[j].side, intents[j].positionSide)
  }

  ghost predicate Positive(intents: seq<Intent>) {
    forall it | it in intents && Active(it) :: it.price.value > 0
  }

  /** The side book of `a` is quoted by one of the first `n` intents. */
  ghost predicate Quoted(a: Action, intents: seq<Intent>, n: nat)
    requires n <= |intents|
  {
    exists i :: 0 <= i < n && Active(intents[i])
      && BookIndex(intents[i].side, intents[i].positionSide) == BookOf(a)
  }

  /** The action quotes what the intent asks for. */
  ghost predicate Carries(a: Action, it: Intent, stamp: nat) {
    it.price == Some(a.price) && a.qty == it.qty && a.side == it.side && a.positionSide == it.positionSide && a.id == stamp
  }

  lemma ChooseReady(b: Book, it: Intent, stamp: nat, p: Policy)
    requires Shape(b) && p.scale > 0 && Active(it) && it.price.value > 0
    ensures match Choose(b, it, stamp, p)
            case Nothing => true
            case NewOrder(a) => ReadyNew(b, a, p) && Carries(a, it, stamp)
            case ReplaceOrder(a) => ReadyReplace(b, a, p) && Carries(a, it, stamp)
  {
  }

  /** `acts` is sound, and of the actions on `side` each comes from one of the first `n` intents. */
  ghost predicate DiffInv(books: seq<Book>, acts: Actions, intents: seq<Intent>, side: Side, n: nat, p: Policy)
    requires n <= |intents|
  {
    && Sound(books, acts, p)
    && (forall a | a in acts.news && a.side == side :: Quoted(a, intents, n))
    && (forall a | a in acts.repls && a.side == side :: Quoted(a, intents, n))
  }

  lemma QuotedMore(a: Action, intents: seq<Intent>, n: nat)
    requires n < |intents| && Quoted(a, intents, n)
    ensures Quoted(a, intents, n + 1)
  {
    var i :| 0 <= i < n && Active(intents[i]) && BookIndex(intents[i].side, intents[i].positionSide) == BookOf(a);
  }

  /** Another action in a side book that no action uses yet. */
  lemma AddSound(books: seq<Book>, acts: Actions, c: Choice, p: Policy)
    requires Sound(books, acts, p) && !c.Nothing? && Ready(books, c.action, c.NewOrder?, p)
    requires forall a | a in acts.news || a in acts.repls :: BookOf(a) != BookOf(c.action)
    ensures Sound(books, Added(acts, c), p)
  {
  }

  lemma FreshBook(acts: seq<Action>, intents: seq<Intent>, side: Side, n: nat, index: nat)
    requires n < |intents| && OneEach(intents) && Active(intents[n]) && intents[n].side == side
    requires index == BookIndex(intents[n].side, intents[n].positionSide)
    requires forall a | a in acts && a.side == side :: Quoted(a, intents, n)
    ensures forall a | a in acts :: BookOf(a) != index
  {
    forall a | a in acts ensures BookOf(a) != index {
      if a.side == side {
        var i :| 0 <= i < n && Active(intents[i]) && BookIndex(intents[i].side, intents[i].positionSide) == BookOf(a);
      }
    }
  }

  lemma DiffStep(books: seq<Book>, acts: Actions, after: Actions, intents: seq<Intent>, side: Side, n: nat, stamp: nat, p: Policy)
    requires n < |intents| && OneEach(intents) && Positive(intents) && p.scale > 0 && Shapes(books)
    requires DiffInv(books, acts, intents, side, n, p)
    requires after == DiffIntent(books, acts, intents[n], side, stamp, p)
    ensures DiffInv(books, after, intents, side, n + 1, p)
  {
    var it, index := intents[n], BookIndex(intents[n].side, intents[n].positionSide);
    forall a | (a in acts.news || a in acts.repls) && a.side == side ensures Quoted(a, intents, n + 1) {
      QuotedMore(a, intents, n);
    }
    if it.side == side && Active(it) {
      var c := Choose(books[index], it, stamp, p);
      ChooseReady(books[index], it, stamp, p);
      if !c.Nothing? {
        assert Quoted(c.action, intents, n + 1);
        FreshBook(acts.news, intents, side, n, index);
        FreshBook(acts.repls, intents, side, n, index);
        AddSound(books, acts, c, p);
      }
    }
  }

  lemma {:induction false} DiffSideSound(books: seq<Book>, acts: Actions, intents: seq<Intent>, side: Side, n: nat, stamp: nat, p: Policy)
    requires n <= |intents| && OneEach(intents) && Positive(intents) && p.scale > 0 && Shapes(books)
    requires DiffInv(books, acts, intents, side, 0, p)
    ensures DiffInv(books, DiffSide(books, acts, intents, side, n, stamp, p), intents, side, n, p)
  {
    if n == 0 {
      assert DiffSide(books, acts, intents, side, n, stamp, p) == acts;
    } else {
      DiffSideSound(books, acts, intents, side, n - 1, stamp, p);
      DiffStep(books, DiffSide(books, acts, intents, side, n - 1, stamp, p),
               DiffSide(books, acts, intents, side, n, stamp, p), intents, side, n - 1, stamp, p);
    }
  }

  lemma {:induction false} DiffSideKeeps(books: seq<Book>, acts: Actions, intents: seq<Intent>, side: Side, n: nat, stamp: nat, p: Policy)
    requires n <= |intents| && p.scale > 0 && Shapes(books)
    requires (forall a | a in acts.news :: a.side == side) && (forall a | a in acts.repls :: a.side == side)
    ensures var r := DiffSide(books, acts, intents, side, n, stamp, p);
            (forall a | a in r.news :: a.side == side) && (forall a | a in r.repls :: a.side == side)
  {
    if n > 0 { DiffSideKeeps(books, acts, intents, side, n - 1, stamp, p); }
  }

  /** With at most one active intent a side book, the plan is sound. */
  lemma DiffSound(books: seq<Book>, intents: seq<Intent>, stamp: nat, p: Policy)
    requires OneEach(intents) && Positive(intents) && p.scale > 0 && Shapes(books)
    ensures Sound(books, Diff(books, intents, stamp, p), p)
  {
    var none := Actions([], []);
    DiffSideSound(books, none, intents, Buy, |intents|, stamp, p);
    DiffSideKeeps(books, none, intents, Buy, |intents|, stamp, p);
    DiffSideSound(books, DiffSide(books, none, intents, Buy, |intents|, stamp, p), intents, Sell, |intents|, stamp, p);
  }

  // ----- filters keep a plan sound -----

  lemma {:induction false} ErasedSub(acts: seq<Action>, side: Side, positionSide: PositionSide, i: nat)
    requires i <= |acts|
    ensures Picked(Erased(acts, side, positionSide, i), acts)
    decreases |acts| - i
  {
    if i < |acts| {
      if Matches(acts[i], side, positionSide) {
        ErasedSub(acts[i := acts[|acts| - 1]][..|acts| - 1], side, positionSide, i);
      } else {
        ErasedSub(acts, side, positionSide, i + 1);
      }
    }
  }

  lemma {:induction false} ErasedNone(acts: seq<Action>, side: Side, positionSide: PositionSide, i: nat)
    requires i <= |acts| && forall j | 0 <= j < i :: !Matches(acts[j], side, positionSide)
    ensures forall a | a in Erased(acts, side, positionSide, i) :: !Matches(a, side, positionSide)
    decreases |acts| - i
  {
    if i < |acts| {
      if Matches(acts[i], side, positionSide) {
        ErasedNone(acts[i := acts[|acts| - 1]][..|acts| - 1], side, positionSide, i);
      } else {
        ErasedNone(acts, side, positionSide, i + 1);
      }
    }
  }

  /** The throttle erases nothing else. */
  lemma {:induction false} ErasedKeeps(acts: seq<Action>, side: Side, positionSide: PositionSide, i: nat, a: Action)
    requires i <= |acts| && a in acts && !Matches(a, side, positionSide)
    ensures a in Erased(acts, side, positionSide, i)
    decreases |acts| - i
  {
    if i < |acts| {
      if Matches(acts[i], side, positionSide) {
        var k :| 0 <= k < |acts| && acts[k] == a;
        var left := acts[i := acts[|acts| - 1]][..|acts| - 1];
        assert left[if k == |acts| - 1 then i else k] == a;
        ErasedKeeps(left, side, positionSide, i, a);
      } else {
        ErasedKeeps(acts, side, positionSide, i + 1, a);
      }
    }
  }

  lemma ThrottledSub(acts: seq<Action>, recent: seq<bool>)
    requires |recent| == 4
    ensures Picked(ThrottledAll(acts, recent), acts)
  {
    ErasedSub(acts, Buy, Long, 0);
    var a1 := Throttled(acts, Buy, Long, recent[0]);
    ErasedSub(a1, Sell, Long, 0);
    var a2 := Throttled(a1, Sell, Long, recent[1]);
    ErasedSub(a2, Buy, Short, 0);
    var a3 := Throttled(a2, Buy, Short, recent[2]);
    ErasedSub(a3, Sell, Short, 0);
  }

  lemma {:induction false} FilteredSub(acc: Account, acts: seq<Action>, n: nat, running: int)
    requires n <= |acts|
    ensures Picked(Filtered(acc, acts, n, running).0, acts[..n])
  {
    if n > 0 {
      FilteredSub(acc, acts, n - 1, running);
      var kept := Filtered(acc, acts, n - 1, running).0;
      assert acts[..n] == acts[..n - 1] + [acts[n - 1]];
      PickedOneMore(kept, acts[..n - 1], acts[n - 1]);
    }
  }

  lemma PickedOneMore(kept: seq<Action>, acts: seq<Action>, a: Action)
    requires Picked(kept, acts)
    ensures Picked(kept, acts + [a]) && Picked(kept + [a], acts + [a])
  {
    if Distinct(acts + [a]) {
      assert forall i, j | 0 <= i < j < |acts| :: (acts + [a])[i] == acts[i] && (acts + [a])[j] == acts[j];
      forall x | x in kept ensures BookOf(x) != BookOf(a) {
        var i :| 0 <= i < |acts| && acts[i] == x;
        assert (acts + [a])[i] == x && (acts + [a])[|acts|] == a;
      }
    }
  }

  /** Rounding goes up to the next whole increment and no further. */
  lemma RoundsUp(qty: nat, increment: nat)
    requires increment > 0
    ensures Whole(RoundQty(qty, increment), increment)
    ensures qty <= RoundQty(qty, increment) < qty + increment
  {
    var q, r := Division(qty + increment - 1, increment);
    DivUnique(q * increment, increment, q, 0);
  }

  lemma RoundKeepsWhole(qty: int, increment: nat)
    requires Whole(qty, increment)
    ensures RoundQty(qty, increment) == qty
  {
    var q, r := Division(qty, increment);
    DivUnique(qty + increment - 1, increment, q, increment - 1);
  }

  lemma ClampWhole(a: Action, p: Policy)
    requires PolicyOk(p) && a.price > 0
    ensures Whole(Clamp(a, p).qty, p.increment)
  {
    QuotientNonNegative(p.minUsdt, p.qtyScale, a.price);
    RoundsUp(ClampQty(a, p), p.increment);
  }

  lemma QuotientNonNegative(x: nat, y: nat, d: int)
    requires d > 0
    ensures Quotient(x * y, d) >= 0
  {
    var q, r := Division(x * y, d);
  }

  lemma ClampReady(b: Book, a: Action, new_: bool, p: Policy)
    requires PolicyOk(p) && BookOk(b, p.increment)
    requires if new_ then ReadyNew(b, a, p) else ReadyReplace(b, a, p)
    ensures if new_ then ReadyNew(b, Clamp(a, p), p) else ReadyReplace(b, Clamp(a, p), p)
    ensures BookOf(Clamp(a, p)) == BookOf(a) && Whole(Clamp(a, p).qty, p.increment)
  {
    RoundKeepsWhole(a.lastQty, p.increment);
    ClampWhole(a, p);
  }

  lemma ClampedSound(books: seq<Book>, acts: seq<Action>, new_: bool, p: Policy)
    requires PolicyOk(p) && |books| == 4 && (forall i | 0 <= i < 4 :: BookOk(books[i], p.increment))
    requires forall a | a in acts :: Ready(books, a, new_, p)
    ensures var r := Clamped(acts, p);
            && (Distinct(acts) ==> Distinct(r))
            && (forall i | 0 <= i < |r| :: BookOf(r[i]) == BookOf(acts[i]))
            && (forall a | a in r :: Ready(books, a, new_, p) && Whole(a.qty, p.increment))
  {
    forall i | 0 <= i < |acts|
      ensures Ready(books, Clamp(acts[i], p), new_, p)
      ensures BookOf(Clamp(acts[i], p)) == BookOf(acts[i]) && Whole(Clamp(acts[i], p).qty, p.increment)
    {
      assert Ready(books, acts[i], new_, p);
      ClampReady(books[BookOf(acts[i])], acts[i], new_, p);
    }
  }
}

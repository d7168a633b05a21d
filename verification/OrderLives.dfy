/** What sending, sweeping and registering do to the desk, and the life of one order from end to end. */
module OrderLives {
  import opened Wrappers
  import opened LayerBook
  import opened OrderState
  import opened Reconcile
  import opened Expiry
  import opened OrderDesk
  import opened DeskRuns
  import opened ReportOutcomes
  import opened PlanOutcomes

  // ----- what is left to send -----

  /** `a` is the planned action `x` as the venue takes it, and `x` is not throttled. */
  ghost predicate Survives(a: Action, x: Action, recent: seq<bool>, p: Policy)
    requires |recent| == 4
  {
    a == Clamp(x, p) && !ThrottledOut(x, recent)
  }

  lemma StagesFrom(acts: seq<Action>, recent: seq<bool>, acc: Account, running: int, p: Policy, a: Action)
    requires |recent| == 4
    requires var clamped := Clamped(ThrottledAll(acts, recent), p); a in Filtered(acc, clamped, |clamped|, running).0
    ensures exists x :: x in acts && Survives(a, x, recent, p)
    ensures a.qty - a.lastQty <= acc.limits.maxOrder && acc.pnl >= acc.limits.maxLoss
  {
    var throttled := ThrottledAll(acts, recent);
    var clamped := Clamped(throttled, p);
    FilteredSub(acc, clamped, |clamped|, running);
    KeptWithinOrderLimit(acc, clamped, |clamped|, running);
    assert clamped[..|clamped|] == clamped;
    var i :| 0 <= i < |clamped| && clamped[i] == a;
    ThrottledIff(acts, recent, throttled[i]);
    assert Survives(a, throttled[i], recent, p);
  }

  /**
   * Whatever an apply sends, new order or replace, was planned, is not throttled, is clamped by the venue's rules and
   * passed the risk check.
   */
  lemma OnlySurvivorsAreSent(d: Desk, intents: seq<Intent>, now: nat, stamp: nat, acc: Account, c: Config, a: Action)
    requires Shapes(d.books) && c.policy.scale > 0
    ensures var acts, plan := Filters(d, intents, now, stamp, acc, c).0, Diff(d.books, intents, stamp, c.policy);
            var recent := Recent(d.books, now, c.policy);
            && (a in acts.news ==> exists x :: x in plan.news && Survives(a, x, recent, c.policy))
            && (a in acts.repls ==> exists x :: x in plan.repls && Survives(a, x, recent, c.policy))
            && (a in acts.news || a in acts.repls ==> a.qty - a.lastQty <= acc.limits.maxOrder && acc.pnl >= acc.limits.maxLoss)
  {
    var acts, plan := Filters(d, intents, now, stamp, acc, c).0, Diff(d.books, intents, stamp, c.policy);
    var recent := Recent(d.books, now, c.policy);
    var news := Clamped(ThrottledAll(plan.news, recent), c.policy);
    if a in acts.news { StagesFrom(plan.news, recent, acc, d.reserved, c.policy, a); }
    if a in acts.repls { StagesFrom(plan.repls, recent, acc, Filtered(acc, news, |news|, d.reserved).1, c.policy, a); }
  }

  // ----- sending -----

  /** Another layer of the side book comes first with the action's tick. */
  ghost predicate TickElsewhere(b: Book, a: Action, p: Policy)
    requires Shape(b) && p.scale > 0
  {
    var t := ToTicks(a.price, p.scale);
    exists i :: 0 <= i < SLOTS && i != a.layer && b.ticks[i] == t && forall j | 0 <= j < i :: b.ticks[j] != t
  }

  /** An action is not carried out exactly when another layer comes first with its tick, and then nothing changes. */
  lemma NotSentIff(d: Desk, a: Action, isNew: bool, now: nat, c: Config)
    requires Shapes(d.books) && c.policy.scale > 0
    ensures Blocked(d.books[BookOf(a)], a, c.policy) <==> TickElsewhere(d.books[BookOf(a)], a, c.policy)
    ensures TickElsewhere(d.books[BookOf(a)], a, c.policy) ==> Place(d, a, isNew, now, c) == d
  {
    FindTickIsFirst(d.books[BookOf(a)].ticks, ToTicks(a.price, c.policy.scale), 0);
  }

  /**
   * Any action sent changes its side book alone, reserves what it adds, and expires after the time to live of a
   * reserved order.
   */
  lemma SentOutcome(d: Desk, a: Action, isNew: bool, now: nat, c: Config)
    requires Shapes(d.books) && c.policy.scale > 0 && !TickElsewhere(d.books[BookOf(a)], a, c.policy)
    ensures var d', i := Place(d, a, isNew, now, c), BookOf(a);
            && Shapes(d'.books) && d'.books == d.books[i := d'.books[i]] && OnlyLayer(d.books[i], d'.books[i], a.layer)
            && d'.reserved == d.reserved + (if a.side == Buy then a.qty - a.lastQty else a.lastQty - a.qty)
            && d'.queue == d.queue + multiset{Key(now + c.ttlReserved, i, a.layer, a.id)}
            && d'.books[i].ticks[a.layer] == ToTicks(a.price, c.policy.scale)
            && d'.books[i].slots[a.layer] == Slot(if isNew then Reserved else CancelReserved, a.price, a.qty, now, a.id)
  {
    NotSentIff(d, a, isNew, now, c);
    PlaceShapes(d, a, isNew, now, c);
  }

  /** A replace remembers the order it replaces, and both replies of the venue lead to its layer. */
  lemma ReplaceRemembers(b: Book, a: Action, now: nat, c: Config)
    requires Shape(b) && c.policy.scale > 0
    ensures var b', s := PlacedReplace(b, a, now, c), b.slots[a.layer];
            && b'.pending[a.layer].Some?
            && var p := b'.pending[a.layer].value;
               && p.oldId == a.oldId && p.lastQty == a.lastQty && p.oldPrice == s.price && p.oldTick == b.ticks[a.layer]
               && p.newQty == a.qty && p.newPrice == a.price && p.newTick == b'.ticks[a.layer]
               && p.newId in b'.newIds && b'.newIds[p.newId] == a.layer && p.newId == ReplyId(a, c)
               && (forall id | id in b'.newIds && b'.newIds[id] == a.layer :: id == p.newId)
               && (c.reorder && 0 < a.id <= NO_ID ==> a.id - 1 in b'.cancelIds && b'.cancelIds[a.id - 1] == a.layer)
               && (!c.reorder ==> b'.cancelIds == b.cancelIds)
  {
  }

  // ----- sweeping -----

  /** The order in the slot is sent a cancel at `now`. */
  ghost predicate Expires(d: Desk, i: nat, l: nat, now: nat)
    requires Shapes(d.books) && i < 4 && l < SLOTS
  {
    var s := d.books[i].slots[l];
    (s.state == Live || s.state == Reserved) && exists k :: k in d.queue && k.expire <= now && k.book == i && k.layer == l && k.id == s.id
  }

  /**
   * A sweep cancels exactly the live and reserved orders with a due entry of their own, and leaves all else as it
   * was.
   */
  lemma SweepOutcome(d: Desk, now: nat, i: nat, l: Layer)
    requires Shapes(d.books) && i < 4
    ensures var d' := Sweep(d, now); var b, b' := d.books[i], d'.books[i];
            && b' == b.(slots := b'.slots) && d'.reserved == d.reserved
            && b'.slots[l] == (if Expires(d, i, l, now) then b.slots[l].(state := CancelReserved, lastUsed := now) else b.slots[l])
  {
  }

  /** A sweep removes exactly the due entries from the queue. */
  lemma SweepQueue(d: Desk, now: nat, k: Key)
    requires Shapes(d.books)
    ensures Sweep(d, now).queue[k] == if k.expire <= now then 0 else d.queue[k]
  {
  }

  // ----- registering -----

  lemma FirstSlot(b: Book, b': Book, id: nat, l: Layer)
    requires Shape(b) && Shape(b') && OnlyLayer(b, b', l) && b'.slots[l].id == id != NO_ID
    requires forall j | 0 <= j < l :: b.slots[j].id != id
    ensures FindById(b', id) == l
  {
    FindSlotIsFirst(b'.slots, id, 0);
    forall j | 0 <= j < l ensures b'.slots[j].id != id { assert b'.slots[j] == b.slots[j]; }
  }

  /** The report leaves an order live under its own id: it starts, or starts again, the time to live of a live order. */
  lemma LiveOrderExpires(d: Desk, r: Report, now: nat, c: Config, l: Layer)
    requires Shapes(d.books) && c.policy.scale > 0 && r.id != NO_ID
    requires r.status == AckNew || (r.status == PartiallyFilled && r.leaves > 0)
    requires var b := d.books[BookIndex(r.side, r.positionSide)];
             && l == Target(b, r, c.policy.scale) && (r.status == PartiallyFilled ==> b.slots[l].id == r.id)
             && forall j | 0 <= j < l :: b.slots[j].id != r.id
    ensures Update(d, r, now, c).queue
         == d.queue + multiset{Key(now + c.ttlLive, BookIndex(r.side, r.positionSide), l, r.id)}
  {
    var b, scale := d.books[BookIndex(r.side, r.positionSide)], c.policy.scale;
    TouchesOneLayer(b, r, now, scale);
    if r.status == AckNew { NewOutcome(b, r, now, scale, l); } else { PartialFillOutcome(b, r, now, scale, l); }
    var b' := Handle(b, r, now, scale).book;
    assert b'.slots[l].id == r.id && b'.slots[l].state == Live;
    FirstSlot(b, b', r.id, l);
  }

  /** Every other kind of report leaves the queue alone. */
  lemma OthersRegisterNothing(d: Desk, r: Report, now: nat, c: Config)
    requires Shapes(d.books) && c.policy.scale > 0 && r.status != AckNew && r.status != PartiallyFilled
    ensures Update(d, r, now, c).queue == d.queue
  {
  }

  // ----- the life of an order -----

  /** No layer and no id map knows the id. */
  ghost predicate FreshId(b: Book, id: nat) {
    id != NO_ID && id !in b.newIds && id !in b.cancelIds && forall i | 0 <= i < |b.slots| :: b.slots[i].id != id
  }

  /** The order `a` is in its layer, and no other layer or id map knows its id. */
  ghost predicate Resting(b: Book, a: Action, s: Slot) {
    && Shape(b) && b.slots[a.layer] == s && s.id == a.id != NO_ID && b.pending[a.layer].None?
    && a.id !in b.newIds && a.id !in b.cancelIds
    && forall i | 0 <= i < SLOTS && i != a.layer :: b.slots[i].id != a.id
  }

  lemma FoundById(b: Book, a: Action, s: Slot, r: Report, scale: nat)
    requires Resting(b, a, s) && r.id == a.id && scale > 0
    ensures FindLayer(b, r, scale) == a.layer == Target(b, r, scale)
  {
    FindSlotIsFirst(b.slots, a.id, 0);
  }

  lemma PlacedRests(b: Book, a: Action, now: nat, c: Config)
    requires Shape(b) && c.policy.scale > 0 && FreshId(b, a.id) && b.pending[a.layer].None?
    ensures Resting(PlacedNew(b, a, now, c), a, Slot(Reserved, a.price, a.qty, now, a.id))
  {
  }

  /** A new order is acknowledged: it is live as it was sent. */
  lemma AckGoesLive(b: Book, a: Action, sent: nat, ack: Report, now: nat, scale: nat)
    requires scale > 0 && Resting(b, a, Slot(Reserved, a.price, a.qty, sent, a.id))
    requires ack.status == AckNew && ack.id == a.id && ack.price == a.price && ack.leaves == a.qty
    ensures var h := Handle(b, ack, now, scale);
            Resting(h.book, a, Slot(Live, a.price, a.qty, sent, a.id)) && h.released == 0 && OnlyLayer(b, h.book, a.layer)
  {
    FoundById(b, a, b.slots[a.layer], ack, scale);
    NewOutcome(b, ack, now, scale, a.layer);
    TouchesOneLayer(b, ack, now, scale);
  }

  /** A live order is filled in part: it stays live with what is left. */
  lemma PartStaysLive(b: Book, a: Action, qty: int, used: nat, part: Report, now: nat, scale: nat)
    requires scale > 0 && Resting(b, a, Slot(Live, a.price, qty, used, a.id))
    requires part.status == PartiallyFilled && part.id == a.id && part.leaves > 0
    ensures var h := Handle(b, part, now, scale);
            && Resting(h.book, a, Slot(Live, a.price, part.leaves, now, a.id)) && h.released == qty - part.leaves
            && OnlyLayer(b, h.book, a.layer)
  {
    FoundById(b, a, b.slots[a.layer], part, scale);
    PartialFillOutcome(b, part, now, scale, a.layer);
  }

  /** An order ends: filled, canceled, rejected or expired, its layer is free again and gives back what it held. */
  lemma EndFrees(b: Book, a: Action, s: Slot, end: Report, now: nat, scale: nat)
    requires scale > 0 && Resting(b, a, s) && end.id == a.id
    requires end.status == Filled || end.status == Canceled || end.status == Rejected || end.status == Expired
    ensures var h := Handle(b, end, now, scale);
            Gone(h.book, a.layer) && Free(h.book, a.layer) && h.released == s.qty && OnlyLayer(b, h.book, a.layer)
  {
    FoundById(b, a, s, end, scale);
    TouchesOneLayer(b, end, now, scale);
    if end.status == Filled {
      FillOutcome(b, end, now, scale, a.layer);
    } else if end.status == Canceled {
      CanceledOutcome(b, end, now, scale, a.layer);
    } else {
      RejectedOutcome(b, end, now, scale, a.layer);
    }
  }

  /** The book after partial fills, and what they released. */
  function Parts(b: Book, parts: seq<Report>, times: seq<nat>, scale: nat): (h: Handled)
    requires Shape(b) && scale > 0 && |times| == |parts|
    ensures Shape(h.book)
    decreases |parts|
  {
    if parts == [] then Handled(b, 0)
    else
      var n := |parts| - 1;
      var before := Parts(b, parts[..n], times[..n], scale);
      var h := Handle(before.book, parts[n], times[n], scale);
      Handled(h.book, before.released + h.released)
  }

  function LeftOf(qty: int, parts: seq<Report>): int {
    if parts == [] then qty else parts[|parts| - 1].leaves
  }

  lemma {:induction false} PartsStayLive(b: Book, a: Action, sent: nat, parts: seq<Report>, times: seq<nat>, scale: nat)
    requires scale > 0 && |times| == |parts| && Resting(b, a, Slot(Live, a.price, a.qty, sent, a.id))
    requires forall i | 0 <= i < |parts| :: parts[i].status == PartiallyFilled && parts[i].id == a.id && parts[i].leaves > 0
    ensures var h, used := Parts(b, parts, times, scale), if times == [] then sent else times[|times| - 1];
            && Resting(h.book, a, Slot(Live, a.price, LeftOf(a.qty, parts), used, a.id))
            && h.released == a.qty - LeftOf(a.qty, parts) && OnlyLayer(b, h.book, a.layer)
    decreases |parts|
  {
    if parts != [] {
      var n := |parts| - 1;
      PartsStayLive(b, a, sent, parts[..n], times[..n], scale);
      var used := if times[..n] == [] then sent else times[..n][n - 1];
      PartStaysLive(Parts(b, parts[..n], times[..n], scale).book, a, LeftOf(a.qty, parts[..n]), used, parts[n], times[n], scale);
    }
  }

  /**
   * From end to end: a new order that is acknowledged, filled in part any number of times and ended in any way has
   * released exactly the quantity it reserved, its layer is free, and no other layer has been touched.
   */
  lemma LifeOfAnOrder(b: Book, a: Action, ack: Report, parts: seq<Report>, times: seq<nat>, end: Report, now: nat, c: Config)
    requires Shape(b) && c.policy.scale > 0 && FreshId(b, a.id) && b.pending[a.layer].None? && |times| == |parts|
    requires ack.status == AckNew && ack.id == a.id && ack.price == a.price && ack.leaves == a.qty
    requires forall i | 0 <= i < |parts| :: parts[i].status == PartiallyFilled && parts[i].id == a.id && parts[i].leaves > 0
    requires end.id == a.id
    requires end.status == Filled || end.status == Canceled || end.status == Rejected || end.status == Expired
    ensures var scale, b1 := c.policy.scale, PlacedNew(b, a, now, c);
            var h1 := Handle(b1, ack, now, scale);
            var h2 := Parts(h1.book, parts, times, scale);
            var h3 := Handle(h2.book, end, now, scale);
            && h1.book.slots[a.layer].state == Live == h2.book.slots[a.layer].state
            && h1.released + h2.released + h3.released == a.qty
            && Free(h3.book, a.layer) && OnlyLayer(b, h3.book, a.layer)
  {
    var scale, b1 := c.policy.scale, PlacedNew(b, a, now, c);
    PlacedRests(b, a, now, c);
    AckGoesLive(b1, a, now, ack, now, scale);
    var b2 := Handle(b1, ack, now, scale).book;
    PartsStayLive(b2, a, now, parts, times, scale);
    var b3 := Parts(b2, parts, times, scale).book;
    EndFrees(b3, a, b3.slots[a.layer], end, now, scale);
  }
}

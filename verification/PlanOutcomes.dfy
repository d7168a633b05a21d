/** What planning and filtering do with every intent and every action: chosen layer, completeness, throttle, risk. */
module PlanOutcomes {
  import opened Arith
  import opened Wrappers
  import opened LayerBook
  import opened OrderState
  import opened Reconcile

  // ----- the layer of an intent -----

  ghost predicate FirstWithTick(b: Book, tick: nat, l: nat)
    requires Shape(b)
  {
    l < SLOTS && b.ticks[l] == tick && forall i | 0 <= i < l :: b.ticks[i] != tick
  }

  /** No order is there, or none with a tick. */
  ghost predicate Vacant(b: Book, l: nat)
    requires Shape(b) && l < SLOTS
  {
    b.slots[l].state == Invalid || b.slots[l].state == Dead || b.ticks[l] == NO_TICK
  }

  ghost predicate FirstVacant(b: Book, l: nat)
    requires Shape(b)
  {
    l < SLOTS && Vacant(b, l) && forall i | 0 <= i < l :: !Vacant(b, i)
  }

  /**
   * The layer that has the tick, else the first free one, else the least recently used one, which is pushed out if it
   * is live.
   */
  lemma PlannedLayer(b: Book, tick: nat)
    requires Shape(b)
    ensures var plan, known := PlanLayer(b, tick), exists i :: 0 <= i < SLOTS && b.ticks[i] == tick;
            && (known ==> FirstWithTick(b, tick, plan.layer) && !plan.evicts)
            && (!known && (exists i :: 0 <= i < SLOTS && Vacant(b, i)) ==> FirstVacant(b, plan.layer) && !plan.evicts)
            && (!known && (forall i | 0 <= i < SLOTS :: !Vacant(b, i)) ==>
                  IsVictim(b.slots, plan.layer) && (plan.evicts <==> b.slots[plan.layer].state == Live))
  {
    FindTickIsFirst(b.ticks, tick, 0);
    FindFreeIsFirst(b, 0);
    assert forall i | 0 <= i < SLOTS :: Vacant(b, i) <==> Free(b, i);
  }

  /** The intent is worth a replace of the order in the slot. */
  ghost predicate WorthReplacing(s: Slot, it: Intent, p: Policy)
    requires Active(it) && p.scale > 0
  {
    var t, u := ToTicks(s.price, p.scale), ToTicks(it.price.value, p.scale);
    t - u >= p.minReplaceTick || u - t >= p.minReplaceTick || s.qty - it.qty >= p.minReplaceQty || it.qty - s.qty >= p.minReplaceQty
  }

  /**
   * An intent becomes a new order exactly on an unoccupied layer, a replace exactly when it pushes out a live order or
   * differs enough from the live order on its layer, and nothing while the order on its layer is in flight.
   */
  lemma ChosenWhen(b: Book, it: Intent, stamp: nat, p: Policy)
    requires Shape(b) && p.scale > 0 && Active(it)
    ensures var c, plan := Choose(b, it, stamp, p), PlanLayer(b, ToTicks(it.price.value, p.scale));
            var s := b.slots[plan.layer];
            && (c.NewOrder? <==> !Occupied(s))
            && (c.ReplaceOrder? <==> s.state == Live && (plan.evicts || WorthReplacing(s, it, p)))
            && (!c.Nothing? ==> c.action.layer == plan.layer && Carries(c.action, it, stamp))
            && (c.NewOrder? ==> c.action.oldId == NO_ID && c.action.lastQty == 0)
            && (c.ReplaceOrder? ==> c.action.oldId == s.id && c.action.lastQty == s.qty)
  {
  }

  // ----- every intent, and nothing else -----

  /** What an intent with a price and a quantity asks for; any other asks for nothing. */
  function ChoiceOf(books: seq<Book>, it: Intent, stamp: nat, p: Policy): Choice
    requires Shapes(books) && p.scale > 0
  {
    if it.price.Some? && it.price.value != UNSET && it.qty > 0
    then Choose(books[BookIndex(it.side, it.positionSide)], it, stamp, p)
    else Nothing
  }

  function IsNew(c: Choice): seq<Action> {
    if c.NewOrder? then [c.action] else []
  }

  function IsReplace(c: Choice): seq<Action> {
    if c.ReplaceOrder? then [c.action] else []
  }

  /** What the first `n` intents of a side ask for, in their order. */
  function Asked(books: seq<Book>, intents: seq<Intent>, side: Side, n: nat, stamp: nat, p: Policy): Actions
    requires Shapes(books) && p.scale > 0 && n <= |intents|
  {
    if n == 0 then Actions([], [])
    else
      var before := Asked(books, intents, side, n - 1, stamp, p);
      if intents[n - 1].side != side then before
      else
        var c := ChoiceOf(books, intents[n - 1], stamp, p);
        Actions(before.news + IsNew(c), before.repls + IsReplace(c))
  }

  lemma {:induction false} SideIsAsked(books: seq<Book>, acts: Actions, intents: seq<Intent>, side: Side, n: nat, stamp: nat, p: Policy)
    requires Shapes(books) && p.scale > 0 && n <= |intents|
    ensures var asked := Asked(books, intents, side, n, stamp, p);
            DiffSide(books, acts, intents, side, n, stamp, p) == Actions(acts.news + asked.news, acts.repls + asked.repls)
  {
    if n > 0 { SideIsAsked(books, acts, intents, side, n - 1, stamp, p); }
  }

  /** The plan is what the intents ask for, every one of them: all buys first, then all sells. */
  lemma DiffIsAsked(books: seq<Book>, intents: seq<Intent>, stamp: nat, p: Policy)
    requires Shapes(books) && p.scale > 0
    ensures var buys, sells := Asked(books, intents, Buy, |intents|, stamp, p), Asked(books, intents, Sell, |intents|, stamp, p);
            Diff(books, intents, stamp, p) == Actions(buys.news + sells.news, buys.repls + sells.repls)
  {
    var none, n := Actions([], []), |intents|;
    SideIsAsked(books, none, intents, Buy, n, stamp, p);
    var buys := DiffSide(books, none, intents, Buy, n, stamp, p);
    assert buys == Asked(books, intents, Buy, n, stamp, p);
    SideIsAsked(books, buys, intents, Sell, n, stamp, p);
  }

  lemma {:induction false} AskedHolds(books: seq<Book>, intents: seq<Intent>, side: Side, n: nat, stamp: nat, p: Policy, i: nat)
    requires Shapes(books) && p.scale > 0 && i < n <= |intents| && intents[i].side == side
    ensures var asked, c := Asked(books, intents, side, n, stamp, p), ChoiceOf(books, intents[i], stamp, p);
            (c.NewOrder? ==> c.action in asked.news) && (c.ReplaceOrder? ==> c.action in asked.repls)
  {
    if i < n - 1 { AskedHolds(books, intents, side, n - 1, stamp, p, i); }
  }

  /** What any intent asks for is in the plan. */
  lemma EveryIntentIsPlanned(books: seq<Book>, intents: seq<Intent>, stamp: nat, p: Policy, i: nat)
    requires Shapes(books) && p.scale > 0 && i < |intents|
    ensures var plan, c := Diff(books, intents, stamp, p), ChoiceOf(books, intents[i], stamp, p);
            (c.NewOrder? ==> c.action in plan.news) && (c.ReplaceOrder? ==> c.action in plan.repls)
  {
    DiffIsAsked(books, intents, stamp, p);
    AskedHolds(books, intents, intents[i].side, |intents|, stamp, p, i);
  }

  // ----- the throttle -----

  ghost predicate InUse(s: Slot) {
    s.state == Live || s.state == Reserved
  }

  /** The latest use of a live or reserved layer is one of them and none is later. */
  lemma {:induction false} LatestIsMaximum(slots: seq<Slot>)
    ensures forall i | 0 <= i < |slots| && InUse(slots[i]) :: slots[i].lastUsed <= LastTime(slots)
    ensures LastTime(slots) == 0 || exists i :: 0 <= i < |slots| && InUse(slots[i]) && slots[i].lastUsed == LastTime(slots)
  {
    if slots != [] {
      var n := |slots| - 1;
      LatestIsMaximum(slots[..n]);
      forall i | 0 <= i < |slots| && InUse(slots[i]) ensures slots[i].lastUsed <= LastTime(slots) {
        if i < n { assert slots[..n][i] == slots[i]; }
      }
      if LastTime(slots) == LastTime(slots[..n]) != 0 {
        var i :| 0 <= i < n && InUse(slots[..n][i]) && slots[..n][i].lastUsed == LastTime(slots[..n]);
        assert slots[i] == slots[..n][i];
      } else if LastTime(slots) != 0 {
        assert InUse(slots[n]) && slots[n].lastUsed == LastTime(slots);
      }
    }
  }

  /**
   * A side book is too recent exactly when a live or reserved layer was used less than the gap ago, or the clock is
   * below the gap.
   */
  lemma RecentIff(books: seq<Book>, now: nat, p: Policy, i: nat)
    requires |books| == 4 && i < 4 && now < TWO_64
    requires forall j | 0 <= j < |books[i].slots| && InUse(books[i].slots[j]) :: books[i].slots[j].lastUsed <= now
    ensures Recent(books, now, p)[i]
       <==> now < p.timeGap ||
            exists j :: 0 <= j < |books[i].slots| && InUse(books[i].slots[j]) && now - books[i].slots[j].lastUsed < p.timeGap
  {
    var slots := books[i].slots;
    LatestIsMaximum(slots);
    if LastTime(slots) != 0 {
      var j :| 0 <= j < |slots| && InUse(slots[j]) && slots[j].lastUsed == LastTime(slots);
    }
  }

  predicate ThrottledOut(a: Action, recent: seq<bool>)
    requires |recent| == 4
  {
    a.positionSide.Some? && recent[BookOf(a)]
  }

  lemma ThrottleOne(acts: seq<Action>, side: Side, positionSide: PositionSide, recent: bool, a: Action)
    ensures a in Throttled(acts, side, positionSide, recent) <==> a in acts && !(recent && Matches(a, side, positionSide))
  {
    if recent {
      ErasedSub(acts, side, positionSide, 0);
      ErasedNone(acts, side, positionSide, 0);
      if a in acts && !Matches(a, side, positionSide) { ErasedKeeps(acts, side, positionSide, 0, a); }
    }
  }

  /** The throttle takes out exactly the sided actions of the side books that were used too recently. */
  lemma ThrottledIff(acts: seq<Action>, recent: seq<bool>, a: Action)
    requires |recent| == 4
    ensures a in ThrottledAll(acts, recent) <==> a in acts && !ThrottledOut(a, recent)
  {
    ThrottleOne(acts, Buy, Long, recent[0], a);
    var a1 := Throttled(acts, Buy, Long, recent[0]);
    ThrottleOne(a1, Sell, Long, recent[1], a);
    var a2 := Throttled(a1, Sell, Long, recent[1]);
    ThrottleOne(a2, Buy, Short, recent[2], a);
    var a3 := Throttled(a2, Buy, Short, recent[2]);
    ThrottleOne(a3, Sell, Short, recent[3], a);
    if a.positionSide.Some? { assert a.positionSide.value.Long? || a.positionSide.value.Short?; }
  }

  /** Orders without a position side share the long books and are never throttled, however recent those are. */
  lemma UnsidedNeverThrottled(acts: seq<Action>, recent: seq<bool>, a: Action)
    requires |recent| == 4 && a in acts && a.positionSide.None?
    ensures a in ThrottledAll(acts, recent)
  {
    ThrottledIff(acts, recent, a);
  }

  // ----- pre-trade risk -----

  /** Order size, position on both ends and loss are all within the limits. */
  ghost predicate Meets(acc: Account, a: Action, running: int) {
    var l, size := acc.limits, a.qty - a.lastQty;
    var after := acc.position + running + if a.side == Buy then size else -size;
    size <= l.maxOrder && l.minPosition <= after <= l.maxPosition && acc.pnl >= l.maxLoss
  }

  lemma FilterStep(acc: Account, acts: seq<Action>, n: nat, running: int, before: (seq<Action>, int), after: (seq<Action>, int))
    requires n < |acts| && before == Filtered(acc, acts, n, running) && after == Filtered(acc, acts, n + 1, running)
    ensures after.0 == if Meets(acc, acts[n], before.1) then before.0 + [acts[n]] else before.0
  {
  }

  /** An action is kept exactly when it meets all four bounds at its turn, with what was kept before it reserved. */
  lemma KeptIff(acc: Account, acts: seq<Action>, n: nat, running: int)
    requires n < |acts|
    ensures var before, after := Filtered(acc, acts, n, running).0, Filtered(acc, acts, n + 1, running).0;
            after == if Meets(acc, acts[n], running + Sum(before)) then before + [acts[n]] else before
  {
    FilterStep(acc, acts, n, running, Filtered(acc, acts, n, running), Filtered(acc, acts, n + 1, running));
  }

  ghost predicate WithinOrderLimit(kept: seq<Action>, acc: Account) {
    && (forall a | a in kept :: a.qty - a.lastQty <= acc.limits.maxOrder)
    && (acc.pnl < acc.limits.maxLoss ==> kept == [])
  }

  lemma OneMoreWithin(acc: Account, kept: seq<Action>, after: seq<Action>, a: Action, total: int)
    requires WithinOrderLimit(kept, acc) && after == if Meets(acc, a, total) then kept + [a] else kept
    ensures WithinOrderLimit(after, acc)
  {
  }

  /** Every action kept is within the order limit, and with the loss past its limit nothing is kept. */
  lemma {:induction false} KeptWithinOrderLimit(acc: Account, acts: seq<Action>, n: nat, running: int)
    requires n <= |acts|
    ensures WithinOrderLimit(Filtered(acc, acts, n, running).0, acc)
  {
    if n > 0 {
      KeptWithinOrderLimit(acc, acts, n - 1, running);
      var before, after := Filtered(acc, acts, n - 1, running), Filtered(acc, acts, n, running);
      FilterStep(acc, acts, n - 1, running, before, after);
      OneMoreWithin(acc, before.0, after.0, acts[n - 1], before.1);
    }
  }

  /** The reason given is the first bound that is broken: size, maximum, minimum, loss. */
  lemma VerdictIsFirstBreach(l: Limits, position: int, pnl: int, side: Side, qty: int, reserved: int)
    ensures var v, after := CheckRisk(l, position, pnl, side, qty, reserved), position + reserved + Signed(side, qty);
            && (v == OrderTooLarge <==> qty > l.maxOrder)
            && (v == PositionTooLarge <==> qty <= l.maxOrder && after > l.maxPosition)
            && (v == PositionTooSmall <==> qty <= l.maxOrder && after <= l.maxPosition && after < l.minPosition)
            && (v == LossTooLarge <==>
                  qty <= l.maxOrder && l.minPosition <= after <= l.maxPosition && pnl < l.maxLoss)
  {
  }
}

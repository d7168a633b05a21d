/** Position limits over whole runs. */
module DeskLimits {
  import opened Arith
  import opened LayerBook
  import opened OrderState
  import opened Reconcile
  import opened OrderDesk
  import opened DeskRuns

  /** A report that ends no order except by filling it: fills are trades of just what the layer loses. */
  ghost predicate Settles(b: Book, r: Report, scale: nat)
    requires Shape(b) && scale > 0
  {
    var layer := Target(b, r, scale);
    match r.status
    case PartiallyFilled => r.trade && layer >= 0 && r.lastQty == b.slots[layer].qty - r.leaves
    case Filled => r.trade && layer >= 0 && r.lastQty == b.slots[layer].qty
    case Canceled => !r.trade && (r.id in b.cancelIds || layer < 0)
    case Rejected => !r.trade && layer < 0
    case Expired => !r.trade && layer < 0
    case _ => !r.trade
  }

  lemma SettlesReleases(b: Book, r: Report, now: nat, scale: nat)
    requires Shape(b) && scale > 0 && Settles(b, r, scale)
    ensures Handle(b, r, now, scale).released == if r.trade then r.lastQty else 0
  {
  }

  ghost predicate Settled(w: World, e: Event, c: Config)
    requires Shapes(w.desk.books) && c.policy.scale > 0
  {
    e.Execution? ==> Settles(w.desk.books[BookIndex(e.report.side, e.report.positionSide)], e.report, c.policy.scale)
  }

  ghost predicate SettledRun(position: int, events: seq<Event>, c: Config)
    requires ConfigOk(c)
  {
    forall i | 0 <= i < |events| :: Settled(Run(position, events[..i], c), events[i], c)
  }

  lemma PrefixSettled(position: int, events: seq<Event>, n: nat, c: Config)
    requires ConfigOk(c) && SettledRun(position, events, c) && n <= |events|
    ensures SettledRun(position, events[..n], c)
  {
    forall i | 0 <= i < n ensures Settled(Run(position, events[..n][..i], c), events[..n][i], c) {
      assert events[..n][..i] == events[..i];
    }
  }

  ghost predicate WithinLimits(w: World, c: Config) {
    c.limits.minPosition <= w.position + w.desk.reserved <= c.limits.maxPosition
  }

  lemma FiltersInRange(d: Desk, intents: seq<Intent>, now: nat, stamp: nat, acc: Account, c: Config)
    requires Shapes(d.books) && c.policy.scale > 0 && InRange(acc, d.reserved)
    ensures InRange(acc, Filters(d, intents, now, stamp, acc, c).1)
  {
    var plan, recent := Diff(d.books, intents, stamp, c.policy), Recent(d.books, now, c.policy);
    var news := Clamped(ThrottledAll(plan.news, recent), c.policy);
    var repls := Clamped(ThrottledAll(plan.repls, recent), c.policy);
    FilteredInRange(acc, news, |news|, d.reserved);
    FilteredInRange(acc, repls, |repls|, Filtered(acc, news, |news|, d.reserved).1);
  }

  lemma StepWithinLimits(w: World, e: Event, c: Config)
    requires ConfigOk(c) && DeskOk(w.desk, c.policy.increment) && Plausible(w, e, c) && Settled(w, e, c)
    requires WithinLimits(w, c)
    ensures WithinLimits(Step(w, e, c), c)
  {
    match e
    case Quote(intents, now, stamp, pnl) =>
      var acc := Account(c.limits, w.position, pnl);
      ApplyOk(w.desk, intents, now, stamp, acc, c);
      FiltersInRange(w.desk, intents, now, stamp, acc, c);
    case Execution(r, now) =>
      SettlesReleases(w.desk.books[BookIndex(r.side, r.positionSide)], r, now, c.policy.scale);
  }

  /** In a run without terminal cancels and rejections, position and reservation together never leave the limits. */
  lemma {:induction false} LimitsHold(position: int, events: seq<Event>, c: Config)
    requires ConfigOk(c) && PlausibleRun(position, events, c) && SettledRun(position, events, c)
    requires c.limits.minPosition <= position <= c.limits.maxPosition
    ensures WithinLimits(Run(position, events, c), c)
  {
    if events != [] {
      var n := |events| - 1;
      PrefixPlausible(position, events, n, c);
      PrefixSettled(position, events, n, c);
      ReservedIsHeld(position, events[..n], c);
      LimitsHold(position, events[..n], c);
      StepWithinLimits(Run(position, events[..n], c), events[n], c);
    }
  }

  /** What a report takes off the reservation, read off the book before the report. */
  function Released(b: Book, r: Report, scale: nat): int
    requires Shape(b) && scale > 0
  {
    var layer := Target(b, r, scale);
    if layer < 0 then 0
    else match r.status
      case PartiallyFilled => b.slots[layer].qty - r.leaves
      case Filled => b.slots[layer].qty
      case Canceled => if r.id in b.cancelIds then 0 else b.slots[layer].qty
      case Rejected => RejectedQty(b, r, layer)
      case Expired => RejectedQty(b, r, layer)
      case _ => 0
  }

  function RejectedQty(b: Book, r: Report, layer: Layer): int
    requires Shape(b)
  {
    if RejectsReplace(b, r) then var p := b.pending[b.newIds[r.id]]; p.value.newQty - p.value.lastQty
    else b.slots[layer].qty
  }

  lemma HandleReleases(b: Book, r: Report, now: nat, scale: nat)
    requires Shape(b) && scale > 0
    ensures Handle(b, r, now, scale).released == Released(b, r, scale)
  {
  }

  // ----- exactly when a report leaves the limits -----

  /** Fills are trades of just what the layer loses; no other report is a trade. */
  ghost predicate Fair(b: Book, r: Report, scale: nat)
    requires Shape(b) && scale > 0
  {
    var layer := Target(b, r, scale);
    match r.status
    case PartiallyFilled => r.trade && layer >= 0 && r.lastQty == b.slots[layer].qty - r.leaves
    case Filled => r.trade && layer >= 0 && r.lastQty == b.slots[layer].qty
    case _ => !r.trade
  }

  /**
   * There is room for the report: what a cancel, a rejection or an expiry gives back of a buy is at most the distance
   * to the minimum and of a sell at most the distance to the maximum; a rejected replace that shrank its order the other
   * way round. Fills need no room.
   */
  ghost predicate Room(w: World, r: Report, c: Config)
    requires Shapes(w.desk.books) && c.policy.scale > 0
  {
    var b, total := w.desk.books[BookIndex(r.side, r.positionSide)], w.position + w.desk.reserved;
    var given := Released(b, r, c.policy.scale);
    || r.trade
    || (if (r.side == Buy) == (given >= 0) then Abs(given) <= total - c.limits.minPosition
        else Abs(given) <= c.limits.maxPosition - total)
  }

  /** From within the limits a report stays within them exactly when there is room for it. */
  lemma ReportWithinIff(w: World, r: Report, now: nat, c: Config)
    requires Shapes(w.desk.books) && c.policy.scale > 0 && WithinLimits(w, c)
    requires Fair(w.desk.books[BookIndex(r.side, r.positionSide)], r, c.policy.scale)
    ensures WithinLimits(Step(w, Execution(r, now), c), c) <==> Room(w, r, c)
  {
    HandleReleases(w.desk.books[BookIndex(r.side, r.positionSide)], r, now, c.policy.scale);
  }

  ghost predicate FairEvent(w: World, e: Event, c: Config)
    requires Shapes(w.desk.books) && c.policy.scale > 0
  {
    e.Execution? ==> Fair(w.desk.books[BookIndex(e.report.side, e.report.positionSide)], e.report, c.policy.scale)
  }

  ghost predicate FairRun(position: int, events: seq<Event>, c: Config)
    requires ConfigOk(c)
  {
    forall i | 0 <= i < |events| :: FairEvent(Run(position, events[..i], c), events[i], c)
  }

  ghost predicate RoomFor(w: World, e: Event, c: Config)
    requires Shapes(w.desk.books) && c.policy.scale > 0
  {
    e.Execution? ==> Room(w, e.report, c)
  }

  /** The first `n` events all find room. */
  ghost predicate RoomUpTo(position: int, events: seq<Event>, n: nat, c: Config)
    requires ConfigOk(c) && n <= |events|
  {
    forall i | 0 <= i < n :: RoomFor(Run(position, events[..i], c), events[i], c)
  }

  /** Every point up to the `n`th event is within the limits. */
  ghost predicate WithinUpTo(position: int, events: seq<Event>, n: nat, c: Config)
    requires ConfigOk(c) && n <= |events|
  {
    forall i | 0 <= i <= n :: WithinLimits(Run(position, events[..i], c), c)
  }

  lemma StepWithinIff(w: World, e: Event, c: Config)
    requires ConfigOk(c) && DeskOk(w.desk, c.policy.increment) && Plausible(w, e, c) && FairEvent(w, e, c)
    requires WithinLimits(w, c)
    ensures WithinLimits(Step(w, e, c), c) <==> RoomFor(w, e, c)
  {
    match e
    case Quote(_, _, _, _) => StepWithinLimits(w, e, c);
    case Execution(r, now) => ReportWithinIff(w, r, now, c);
  }

  /** Every point of a run is within the limits exactly when every cancel, rejection and expiry finds room. */
  lemma {:induction false} LimitsIff(position: int, events: seq<Event>, n: nat, c: Config)
    requires ConfigOk(c) && PlausibleRun(position, events, c) && FairRun(position, events, c) && n <= |events|
    requires c.limits.minPosition <= position <= c.limits.maxPosition
    ensures WithinUpTo(position, events, n, c) <==> RoomUpTo(position, events, n, c)
  {
    if n == 0 {
      assert events[..0] == [];
    } else {
      LimitsIff(position, events, n - 1, c);
      NextWithinIff(position, events, n - 1, c);
      UpToNext(position, events, n - 1, c);
    }
  }

  lemma NextWithinIff(position: int, events: seq<Event>, n: nat, c: Config)
    requires ConfigOk(c) && PlausibleRun(position, events, c) && FairRun(position, events, c) && n < |events|
    ensures WithinLimits(Run(position, events[..n], c), c) ==>
              (WithinLimits(Run(position, events[..n + 1], c), c) <==> RoomFor(Run(position, events[..n], c), events[n], c))
  {
    PrefixPlausible(position, events, n, c);
    ReservedIsHeld(position, events[..n], c);
    RunNext(position, events, n, c);
    if WithinLimits(Run(position, events[..n], c), c) {
      assert FairEvent(Run(position, events[..n], c), events[n], c);
      StepWithinIff(Run(position, events[..n], c), events[n], c);
    }
  }

  lemma UpToNext(position: int, events: seq<Event>, n: nat, c: Config)
    requires ConfigOk(c) && n < |events|
    ensures WithinUpTo(position, events, n + 1, c)
       <==> WithinUpTo(position, events, n, c) && WithinLimits(Run(position, events[..n + 1], c), c)
    ensures RoomUpTo(position, events, n + 1, c)
       <==> RoomUpTo(position, events, n, c) && RoomFor(Run(position, events[..n], c), events[n], c)
    ensures WithinUpTo(position, events, n, c) ==> WithinLimits(Run(position, events[..n], c), c)
  {
  }
}

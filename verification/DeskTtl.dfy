/** Time to live over whole runs. */
module DeskTtl {
  import opened LayerBook
  import opened OrderState
  import opened Reconcile
  import opened Expiry
  import opened OrderDesk
  import opened DeskRuns

  ghost predicate HasEntry(queue: multiset<Key>, book: nat, layer: nat, id: nat) {
    exists k :: k in queue && k.book == book && k.layer == layer && k.id == id
  }

  ghost predicate Watched(b: Book, book: nat, queue: multiset<Key>)
    requires Shape(b)
  {
    forall l | 0 <= l < SLOTS && b.slots[l].state == Live :: HasEntry(queue, book, l, b.slots[l].id)
  }

  /** Every live order has a pending entry with its layer and its id. */
  ghost predicate AllWatched(d: Desk) {
    Shapes(d.books) && forall i | 0 <= i < 4 :: Watched(d.books[i], i, d.queue)
  }

  lemma WatchedMore(b: Book, book: nat, queue: multiset<Key>, more: multiset<Key>)
    requires Shape(b) && Watched(b, book, queue)
    ensures Watched(b, book, queue + more)
  {
    forall l | 0 <= l < SLOTS && b.slots[l].state == Live ensures HasEntry(queue + more, book, l, b.slots[l].id) {
      var k :| k in queue && k.book == book && k.layer == l && k.id == b.slots[l].id;
      assert k in queue + more;
    }
  }

  /** Every order still live after a sweep has an entry that is not yet due. */
  lemma SweptBookWatched(b: Book, book: nat, queue: multiset<Key>, now: nat)
    requires Shape(b) && Watched(b, book, queue)
    ensures Watched(SweptBook(b, book, queue, now), book, Left(queue, now))
  {
    var b' := SweptBook(b, book, queue, now);
    forall l | 0 <= l < SLOTS && b'.slots[l].state == Live ensures HasEntry(Left(queue, now), book, l, b'.slots[l].id) {
      assert b'.slots[l] == b.slots[l];
      var k :| k in queue && k.book == book && k.layer == l && k.id == b.slots[l].id;
      assert !Hit(queue, now, book, l, b.slots[l].id);
      assert k in Left(queue, now);
    }
  }

  lemma SweepWatched(d: Desk, now: nat)
    requires AllWatched(d)
    ensures AllWatched(Sweep(d, now)) && forall k | k in Sweep(d, now).queue :: k.expire > now
  {
    forall i | 0 <= i < 4 ensures Watched(Sweep(d, now).books[i], i, Sweep(d, now).queue) {
      SweptBookWatched(d.books[i], i, d.queue, now);
    }
  }

  lemma PlaceWatched(d: Desk, a: Action, isNew: bool, now: nat, c: Config)
    requires AllWatched(d) && c.policy.scale > 0
    ensures AllWatched(Place(d, a, isNew, now, c))
  {
    PlaceShapes(d, a, isNew, now, c);
    var more := multiset{Key(now + c.ttlReserved, BookOf(a), a.layer, a.id)};
    forall i | 0 <= i < 4 && !Blocked(d.books[BookOf(a)], a, c.policy)
      ensures Watched(Place(d, a, isNew, now, c).books[i], i, d.queue + more)
    {
      WatchedMore(d.books[i], i, d.queue, more);
    }
  }

  lemma {:induction false} PlaceAllWatched(d: Desk, acts: seq<Action>, n: nat, isNew: bool, now: nat, c: Config)
    requires AllWatched(d) && c.policy.scale > 0 && n <= |acts|
    ensures AllWatched(PlaceAll(d, acts, n, isNew, now, c))
  {
    if n > 0 {
      PlaceAllWatched(d, acts, n - 1, isNew, now, c);
      PlaceWatched(PlaceAll(d, acts, n - 1, isNew, now, c), acts[n - 1], isNew, now, c);
    }
  }

  lemma ApplyWatched(d: Desk, intents: seq<Intent>, now: nat, stamp: nat, acc: Account, c: Config)
    requires AllWatched(d) && c.policy.scale > 0
    ensures AllWatched(Apply(d, intents, now, stamp, acc, c))
    ensures forall k | k in Apply(d, intents, now, stamp, acc, c).queue :: k.expire > now
  {
    if intents == [] {
      SweepWatched(d, now);
    } else {
      var acts := Filters(d, intents, now, stamp, acc, c).0;
      PlaceAllWatched(d, acts.news, |acts.news|, true, now, c);
      var d1 := PlaceAll(d, acts.news, |acts.news|, true, now, c);
      PlaceAllWatched(d1, acts.repls, |acts.repls|, false, now, c);
      SweepWatched(Send(d, acts, now, c), now);
    }
  }

  /** The report resolves by client id, and no other layer carries that id. */
  ghost predicate ById(b: Book, r: Report, scale: nat)
    requires Shape(b) && scale > 0
  {
    var layer := Target(b, r, scale);
    && (r.status == AckNew && layer >= 0 ==>
          r.id != NO_ID && forall j | 0 <= j < SLOTS && j != layer :: b.slots[j].id != r.id)
    && (r.status == PartiallyFilled && layer >= 0 ==> FindById(b, r.id) >= 0)
  }

  /** Only an acknowledgement, a partial fill or the rejection of a replace makes a layer live. */
  lemma WhoGoesLive(b: Book, r: Report, now: nat, scale: nat, l: Layer)
    requires Shape(b) && scale > 0
    requires Handle(b, r, now, scale).book.slots[l].state == Live
    ensures var s, s' := b.slots[l], Handle(b, r, now, scale).book.slots[l];
            || (s.state == Live && s'.id == s.id)
            || (l == Target(b, r, scale) && r.status == AckNew && s'.id == r.id)
            || (l == Target(b, r, scale) && r.status == PartiallyFilled && s'.id == s.id)
            || (l == Target(b, r, scale) && RejectsReplace(b, r) && s'.id == b.pending[l].value.oldId)
  {
  }

  /** The layer whose time-to-live a report has to start is the one it starts. */
  lemma RegistersTarget(b: Book, r: Report, now: nat, scale: nat)
    requires Shape(b) && scale > 0 && ById(b, r, scale) && Target(b, r, scale) >= 0
    requires r.status == AckNew || r.status == PartiallyFilled
    ensures var b', layer := Handle(b, r, now, scale).book, Target(b, r, scale);
            b'.slots[layer].state == Live ==> Registers(b', r) == layer && b'.slots[layer].id == r.id
  {
    var b' := Handle(b, r, now, scale).book;
    FindSlotIsFirst(b'.slots, r.id, 0);
    if r.status == PartiallyFilled {
      FindSlotIsFirst(b.slots, r.id, 0);
      SameIds(b.slots, b'.slots, r.id, 0);
    }
  }

  lemma {:induction false} SameIds(s: seq<Slot>, t: seq<Slot>, id: nat, from: nat)
    requires |s| == |t| && from <= |s| && forall i | 0 <= i < |s| :: s[i].id == t[i].id
    ensures FindSlot(s, id, from) == FindSlot(t, id, from)
    decreases |s| - from
  {
    if from < |s| { SameIds(s, t, id, from + 1); }
  }

  /** The rejection of a replace brings back an order; is that order's own entry still in the queue? */
  ghost predicate StillQueued(d: Desk, r: Report)
    requires Shapes(d.books)
  {
    var i := BookIndex(r.side, r.positionSide);
    (r.status == Rejected || r.status == Expired) && RejectsReplace(d.books[i], r) ==>
      HasEntry(d.queue, i, d.books[i].newIds[r.id], d.books[i].pending[d.books[i].newIds[r.id]].value.oldId)
  }

  lemma HandledWatched(d: Desk, r: Report, now: nat, c: Config, l: Layer)
    requires AllWatched(d) && c.policy.scale > 0 && StillQueued(d, r)
    requires ById(d.books[BookIndex(r.side, r.positionSide)], r, c.policy.scale)
    requires Update(d, r, now, c).books[BookIndex(r.side, r.positionSide)].slots[l].state == Live
    ensures var i, d' := BookIndex(r.side, r.positionSide), Update(d, r, now, c);
            HasEntry(d'.queue, i, l, d'.books[i].slots[l].id)
  {
    var i, d' := BookIndex(r.side, r.positionSide), Update(d, r, now, c);
    var b, scale := d.books[i], c.policy.scale;
    WhoGoesLive(b, r, now, scale, l);
    if l == Target(b, r, scale) && (r.status == AckNew || r.status == PartiallyFilled) {
      RegistersTarget(b, r, now, scale);
      assert Key(now + c.ttlLive, i, l, r.id) in d'.queue;
    } else {
      assert HasEntry(d.queue, i, l, d'.books[i].slots[l].id);
      var k :| k in d.queue && k.book == i && k.layer == l && k.id == d'.books[i].slots[l].id;
      assert k in d'.queue;
    }
  }

  lemma UpdateWatched(d: Desk, r: Report, now: nat, c: Config)
    requires AllWatched(d) && c.policy.scale > 0 && StillQueued(d, r)
    requires ById(d.books[BookIndex(r.side, r.positionSide)], r, c.policy.scale)
    ensures AllWatched(Update(d, r, now, c))
  {
    var index, d' := BookIndex(r.side, r.positionSide), Update(d, r, now, c);
    forall i | 0 <= i < 4 ensures Watched(d'.books[i], i, d'.queue) {
      if i == index {
        forall l | 0 <= l < SLOTS && d'.books[i].slots[l].state == Live
          ensures HasEntry(d'.queue, i, l, d'.books[i].slots[l].id)
        {
          HandledWatched(d, r, now, c, l);
        }
      } else {
        WatchedMore(d.books[i], i, d.queue, d'.queue - d.queue);
        assert d'.queue == d.queue + (d'.queue - d.queue);
      }
    }
  }

  /**
   * A report that resolves by id keeps every live order watched exactly when it does not revive an order whose entry
   * is gone.
   */
  lemma WatchedIff(d: Desk, r: Report, now: nat, c: Config)
    requires AllWatched(d) && c.policy.scale > 0
    requires ById(d.books[BookIndex(r.side, r.positionSide)], r, c.policy.scale)
    ensures AllWatched(Update(d, r, now, c)) <==> StillQueued(d, r)
  {
    if StillQueued(d, r) {
      UpdateWatched(d, r, now, c);
    } else {
      var i := BookIndex(r.side, r.positionSide);
      var b, d' := d.books[i], Update(d, r, now, c);
      var l := b.newIds[r.id];
      assert d'.queue == d.queue && d'.books[i].slots[l].state == Live;
      assert d'.books[i].slots[l].id == b.pending[l].value.oldId;
      assert !HasEntry(d'.queue, i, l, d'.books[i].slots[l].id);
    }
  }

  ghost predicate Traceable(w: World, e: Event, c: Config)
    requires Shapes(w.desk.books) && c.policy.scale > 0
  {
    e.Execution? ==>
      && ById(w.desk.books[BookIndex(e.report.side, e.report.positionSide)], e.report, c.policy.scale)
      && StillQueued(w.desk, e.report)
  }

  ghost predicate TraceableRun(position: int, events: seq<Event>, c: Config)
    requires ConfigOk(c)
  {
    forall i | 0 <= i < |events| :: Traceable(Run(position, events[..i], c), events[i], c)
  }

  lemma PrefixTraceable(position: int, events: seq<Event>, n: nat, c: Config)
    requires ConfigOk(c) && TraceableRun(position, events, c) && n <= |events|
    ensures TraceableRun(position, events[..n], c)
  {
    forall i | 0 <= i < n ensures Traceable(Run(position, events[..n][..i], c), events[..n][i], c) {
      assert events[..n][..i] == events[..i];
    }
  }

  /**
   * No live order escapes its time to live: it always has a pending entry of its own, and after `apply` one that is
   * not yet due.
   */
  lemma {:induction false} NoneEscapes(position: int, events: seq<Event>, c: Config)
    requires ConfigOk(c) && TraceableRun(position, events, c)
    ensures AllWatched(Run(position, events, c).desk)
    ensures events != [] && events[|events| - 1].Quote? ==>
              forall k | k in Run(position, events, c).desk.queue :: k.expire > events[|events| - 1].now
  {
    if events != [] {
      var n := |events| - 1;
      PrefixTraceable(position, events, n, c);
      NoneEscapes(position, events[..n], c);
      var w := Run(position, events[..n], c);
      match events[n]
      case Quote(intents, now, stamp, pnl) =>
        ApplyWatched(w.desk, intents, now, stamp, Account(c.limits, w.position, pnl), c);
      case Execution(r, now) => UpdateWatched(w.desk, r, now, c);
    }
  }

  // ----- exactly when a live order escapes -----

  ghost predicate ByIdEvent(w: World, e: Event, c: Config)
    requires Shapes(w.desk.books) && c.policy.scale > 0
  {
    e.Execution? ==> ById(w.desk.books[BookIndex(e.report.side, e.report.positionSide)], e.report, c.policy.scale)
  }

  ghost predicate ByIdRun(position: int, events: seq<Event>, c: Config)
    requires ConfigOk(c)
  {
    forall i | 0 <= i < |events| :: ByIdEvent(Run(position, events[..i], c), events[i], c)
  }

  ghost predicate Requeued(w: World, e: Event)
    requires Shapes(w.desk.books)
  {
    e.Execution? ==> StillQueued(w.desk, e.report)
  }

  /** No rejection among the first `n` events brings back an order whose entry is gone. */
  ghost predicate RequeuedUpTo(position: int, events: seq<Event>, n: nat, c: Config)
    requires ConfigOk(c) && n <= |events|
  {
    forall i | 0 <= i < n :: Requeued(Run(position, events[..i], c), events[i])
  }

  /** Every live order is watched at every point up to the `n`th event. */
  ghost predicate WatchedUpTo(position: int, events: seq<Event>, n: nat, c: Config)
    requires ConfigOk(c) && n <= |events|
  {
    forall i | 0 <= i <= n :: AllWatched(Run(position, events[..i], c).desk)
  }

  lemma StepWatchedIff(w: World, e: Event, c: Config)
    requires ConfigOk(c) && AllWatched(w.desk) && ByIdEvent(w, e, c)
    ensures AllWatched(Step(w, e, c).desk) <==> Requeued(w, e)
  {
    match e
    case Quote(intents, now, stamp, pnl) =>
      ApplyWatched(w.desk, intents, now, stamp, Account(c.limits, w.position, pnl), c);
    case Execution(r, now) => WatchedIff(w.desk, r, now, c);
  }

  lemma NextWatchedIff(position: int, events: seq<Event>, n: nat, c: Config)
    requires ConfigOk(c) && ByIdRun(position, events, c) && n < |events|
    ensures WatchedUpTo(position, events, n + 1, c)
       <==> WatchedUpTo(position, events, n, c) && Requeued(Run(position, events[..n], c), events[n])
    ensures RequeuedUpTo(position, events, n + 1, c)
       <==> RequeuedUpTo(position, events, n, c) && Requeued(Run(position, events[..n], c), events[n])
  {
    var w := Run(position, events[..n], c);
    RunNext(position, events, n, c);
    if AllWatched(w.desk) {
      assert ByIdEvent(w, events[n], c);
      StepWatchedIff(w, events[n], c);
    }
  }

  /**
   * A run whose reports resolve by id has every live order watched throughout exactly when no rejected replace brings
   * back an order whose entry is gone.
   */
  lemma {:induction false} WatchedRunIff(position: int, events: seq<Event>, n: nat, c: Config)
    requires ConfigOk(c) && ByIdRun(position, events, c) && n <= |events|
    ensures WatchedUpTo(position, events, n, c) <==> RequeuedUpTo(position, events, n, c)
  {
    if n == 0 {
      assert events[..0] == [];
    } else {
      WatchedRunIff(position, events, n - 1, c);
      NextWatchedIff(position, events, n - 1, c);
    }
  }

  // ----- entries do not outlast the time to live -----

  ghost predicate UpTo(queue: multiset<Key>, t: nat) {
    forall k | k in queue :: k.expire <= t
  }

  function LongestTtl(c: Config): nat {
    if c.ttlReserved < c.ttlLive then c.ttlLive else c.ttlReserved
  }

  function Time(e: Event): nat {
    if e.Quote? then e.now else e.time
  }

  lemma {:induction false} PlaceAllUpTo(d: Desk, acts: seq<Action>, n: nat, isNew: bool, now: nat, c: Config, t: nat)
    requires Shapes(d.books) && c.policy.scale > 0 && n <= |acts| && UpTo(d.queue, t) && now + LongestTtl(c) <= t
    ensures UpTo(PlaceAll(d, acts, n, isNew, now, c).queue, t)
  {
    if n > 0 { PlaceAllUpTo(d, acts, n - 1, isNew, now, c, t); }
  }

  lemma StepUpTo(w: World, e: Event, c: Config, t: nat)
    requires Shapes(w.desk.books) && c.policy.scale > 0 && UpTo(w.desk.queue, t) && Time(e) + LongestTtl(c) <= t
    ensures UpTo(Step(w, e, c).desk.queue, t)
  {
    match e
    case Quote(intents, now, stamp, pnl) =>
      if intents != [] {
        var acts := Filters(w.desk, intents, now, stamp, Account(c.limits, w.position, pnl), c).0;
        PlaceAllUpTo(w.desk, acts.news, |acts.news|, true, now, c, t);
        PlaceAllUpTo(PlaceAll(w.desk, acts.news, |acts.news|, true, now, c), acts.repls, |acts.repls|, false, now, c, t);
      }
    case Execution(_, _) =>
  }

  /** No entry is later than the last event and the longer time to live. */
  lemma {:induction false} EntriesExpire(position: int, events: seq<Event>, c: Config, last: nat)
    requires ConfigOk(c) && forall e | e in events :: Time(e) <= last
    ensures UpTo(Run(position, events, c).desk.queue, last + LongestTtl(c))
  {
    if events != [] {
      var n := |events| - 1;
      EntriesExpire(position, events[..n], c, last);
      assert Time(events[n]) <= last;
      StepUpTo(Run(position, events[..n], c), events[n], c, last + LongestTtl(c));
    }
  }
}

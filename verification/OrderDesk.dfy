/** The order desk as a state machine: quoting, execution reports and time-to-live sweeps over whole runs. */
module OrderDesk {
  import opened Wrappers
  import opened LayerBook
  import opened OrderState
  import opened Reconcile
  import opened Expiry

  /** The four side books, the reserved position and the expiry queue. */
  datatype Desk = Desk(books: seq<Book>, reserved: int, queue: multiset<Key>)

  /** `reorder` tells a venue that cancels and reorders from one that modifies. */
  datatype Config = Config(policy: Policy, reorder: bool, ttlReserved: nat, ttlLive: nat, limits: Limits)

  ghost predicate ConfigOk(c: Config) {
    PolicyOk(c.policy)
  }

  predicate Blocked(b: Book, a: Action, p: Policy)
    requires p.scale > 0
  {
    var known := FindByTick(b, ToTicks(a.price, p.scale));
    known >= 0 && known != a.layer
  }

  // ----- sending orders -----

  function PlacedNew(b: Book, a: Action, now: nat, c: Config): Book
    requires Shape(b) && c.policy.scale > 0
  {
    WithSlot(b, a.layer, Slot(Reserved, a.price, a.qty, now, a.id))
      .(ticks := b.ticks[a.layer := ToTicks(a.price, c.policy.scale)])
  }

  function PlacedReplace(b: Book, a: Action, now: nat, c: Config): Book
    requires Shape(b) && c.policy.scale > 0
  {
    var tick := ToTicks(a.price, c.policy.scale);
    var newId := if c.reorder then a.id else a.oldId;
    var pend := Replace(a.price, a.qty, tick, newId, a.lastQty, a.oldId, b.slots[a.layer].price, b.ticks[a.layer]);
    WithSlot(b, a.layer, Slot(CancelReserved, a.price, a.qty, now, a.id))
      .(ticks := b.ticks[a.layer := tick],
        newIds := Without(b.newIds, a.layer)[newId := a.layer],
        cancelIds := if c.reorder then b.cancelIds[CancelId(a.id) := a.layer] else b.cancelIds,
        pending := b.pending[a.layer := Some(pend)])
  }

  function Placed(b: Book, a: Action, isNew: bool, now: nat, c: Config): Book
    requires Shape(b) && c.policy.scale > 0
  {
    if isNew then PlacedNew(b, a, now, c) else PlacedReplace(b, a, now, c)
  }

  function Place(d: Desk, a: Action, isNew: bool, now: nat, c: Config): Desk
    requires Shapes(d.books) && c.policy.scale > 0
  {
    var i := BookOf(a);
    if Blocked(d.books[i], a, c.policy) then d
    else Desk(d.books[i := Placed(d.books[i], a, isNew, now, c)], d.reserved + Delta(a),
              d.queue + multiset{Key(now + c.ttlReserved, i, a.layer, a.id)})
  }

  lemma PlaceShapes(d: Desk, a: Action, isNew: bool, now: nat, c: Config)
    requires Shapes(d.books) && c.policy.scale > 0
    ensures Shapes(Place(d, a, isNew, now, c).books)
  {
  }

  function PlaceAll(d: Desk, acts: seq<Action>, n: nat, isNew: bool, now: nat, c: Config): (r: Desk)
    requires Shapes(d.books) && c.policy.scale > 0 && n <= |acts|
    ensures Shapes(r.books)
  {
    if n == 0 then d
    else
      var before := PlaceAll(d, acts, n - 1, isNew, now, c);
      PlaceShapes(before, acts[n - 1], isNew, now, c);
      Place(before, acts[n - 1], isNew, now, c)
  }

  // ----- sweeping -----

  ghost predicate Hit(queue: multiset<Key>, now: nat, book: nat, layer: nat, id: nat) {
    exists k :: k in queue && k.expire <= now && k.book == book && k.layer == layer && k.id == id
  }

  function SweptSlot(s: Slot, hit: bool, now: nat): Slot {
    if hit && (s.state == Live || s.state == Reserved) then s.(state := CancelReserved, lastUsed := now) else s
  }

  ghost function SweptBook(b: Book, book: nat, queue: multiset<Key>, now: nat): (r: Book)
    requires Shape(b)
    ensures Shape(r)
  {
    b.(slots := seq(SLOTS, l requires 0 <= l < SLOTS => SweptSlot(b.slots[l], Hit(queue, now, book, l, b.slots[l].id), now)))
  }

  /** Orders with a due entry of their own id are sent a cancel. */
  ghost function Sweep(d: Desk, now: nat): (r: Desk)
    requires Shapes(d.books)
    ensures Shapes(r.books)
  {
    Desk(seq(4, i requires 0 <= i < 4 => SweptBook(d.books[i], i, d.queue, now)), d.reserved, Left(d.queue, now))
  }

  // ----- the two entry points -----

  function Filters(d: Desk, intents: seq<Intent>, now: nat, stamp: nat, acc: Account, c: Config): (r: (Actions, int))
    requires Shapes(d.books) && c.policy.scale > 0
  {
    var plan := Diff(d.books, intents, stamp, c.policy);
    var recent := Recent(d.books, now, c.policy);
    var news := Filtered(acc, Clamped(ThrottledAll(plan.news, recent), c.policy),
                         |Clamped(ThrottledAll(plan.news, recent), c.policy)|, d.reserved);
    var repls := Filtered(acc, Clamped(ThrottledAll(plan.repls, recent), c.policy),
                          |Clamped(ThrottledAll(plan.repls, recent), c.policy)|, news.1);
    (Actions(news.0, repls.0), repls.1)
  }

  function Send(d: Desk, acts: Actions, now: nat, c: Config): (r: Desk)
    requires Shapes(d.books) && c.policy.scale > 0
    ensures Shapes(r.books)
  {
    PlaceAll(PlaceAll(d, acts.news, |acts.news|, true, now, c), acts.repls, |acts.repls|, false, now, c)
  }

  ghost function Apply(d: Desk, intents: seq<Intent>, now: nat, stamp: nat, acc: Account, c: Config): (r: Desk)
    requires Shapes(d.books) && c.policy.scale > 0
    ensures Shapes(r.books)
  {
    if intents == [] then Sweep(d, now)
    else
      var acts := Filters(d, intents, now, stamp, acc, c).0;
      Sweep(Send(d, acts, now, c), now)
  }

  /** The layer whose time-to-live a report starts, or -1. */
  function Registers(b: Book, r: Report): (layer: int)
    requires Shape(b)
    ensures -1 <= layer < SLOTS
  {
    var layer := FindById(b, r.id);
    if r.status == AckNew then
      if layer < 0 && r.id in b.newIds then b.newIds[r.id] else layer
    else if r.status == PartiallyFilled && layer >= 0 && b.slots[layer].state == Live then layer
    else -1
  }

  function Update(d: Desk, r: Report, now: nat, c: Config): Desk
    requires Shapes(d.books) && c.policy.scale > 0
  {
    var i := BookIndex(r.side, r.positionSide);
    var h := Handle(d.books[i], r, now, c.policy.scale);
    var layer := Registers(h.book, r);
    Desk(d.books[i := h.book], d.reserved - Signed(r.side, h.released),
         if layer < 0 then d.queue else d.queue + multiset{Key(now + c.ttlLive, i, layer, r.id)})
  }
}

/** What each execution report makes of the layer it names, and that it touches no other. */
module ReportOutcomes {
  import opened Wrappers
  import opened LayerBook
  import opened OrderState

  // ----- the named layer -----

  /**
   * A report names the first layer with its id, or the first with its price's tick when no layer has the id; -1 is
   * none.
   */
  lemma NamedLayer(b: Book, r: Report, scale: nat)
    requires Shape(b) && scale > 0
    ensures var l, known := FindLayer(b, r, scale), r.id != NO_ID && exists i :: 0 <= i < SLOTS && b.slots[i].id == r.id;
            var tick := ToTicks(r.price, scale);
            && (known ==> l >= 0 && b.slots[l].id == r.id && forall i | 0 <= i < l :: b.slots[i].id != r.id)
            && (!known && l >= 0 ==> b.ticks[l] == tick && forall i | 0 <= i < l :: b.ticks[i] != tick)
            && (!known && l < 0 ==> forall i | 0 <= i < SLOTS :: b.ticks[i] != tick)
  {
    FindSlotIsFirst(b.slots, r.id, 0);
    FindTickIsFirst(b.ticks, ToTicks(r.price, scale), 0);
  }

  // ----- what a layer keeps -----

  /** Only layer `l` differs. */
  ghost predicate OnlyLayer(b: Book, b': Book, l: int)
    requires Shape(b) && Shape(b')
  {
    forall i | 0 <= i < SLOTS && i != l ::
      b'.slots[i] == b.slots[i] && b'.ticks[i] == b.ticks[i] && b'.pending[i] == b.pending[i]
  }

  /** No id is added or moved, and none is taken from a layer other than `l`. */
  ghost predicate OnlyIdsOf(ids: map<nat, nat>, ids': map<nat, nat>, l: int) {
    && (forall id | id in ids' :: id in ids && ids'[id] == ids[id])
    && (forall id | id in ids && ids[id] != l :: id in ids')
  }

  /** The layer holds no order, tick, id or replace any more. */
  ghost predicate Gone(b: Book, l: nat)
    requires Shape(b) && l < SLOTS
  {
    && b.slots[l].state == Dead && b.ticks[l] == NO_TICK && b.pending[l] == None
    && (forall id | id in b.newIds :: b.newIds[id] != l) && (forall id | id in b.cancelIds :: b.cancelIds[id] != l)
  }

  /** Apart from its slot, the whole book is as it was. */
  ghost predicate OnlySlot(b: Book, b': Book, l: nat, s: Slot)
    requires Shape(b) && l < SLOTS
  {
    b' == b.(slots := b.slots[l := s])
  }

  /** A report that finds no layer does nothing. */
  lemma NoLayerNoChange(b: Book, r: Report, now: nat, scale: nat)
    requires Shape(b) && scale > 0 && Target(b, r, scale) < 0
    ensures Handle(b, r, now, scale) == Handled(b, 0)
  {
  }

  /** A report touches the layer it acts on and no other. */
  lemma TouchesOneLayer(b: Book, r: Report, now: nat, scale: nat)
    requires Shape(b) && scale > 0
    ensures OnlyLayer(b, Handle(b, r, now, scale).book, Target(b, r, scale))
  {
  }

  /** A report takes ids from the layer it acts on and from no other, and gives none. */
  lemma TouchesOneLayersIds(b: Book, r: Report, now: nat, scale: nat)
    requires Shape(b) && scale > 0
    ensures var l, b' := Target(b, r, scale), Handle(b, r, now, scale).book;
            && OnlyIdsOf(b.newIds, b'.newIds, l)
            && (r.status != Rejected && r.status != Expired ==> OnlyIdsOf(b.cancelIds, b'.cancelIds, l))
  {
  }

  // ----- acknowledgements -----

  /** The two pending acknowledgements set the state and nothing else. */
  lemma PendingOutcome(b: Book, r: Report, now: nat, scale: nat, l: Layer)
    requires Shape(b) && scale > 0 && l == FindLayer(b, r, scale) && (r.status == AckPending || r.status == AckCancel)
    ensures var h := Handle(b, r, now, scale);
            && h.released == 0
            && OnlySlot(b, h.book, l, b.slots[l].(state := if r.status == AckPending then PendingNew else PendingCancel))
  {
  }

  /** An acknowledged order is live at the report's price with the report's quantity and id, and its tick is known. */
  lemma NewOutcome(b: Book, r: Report, now: nat, scale: nat, l: Layer)
    requires Shape(b) && scale > 0 && r.status == AckNew
    requires if r.id in b.newIds then l == b.newIds[r.id] else l == FindLayer(b, r, scale)
    ensures var b' := Handle(b, r, now, scale).book;
            && Handle(b, r, now, scale).released == 0 && b'.cancelIds == b.cancelIds && b'.pending[l] == None
            && b'.slots[l] == Slot(Live, r.price, r.leaves, b.slots[l].lastUsed, r.id)
            && b'.ticks[l] == (if b.pending[l].Some? then b.pending[l].value.newTick else ToTicks(r.price, scale))
            && (b.pending[l].Some? ==> r.id !in b'.newIds) && (b.pending[l].None? ==> b'.newIds == b.newIds)
  {
  }

  // ----- fills -----

  /** A fill that leaves something leaves the order live with what is left, used now, at its price, tick and id. */
  lemma PartialFillOutcome(b: Book, r: Report, now: nat, scale: nat, l: Layer)
    requires Shape(b) && scale > 0 && l == FindLayer(b, r, scale) && r.status == PartiallyFilled && r.leaves > 0
    ensures var h, s := Handle(b, r, now, scale), b.slots[l];
            && h.released == s.qty - r.leaves
            && OnlySlot(b, h.book, l, Slot(Live, s.price, r.leaves, now, s.id))
  {
  }

  /** A fill that leaves nothing, partial or not, ends the order and gives back what it held. */
  lemma FillOutcome(b: Book, r: Report, now: nat, scale: nat, l: Layer)
    requires Shape(b) && scale > 0 && l == FindLayer(b, r, scale)
    requires r.status == Filled || (r.status == PartiallyFilled && r.leaves <= 0)
    ensures var h, s := Handle(b, r, now, scale), b.slots[l];
            && Gone(h.book, l) && h.book.slots[l] == s.(state := Dead, qty := r.leaves)
            && h.released == (if r.status == Filled then s.qty else s.qty - r.leaves)
  {
  }

  // ----- cancels and rejections -----

  /** The cancel half of a replace makes the layer wait for the new order; any other cancel ends the order. */
  lemma CanceledOutcome(b: Book, r: Report, now: nat, scale: nat, l: Layer)
    requires Shape(b) && scale > 0 && r.status == Canceled
    requires if r.id in b.cancelIds then l == b.cancelIds[r.id] else l == FindLayer(b, r, scale)
    ensures var h, s := Handle(b, r, now, scale), b.slots[l];
            if r.id in b.cancelIds then
              && h.released == 0 && h.book.slots[l] == s.(state := Reserved)
              && h.book == b.(slots := h.book.slots, cancelIds := b.cancelIds - {r.id})
            else Gone(h.book, l) && h.book.slots[l] == s.(state := Dead) && h.released == s.qty
  {
  }

  /** The rejection or expiry of an order ends it and gives back what it held. */
  lemma RejectedOutcome(b: Book, r: Report, now: nat, scale: nat, l: Layer)
    requires Shape(b) && scale > 0 && (r.status == Rejected || r.status == Expired)
    requires !RejectsReplace(b, r) && l == FindLayer(b, r, scale)
    ensures var h, s := Handle(b, r, now, scale), b.slots[l];
            Gone(h.book, l) && h.book.slots[l] == s.(state := Dead) && h.released == s.qty
  {
  }

  /** The rejection of a replace brings the order before it back to life and gives back what the replace had added. */
  lemma ReplaceRejectedOutcome(b: Book, r: Report, now: nat, scale: nat, l: Layer)
    requires Shape(b) && scale > 0 && (r.status == Rejected || r.status == Expired)
    requires r.id in b.newIds && l == b.newIds[r.id] && b.pending[l].Some?
    ensures var h, p := Handle(b, r, now, scale), b.pending[l].value;
            && h.released == p.newQty - p.lastQty
            && h.book.slots[l] == Slot(Live, p.oldPrice, p.lastQty, b.slots[l].lastUsed, p.oldId)
            && h.book.ticks[l] == p.oldTick && h.book.pending[l] == None
            && r.id !in h.book.newIds && (0 < r.id <= NO_ID ==> r.id - 1 !in h.book.cancelIds)
  {
  }
}

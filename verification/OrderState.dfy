/** What an execution report does to a side book and to the reserved position. */
module OrderState {
  import opened Arith
  import opened Wrappers
  import opened LayerBook

  datatype Side = Buy | Sell
  datatype PositionSide = Long | Short

  datatype Status =
    AckPending | AckNew | PartiallyFilled | Filled | AckCancel | Canceled | Rejected | Expired | Unknown

  /** The part of an execution report the order manager reads. */
  datatype Report = Report(status: Status, id: nat, price: int, leaves: int, lastQty: int,
                           side: Side, positionSide: Optional<PositionSide>, trade: bool)

  function Signed(side: Side, qty: int): int {
    if side == Buy then qty else -qty
  }

  /** The layer a report names: by client id, else by the tick of its price. */
  function FindLayer(b: Book, r: Report, scale: nat): (layer: int)
    requires Shape(b) && scale > 0
    ensures -1 <= layer < SLOTS
  {
    var byId := FindById(b, r.id);
    if byId >= 0 then byId else FindByTick(b, ToTicks(r.price, scale))
  }

  function NewLayer(b: Book, r: Report, scale: nat): (layer: int)
    requires Shape(b) && scale > 0
    ensures -1 <= layer < SLOTS
  {
    if r.id in b.newIds then b.newIds[r.id] else FindLayer(b, r, scale)
  }

  /** A rejection of a replace that is still in flight. */
  predicate RejectsReplace(b: Book, r: Report)
    requires Shape(b)
  {
    r.id in b.newIds && b.pending[b.newIds[r.id]].Some?
  }

  /** A side book after a report, and how much the report takes off the reservation. */
  datatype Handled = Handled(book: Book, released: int)

  function MarkState(b: Book, layer: int, state: State): (h: Handled)
    requires Shape(b) && -1 <= layer < SLOTS
    ensures Shape(h.book)
  {
    if layer < 0 then Handled(b, 0) else Handled(WithState(b, layer, state), 0)
  }

  /** The layer dies and its quantity is released. */
  function Close(b: Book, layer: int, qty: int): (h: Handled)
    requires Shape(b) && -1 <= layer < SLOTS
    ensures Shape(h.book)
  {
    if layer < 0 then Handled(b, 0)
    else Handled(Unmapped(WithSlot(b, layer, b.slots[layer].(state := Dead, qty := qty)), layer), b.slots[layer].qty)
  }

  function HandleNew(b: Book, r: Report, scale: nat): (h: Handled)
    requires Shape(b) && scale > 0
    ensures Shape(h.book)
  {
    var layer := NewLayer(b, r, scale);
    if layer < 0 then Handled(b, 0)
    else
      var b1 := WithSlot(b, layer, Slot(Live, r.price, r.leaves, b.slots[layer].lastUsed, r.id));
      match b.pending[layer]
      case Some(p) => Handled(b1.(ticks := b.ticks[layer := p.newTick], pending := b.pending[layer := None],
                                  newIds := b.newIds - {r.id}), 0)
      case None => Handled(b1.(ticks := b.ticks[layer := ToTicks(r.price, scale)]), 0)
  }

  function HandlePartialFill(b: Book, r: Report, now: nat, scale: nat): (h: Handled)
    requires Shape(b) && scale > 0
    ensures Shape(h.book)
  {
    var layer := FindLayer(b, r, scale);
    if layer < 0 then Handled(b, 0)
    else
      var s := b.slots[layer];
      if r.leaves <= 0 then Close(b, layer, r.leaves).(released := s.qty - r.leaves)
      else Handled(WithSlot(b, layer, s.(state := Live, qty := r.leaves, lastUsed := now)), s.qty - r.leaves)
  }

  function HandleCanceled(b: Book, r: Report, scale: nat): (h: Handled)
    requires Shape(b) && scale > 0
    ensures Shape(h.book)
  {
    if r.id in b.cancelIds then
      Handled(WithState(b, b.cancelIds[r.id], Reserved).(cancelIds := b.cancelIds - {r.id}), 0)
    else
      var layer := FindLayer(b, r, scale);
      if layer < 0 then Handled(b, 0) else Close(b, layer, b.slots[layer].qty)
  }

  /** The id of the cancel half of the replace whose new order has id `id`. */
  function CancelId(id: nat): nat {
    (id - 1) % TWO_64
  }

  /** The order before the replace is live again. */
  function Restored(b: Book, layer: nat, id: nat): (h: Handled)
    requires Shape(b) && layer < SLOTS && b.pending[layer].Some?
    ensures Shape(h.book)
  {
    var p := b.pending[layer].value;
    Handled(WithSlot(b, layer, Slot(Live, p.oldPrice, p.lastQty, b.slots[layer].lastUsed, p.oldId))
              .(ticks := b.ticks[layer := p.oldTick], pending := b.pending[layer := None],
                newIds := b.newIds - {id}, cancelIds := b.cancelIds - {CancelId(id)}),
            p.newQty - p.lastQty)
  }

  function HandleRejected(b: Book, r: Report, scale: nat): (h: Handled)
    requires Shape(b) && scale > 0
    ensures Shape(h.book)
  {
    if RejectsReplace(b, r) then Restored(b, b.newIds[r.id], r.id)
    else
      var layer := FindLayer(b, r, scale);
      if layer < 0 then Handled(b, 0) else Close(b, layer, b.slots[layer].qty)
  }

  function Handle(b: Book, r: Report, now: nat, scale: nat): (h: Handled)
    requires Shape(b) && scale > 0
    ensures Shape(h.book)
  {
    match r.status
    case AckPending => MarkState(b, FindLayer(b, r, scale), PendingNew)
    case AckNew => HandleNew(b, r, scale)
    case PartiallyFilled => HandlePartialFill(b, r, now, scale)
    case Filled => Close(b, FindLayer(b, r, scale), r.leaves)
    case AckCancel => MarkState(b, FindLayer(b, r, scale), PendingCancel)
    case Canceled => HandleCanceled(b, r, scale)
    case Rejected => HandleRejected(b, r, scale)
    case Expired => HandleRejected(b, r, scale)
    case Unknown => Handled(b, 0)
  }

  // ----- conservation -----

  /** The layer a report acts on, or -1. */
  function Target(b: Book, r: Report, scale: nat): (layer: int)
    requires Shape(b) && scale > 0
    ensures -1 <= layer < SLOTS
  {
    if r.status == AckNew then NewLayer(b, r, scale)
    else if r.status == Canceled && r.id in b.cancelIds then b.cancelIds[r.id]
    else if (r.status == Rejected || r.status == Expired) && RejectsReplace(b, r) then b.newIds[r.id]
    else FindLayer(b, r, scale)
  }

  /** A report the exchange may send: it acts on no layer or on an occupied one, and its remainder fits the layer. */
  ghost predicate Consistent(b: Book, r: Report, scale: nat, increment: nat)
    requires Shape(b) && scale > 0 && increment > 0
  {
    var layer := Target(b, r, scale);
    || layer < 0
    || (&& Occupied(b.slots[layer])
        && (r.status == AckNew ==> r.leaves == b.slots[layer].qty)
        && (r.status == PartiallyFilled ==>
              r.leaves <= b.slots[layer].qty && Whole(r.leaves, increment) && b.pending[layer].None?))
  }

  /** What a report takes off the reservation it also takes off the layers. */
  ghost predicate Conserved(b: Book, h: Handled, increment: nat) {
    BookOk(h.book, increment) && Held(h.book.slots) == Held(b.slots) - h.released
  }

  lemma MarkConserves(b: Book, layer: int, state: State, increment: nat)
    requires BookOk(b, increment) && -1 <= layer < SLOTS && state != Invalid && state != Dead
    requires layer >= 0 ==> Occupied(b.slots[layer])
    ensures Conserved(b, MarkState(b, layer, state), increment)
  {
    if layer >= 0 { SlotKeepsOk(b, layer, b.slots[layer].(state := state), increment); }
  }

  lemma CloseConserves(b: Book, layer: int, qty: int, increment: nat)
    requires BookOk(b, increment) && -1 <= layer < SLOTS && (layer >= 0 ==> Occupied(b.slots[layer]))
    ensures Conserved(b, Close(b, layer, qty), increment)
  {
    if layer >= 0 { DeathKeepsOk(b, layer, b.slots[layer].(state := Dead, qty := qty), increment); }
  }

  /** Ending the replace in flight of a layer keeps the rest of the book in order. */
  lemma SettleKeepsOk(b: Book, layer: nat, tick: nat, id: nat, cancelId: nat, increment: nat)
    requires BookOk(b, increment) && layer < SLOTS
    ensures BookOk(b.(ticks := b.ticks[layer := tick], pending := b.pending[layer := None],
                      newIds := b.newIds - {id}, cancelIds := b.cancelIds - {cancelId}), increment)
    ensures BookOk(b.(ticks := b.ticks[layer := tick], pending := b.pending[layer := None],
                      newIds := b.newIds - {id}), increment)
    ensures BookOk(b.(ticks := b.ticks[layer := tick]), increment)
  {
    forall i | 0 <= i < SLOTS && b.pending[i].Some? ensures ReplaceOk(b, i, increment) {}
  }

  lemma NewConserves(b: Book, r: Report, scale: nat, increment: nat)
    requires BookOk(b, increment) && scale > 0 && r.status == AckNew && Consistent(b, r, scale, increment)
    ensures Conserved(b, HandleNew(b, r, scale), increment)
  {
    var layer := NewLayer(b, r, scale);
    if layer >= 0 {
      var s := Slot(Live, r.price, r.leaves, b.slots[layer].lastUsed, r.id);
      SlotKeepsOk(b, layer, s, increment);
      var tick := if b.pending[layer].Some? then b.pending[layer].value.newTick else ToTicks(r.price, scale);
      SettleKeepsOk(WithSlot(b, layer, s), layer, tick, r.id, 0, increment);
    }
  }

  lemma PartialFillConserves(b: Book, r: Report, now: nat, scale: nat, increment: nat)
    requires BookOk(b, increment) && scale > 0 && r.status == PartiallyFilled && Consistent(b, r, scale, increment)
    ensures Conserved(b, HandlePartialFill(b, r, now, scale), increment)
  {
    var layer := FindLayer(b, r, scale);
    if layer >= 0 {
      if r.leaves <= 0 {
        CloseConserves(b, layer, r.leaves, increment);
      } else {
        SlotKeepsOk(b, layer, b.slots[layer].(state := Live, qty := r.leaves, lastUsed := now), increment);
      }
    }
  }

  lemma CanceledConserves(b: Book, r: Report, scale: nat, increment: nat)
    requires BookOk(b, increment) && scale > 0 && r.status == Canceled && Consistent(b, r, scale, increment)
    ensures Conserved(b, HandleCanceled(b, r, scale), increment)
  {
    if r.id in b.cancelIds {
      MarkConserves(b, b.cancelIds[r.id], Reserved, increment);
      var b1 := WithState(b, b.cancelIds[r.id], Reserved);
      assert BookOk(b1.(cancelIds := b1.cancelIds - {r.id}), increment) by {
        forall i | 0 <= i < SLOTS && b1.pending[i].Some? ensures ReplaceOk(b1, i, increment) {}
      }
    } else {
      var layer := FindLayer(b, r, scale);
      if layer >= 0 { CloseConserves(b, layer, b.slots[layer].qty, increment); }
    }
  }

  lemma RestoredConserves(b: Book, layer: nat, id: nat, increment: nat)
    requires BookOk(b, increment) && layer < SLOTS && b.pending[layer].Some?
    ensures Conserved(b, Restored(b, layer, id), increment)
  {
    var p := b.pending[layer].value;
    assert ReplaceOk(b, layer, increment);
    SettleKeepsOk(b, layer, p.oldTick, id, CancelId(id), increment);
    var b1 := b.(ticks := b.ticks[layer := p.oldTick], pending := b.pending[layer := None],
                 newIds := b.newIds - {id}, cancelIds := b.cancelIds - {CancelId(id)});
    SlotKeepsOk(b1, layer, Slot(Live, p.oldPrice, p.lastQty, b.slots[layer].lastUsed, p.oldId), increment);
  }

  lemma RejectedConserves(b: Book, r: Report, scale: nat, increment: nat)
    requires BookOk(b, increment) && scale > 0 && (r.status == Rejected || r.status == Expired)
    requires Consistent(b, r, scale, increment)
    ensures Conserved(b, HandleRejected(b, r, scale), increment)
  {
    if RejectsReplace(b, r) {
      RestoredConserves(b, b.newIds[r.id], r.id, increment);
    } else {
      var layer := FindLayer(b, r, scale);
      if layer >= 0 { CloseConserves(b, layer, b.slots[layer].qty, increment); }
    }
  }

  /** Every consistent report keeps the book in order and releases exactly what its layers lose. */
  lemma HandleConserves(b: Book, r: Report, now: nat, scale: nat, increment: nat)
    requires BookOk(b, increment) && scale > 0 && Consistent(b, r, scale, increment)
    ensures Conserved(b, Handle(b, r, now, scale), increment)
  {
    match r.status
    case AckPending => MarkConserves(b, FindLayer(b, r, scale), PendingNew, increment);
    case AckNew => NewConserves(b, r, scale, increment);
    case PartiallyFilled => PartialFillConserves(b, r, now, scale, increment);
    case Filled => CloseConserves(b, FindLayer(b, r, scale), r.leaves, increment);
    case AckCancel => MarkConserves(b, FindLayer(b, r, scale), PendingCancel, increment);
    case Canceled => CanceledConserves(b, r, scale, increment);
    case Rejected => RejectedConserves(b, r, scale, increment);
    case Expired => RejectedConserves(b, r, scale, increment);
    case Unknown =>
  }

  // ----- the state manager -----

  class ReservedPositionTracker {
    var reserved: int

    constructor ()
      ensures reserved == 0
    {
      reserved := 0;
    }

    method AddReserved(side: Side, qty: int)
      modifies this
      ensures reserved == old(reserved) + Signed(side, qty)
    {
      reserved := reserved + Signed(side, qty);
    }

    method RemoveReserved(side: Side, qty: int)
      modifies this
      ensures reserved == old(reserved) - Signed(side, qty)
    {
      reserved := reserved - Signed(side, qty);
    }
  }

  class OrderStateManager {
    const scale: nat

    constructor (scale: nat)
      ensures this.scale == scale
    {
      this.scale := scale;
    }

    method LayerOf(r: Report, book: SideBook) returns (layer: int)
      requires book.Valid() && scale > 0
      ensures layer == FindLayer(book.Contents(), r, scale)
    {
      layer := book.FindLayerById(r.id);
      if layer >= 0 {
        return;
      }
      layer := book.FindLayerByTicks(ToTicks(r.price, scale));
    }

    method SetState(book: SideBook, layer: int, state: State)
      requires book.Valid() && -1 <= layer < SLOTS
      modifies book
      ensures book.Valid() && book.Contents() == old(MarkState(book.Contents(), layer, state).book)
    {
      if layer >= 0 {
        book.slots := book.slots[layer := book.slots[layer].(state := state)];
      }
    }

    method CloseLayer(book: SideBook, tracker: ReservedPositionTracker, layer: int, side: Side, qty: int)
      requires book.Valid() && 0 <= layer < SLOTS
      modifies book, tracker
      ensures book.Valid() && book.Contents() == old(Close(book.Contents(), layer, qty).book)
      ensures tracker.reserved == old(tracker.reserved - Signed(side, book.slots[layer].qty))
    {
      tracker.RemoveReserved(side, book.slots[layer].qty);
      book.slots := book.slots[layer := book.slots[layer].(state := Dead, qty := qty)];
      book.UnmapLayer(layer);
    }

    method OnNew(r: Report, book: SideBook)
      requires book.Valid() && scale > 0
      modifies book
      ensures book.Valid() && book.Contents() == old(HandleNew(book.Contents(), r, scale).book)
    {
      var layer := -1;
      if r.id in book.newIds {
        layer := book.newIds[r.id];
      }
      if layer < 0 {
        layer := LayerOf(r, book);
      }
      if layer < 0 {
        return;
      }
      var slot := Slot(Live, r.price, r.leaves, book.slots[layer].lastUsed, r.id);
      if book.pending[layer].Some? {
        book.ticks := book.ticks[layer := book.pending[layer].value.newTick];
        book.slots := book.slots[layer := slot];
        book.pending := book.pending[layer := None];
        book.newIds := book.newIds - {r.id};
      } else {
        book.ticks := book.ticks[layer := ToTicks(r.price, scale)];
        book.slots := book.slots[layer := slot];
      }
    }

    method OnPartialFill(r: Report, book: SideBook, tracker: ReservedPositionTracker, now: nat)
      requires book.Valid() && scale > 0
      modifies book, tracker
      ensures book.Valid()
      ensures var h := old(HandlePartialFill(book.Contents(), r, now, scale));
              book.Contents() == h.book && tracker.reserved == old(tracker.reserved) - Signed(r.side, h.released)
    {
      var layer := LayerOf(r, book);
      if layer < 0 {
        return;
      }
      tracker.RemoveReserved(r.side, book.slots[layer].qty - r.leaves);
      var state := if r.leaves <= 0 then Dead else Live;
      book.slots := book.slots[layer := book.slots[layer].(qty := r.leaves, state := state)];
      if state == Dead {
        book.UnmapLayer(layer);
      } else {
        book.slots := book.slots[layer := book.slots[layer].(lastUsed := now)];
      }
    }

    method OnFilled(r: Report, book: SideBook, tracker: ReservedPositionTracker)
      requires book.Valid() && scale > 0
      modifies book, tracker
      ensures book.Valid()
      ensures var h := old(Close(book.Contents(), FindLayer(book.Contents(), r, scale), r.leaves));
              book.Contents() == h.book && tracker.reserved == old(tracker.reserved) - Signed(r.side, h.released)
    {
      var layer := LayerOf(r, book);
      if layer >= 0 {
        CloseLayer(book, tracker, layer, r.side, r.leaves);
      }
    }

    method OnCanceled(r: Report, book: SideBook, tracker: ReservedPositionTracker)
      requires book.Valid() && scale > 0
      modifies book, tracker
      ensures book.Valid()
      ensures var h := old(HandleCanceled(book.Contents(), r, scale));
              book.Contents() == h.book && tracker.reserved == old(tracker.reserved) - Signed(r.side, h.released)
    {
      if r.id in book.cancelIds {
        var layer := book.cancelIds[r.id];
        book.cancelIds := book.cancelIds - {r.id};
        SetState(book, layer, Reserved);
        return;
      }
      var layer := LayerOf(r, book);
      if layer >= 0 {
        CloseLayer(book, tracker, layer, r.side, book.slots[layer].qty);
      }
    }

    method RestoreLayer(book: SideBook, layer: nat, id: nat)
      requires book.Valid() && layer < SLOTS && book.pending[layer].Some?
      modifies book
      ensures book.Valid() && book.Contents() == old(Restored(book.Contents(), layer, id).book)
    {
      var p := book.pending[layer].value;
      book.pending := book.pending[layer := None];
      book.newIds := book.newIds - {id};
      book.slots := book.slots[layer := book.slots[layer].(state := Live, price := p.oldPrice, id := p.oldId,
                                                           qty := p.lastQty)];
      book.ticks := book.ticks[layer := p.oldTick];
      book.cancelIds := book.cancelIds - {CancelId(id)};
    }

    method OnRejected(r: Report, book: SideBook, tracker: ReservedPositionTracker)
      requires book.Valid() && scale > 0
      modifies book, tracker
      ensures book.Valid()
      ensures var h := old(HandleRejected(book.Contents(), r, scale));
              book.Contents() == h.book && tracker.reserved == old(tracker.reserved) - Signed(r.side, h.released)
    {
      var layer := -1;
      if r.id in book.newIds {
        layer := book.newIds[r.id];
      }
      if layer >= 0 && book.pending[layer].Some? {
        var p := book.pending[layer].value;
        tracker.RemoveReserved(r.side, p.newQty - p.lastQty);
        RestoreLayer(book, layer, r.id);
      } else {
        layer := LayerOf(r, book);
        if layer >= 0 {
          CloseLayer(book, tracker, layer, r.side, book.slots[layer].qty);
        }
      }
    }

    method HandleReport(r: Report, book: SideBook, tracker: ReservedPositionTracker, now: nat)
      requires book.Valid() && scale > 0
      modifies book, tracker
      ensures book.Valid()
      ensures var h := old(Handle(book.Contents(), r, now, scale));
              book.Contents() == h.book && tracker.reserved == old(tracker.reserved) - Signed(r.side, h.released)
    {
      match r.status
      case AckPending =>
        var layer := LayerOf(r, book);
        SetState(book, layer, PendingNew);
      case AckNew => OnNew(r, book);
      case PartiallyFilled => OnPartialFill(r, book, tracker, now);
      case Filled => OnFilled(r, book, tracker);
      case AckCancel =>
        var layer := LayerOf(r, book);
        SetState(book, layer, PendingCancel);
      case Canceled => OnCanceled(r, book, tracker);
      case Rejected => OnRejected(r, book, tracker);
      case Expired => OnRejected(r, book, tracker);
      case Unknown =>
    }
  }
}

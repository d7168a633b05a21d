/** One side of the order book the desk keeps of its own orders: eight layers, their ticks and replaces in flight. */
module LayerBook {
  import opened Arith
  import opened Wrappers

  const SLOTS := 8
  const NO_TICK := 0
  /** What a price or a quantity holds before it is set. */
  const UNSET := 0x7FFF_FFFF_FFFF_FFFF
  const NO_ID := 0xFFFF_FFFF_FFFF_FFFF

  type Layer = n: nat | n < SLOTS

  datatype State = Invalid | PendingNew | Live | PendingCancel | Dead | Reserved | CancelReserved

  datatype Slot = Slot(state: State, price: int, qty: int, lastUsed: nat, id: nat)

  /** `PendingReplaceInfo`. */
  datatype Replace = Replace(newPrice: int, newQty: int, newTick: nat, newId: nat,
                             lastQty: int, oldId: nat, oldPrice: int, oldTick: nat)

  /** The contents of a side book. */
  datatype Book = Book(slots: seq<Slot>, ticks: seq<nat>, pending: seq<Optional<Replace>>,
                       cancelIds: map<nat, nat>, newIds: map<nat, nat>)

  predicate Occupied(s: Slot) {
    s.state != Invalid && s.state != Dead
  }

  predicate Shape(b: Book) {
    && |b.slots| == |b.ticks| == |b.pending| == SLOTS
    && (forall id | id in b.cancelIds :: b.cancelIds[id] < SLOTS)
    && (forall id | id in b.newIds :: b.newIds[id] < SLOTS)
  }

  /** Raw price to ticks, with the division truncating and the result cut to 64 bits. */
  function ToTicks(price: int, scale: nat): nat
    requires scale > 0
  {
    Quotient(price, scale) % TWO_64
  }

  /** A price lies in its tick: at or above the tick's price and below the next one's. */
  lemma TickOfPrice(price: nat, scale: nat)
    requires scale > 0 && price < TWO_64
    ensures var t := ToTicks(price, scale); t * scale <= price < t * scale + scale
  {
    var q, r := Division(price, scale);
    MulAtLeast(scale, q);
    assert q < TWO_64;
  }

  // ----- searches -----

  function FindTick(ticks: seq<nat>, tick: nat, from: nat): (r: int)
    requires from <= |ticks|
    ensures r == -1 || from <= r < |ticks|
    decreases |ticks| - from
  {
    if from == |ticks| then -1 else if ticks[from] == tick then from else FindTick(ticks, tick, from + 1)
  }

  lemma {:induction false} FindTickIsFirst(ticks: seq<nat>, tick: nat, from: nat)
    requires from <= |ticks|
    ensures var r := FindTick(ticks, tick, from);
            && (r >= 0 ==> ticks[r] == tick)
            && (forall i | from <= i < (if r < 0 then |ticks| else r) :: ticks[i] != tick)
    decreases |ticks| - from
  {
    if from < |ticks| && ticks[from] != tick { FindTickIsFirst(ticks, tick, from + 1); }
  }

  function FindSlot(slots: seq<Slot>, id: nat, from: nat): (r: int)
    requires from <= |slots|
    ensures r == -1 || from <= r < |slots|
    decreases |slots| - from
  {
    if from == |slots| then -1 else if slots[from].id == id then from else FindSlot(slots, id, from + 1)
  }

  lemma {:induction false} FindSlotIsFirst(slots: seq<Slot>, id: nat, from: nat)
    requires from <= |slots|
    ensures var r := FindSlot(slots, id, from);
            && (r >= 0 ==> slots[r].id == id)
            && (forall i | from <= i < (if r < 0 then |slots| else r) :: slots[i].id != id)
    decreases |slots| - from
  {
    if from < |slots| && slots[from].id != id { FindSlotIsFirst(slots, id, from + 1); }
  }

  function FindById(b: Book, id: nat): int {
    if id == NO_ID then -1 else FindSlot(b.slots, id, 0)
  }

  function FindByTick(b: Book, tick: nat): int {
    FindTick(b.ticks, tick, 0)
  }

  predicate Free(b: Book, i: nat)
    requires Shape(b) && i < SLOTS
  {
    !Occupied(b.slots[i]) || b.ticks[i] == NO_TICK
  }

  function FindFree(b: Book, from: nat): (r: int)
    requires Shape(b) && from <= SLOTS
    ensures r == -1 || from <= r < SLOTS
    decreases SLOTS - from
  {
    if from == SLOTS then -1 else if Free(b, from) then from else FindFree(b, from + 1)
  }

  lemma {:induction false} FindFreeIsFirst(b: Book, from: nat)
    requires Shape(b) && from <= SLOTS
    ensures var r := FindFree(b, from);
            && (r >= 0 ==> Free(b, r))
            && (forall i | from <= i < (if r < 0 then SLOTS else r) :: !Free(b, i))
    decreases SLOTS - from
  {
    if from < SLOTS && !Free(b, from) { FindFreeIsFirst(b, from + 1); }
  }

  /** The least recently used layer, the first of them on a tie. */
  ghost predicate IsVictim(slots: seq<Slot>, v: nat) {
    && v < |slots|
    && (forall i | 0 <= i < |slots| :: slots[v].lastUsed <= slots[i].lastUsed)
    && (forall i | 0 <= i < v :: slots[v].lastUsed < slots[i].lastUsed)
  }

  function VictimUpTo(slots: seq<Slot>, n: nat): (v: nat)
    requires 1 <= n <= |slots|
    ensures v < n && IsVictim(slots[..n], v)
  {
    if n == 1 then 0
    else var v := VictimUpTo(slots, n - 1);
      if slots[n - 1].lastUsed < slots[v].lastUsed then n - 1 else v
  }

  function Victim(b: Book): (v: nat)
    requires Shape(b)
    ensures IsVictim(b.slots, v)
  {
    assert b.slots[..SLOTS] == b.slots;
    VictimUpTo(b.slots, SLOTS)
  }

  /** Where an order at `tick` goes, and whether it pushes out a live order. */
  datatype Assignment = Assignment(layer: Layer, evicts: bool)

  function PlanLayer(b: Book, tick: nat): (p: Assignment)
    requires Shape(b)
    ensures FindByTick(b, tick) == -1 || FindByTick(b, tick) == p.layer
    ensures p.evicts ==> b.slots[p.layer].state == Live
  {
    var known := FindByTick(b, tick);
    if known >= 0 then Assignment(known, false)
    else
      var free := FindFree(b, 0);
      if free >= 0 then Assignment(free, false)
      else Assignment(Victim(b), b.slots[Victim(b)].state == Live)
  }

  // ----- updates -----

  function WithSlot(b: Book, layer: nat, s: Slot): Book
    requires layer < |b.slots|
  {
    b.(slots := b.slots[layer := s])
  }

  function WithState(b: Book, layer: nat, state: State): Book
    requires layer < |b.slots|
  {
    WithSlot(b, layer, b.slots[layer].(state := state))
  }

  function Without(ids: map<nat, nat>, layer: nat): map<nat, nat> {
    map id | id in ids && ids[id] != layer :: ids[id]
  }

  /** The layer forgets its tick, its ids and the replace in flight. */
  function Unmapped(b: Book, layer: nat): Book
    requires Shape(b) && layer < SLOTS
  {
    b.(ticks := b.ticks[layer := NO_TICK], pending := b.pending[layer := None],
       newIds := Without(b.newIds, layer), cancelIds := Without(b.cancelIds, layer))
  }

  // ----- quantity held -----

  function SlotQty(s: Slot): int {
    if Occupied(s) then s.qty else 0
  }

  function Held(slots: seq<Slot>): int {
    if slots == [] then 0 else Held(slots[..|slots| - 1]) + SlotQty(slots[|slots| - 1])
  }

  lemma {:induction false} HeldUpdate(slots: seq<Slot>, i: nat, s: Slot)
    requires i < |slots|
    ensures Held(slots[i := s]) == Held(slots) - SlotQty(slots[i]) + SlotQty(s)
  {
    var n := |slots| - 1;
    if i == n {
      assert slots[i := s][..n] == slots[..n];
    } else {
      HeldUpdate(slots[..n], i, s);
      assert slots[i := s][..n] == slots[..n][i := s];
    }
  }

  predicate Whole(qty: int, increment: nat) {
    increment > 0 && qty >= 0 && qty % increment == 0
  }

  /**
   * Quantities are in whole increments, ids name occupied layers, and a replace in flight has set its layer's
   * quantity.
   */
  ghost predicate BookOk(b: Book, increment: nat) {
    && Shape(b) && increment > 0
    && (forall i | 0 <= i < SLOTS && Occupied(b.slots[i]) :: Whole(b.slots[i].qty, increment))
    && (forall id | id in b.cancelIds :: Occupied(b.slots[b.cancelIds[id]]))
    && (forall id | id in b.newIds :: Occupied(b.slots[b.newIds[id]]))
    && (forall i | 0 <= i < SLOTS && b.pending[i].Some? :: ReplaceOk(b, i, increment))
  }

  ghost predicate ReplaceOk(b: Book, i: nat, increment: nat)
    requires Shape(b) && increment > 0 && i < SLOTS && b.pending[i].Some?
  {
    var p := b.pending[i].value;
    Occupied(b.slots[i]) && b.slots[i].qty == p.newQty && Whole(p.lastQty, increment)
  }

  /**
   * Replacing an occupied slot by another of the same quantity, or of any whole quantity when no replace is in
   * flight.
   */
  lemma SlotKeepsOk(b: Book, layer: nat, s: Slot, increment: nat)
    requires BookOk(b, increment) && layer < SLOTS && Occupied(s) && Whole(s.qty, increment)
    requires b.pending[layer].Some? ==> s.qty == b.slots[layer].qty
    ensures BookOk(WithSlot(b, layer, s), increment)
    ensures Held(WithSlot(b, layer, s).slots) == Held(b.slots) - SlotQty(b.slots[layer]) + s.qty
  {
    HeldUpdate(b.slots, layer, s);
    var b' := WithSlot(b, layer, s);
    forall i | 0 <= i < SLOTS && b'.pending[i].Some? ensures ReplaceOk(b', i, increment) {
      assert ReplaceOk(b, i, increment);
    }
  }

  /** A layer that dies takes its whole quantity with it. */
  lemma DeathKeepsOk(b: Book, layer: nat, s: Slot, increment: nat)
    requires BookOk(b, increment) && layer < SLOTS && !Occupied(s)
    ensures BookOk(Unmapped(WithSlot(b, layer, s), layer), increment)
    ensures Held(Unmapped(WithSlot(b, layer, s), layer).slots) == Held(b.slots) - SlotQty(b.slots[layer])
  {
    HeldUpdate(b.slots, layer, s);
    var b' := Unmapped(WithSlot(b, layer, s), layer);
    forall i | 0 <= i < SLOTS && b'.pending[i].Some? ensures ReplaceOk(b', i, increment) {
      assert ReplaceOk(b, i, increment);
    }
  }

  // ----- the side book as the program keeps it -----

  method EraseLayer(ids: map<nat, nat>, layer: nat) returns (left: map<nat, nat>)
    ensures left == Without(ids, layer)
  {
    left := ids;
    var todo := ids.Keys;
    while todo != {}
      invariant todo <= ids.Keys
      invariant left == map id | id in ids && (id in todo || ids[id] != layer) :: ids[id]
      decreases |todo|
    {
      var id :| id in todo;
      todo := todo - {id};
      if ids[id] == layer {
        left := left - {id};
      }
    }
  }

  class SideBook {
    var slots: seq<Slot>
    var ticks: seq<nat>
    var pending: seq<Optional<Replace>>
    var cancelIds: map<nat, nat>
    var newIds: map<nat, nat>

    ghost function Contents(): Book
      reads this
    {
      Book(slots, ticks, pending, cancelIds, newIds)
    }

    ghost predicate Valid()
      reads this
    {
      Shape(Contents())
    }

    constructor ()
      ensures Valid() && Contents() == EmptyBook()
    {
      slots := seq(SLOTS, _ => Slot(Invalid, UNSET, UNSET, 0, NO_ID));
      ticks := seq(SLOTS, _ => NO_TICK);
      pending := seq(SLOTS, _ => None);
      cancelIds, newIds := map[], map[];
    }

    method FindLayerByTicks(tick: nat) returns (layer: int)
      requires Valid()
      ensures layer == FindByTick(Contents(), tick)
    {
      for i := 0 to SLOTS
        invariant FindByTick(Contents(), tick) == FindTick(ticks, tick, i)
      {
        if ticks[i] == tick {
          return i;
        }
      }
      return -1;
    }

    method FindLayerById(id: nat) returns (layer: int)
      requires Valid()
      ensures layer == FindById(Contents(), id)
    {
      if id == NO_ID {
        return -1;
      }
      for i := 0 to SLOTS
        invariant FindById(Contents(), id) == FindSlot(slots, id, i)
      {
        if slots[i].id == id {
          return i;
        }
      }
      return -1;
    }

    method FindFreeLayer() returns (layer: int)
      requires Valid()
      ensures layer == FindFree(Contents(), 0)
    {
      for i := 0 to SLOTS
        invariant FindFree(Contents(), 0) == FindFree(Contents(), i)
      {
        if slots[i].state == Invalid || slots[i].state == Dead {
          return i;
        }
        if ticks[i] == NO_TICK {
          return i;
        }
      }
      return -1;
    }

    method PickVictimLayer() returns (victim: nat)
      requires Valid()
      ensures victim == Victim(Contents())
    {
      victim := 0;
      for i := 1 to SLOTS
        invariant victim == VictimUpTo(slots, i)
      {
        if slots[i].lastUsed < slots[victim].lastUsed {
          victim := i;
        }
      }
    }

    method PlanFor(tick: nat) returns (plan: Assignment)
      requires Valid()
      ensures plan == PlanLayer(Contents(), tick)
    {
      var layer := FindLayerByTicks(tick);
      if layer >= 0 {
        return Assignment(layer, false);
      }
      layer := FindFreeLayer();
      if layer >= 0 {
        return Assignment(layer, false);
      }
      var victim := PickVictimLayer();
      return Assignment(victim, slots[victim].state == Live);
    }

    method UnmapLayer(layer: nat)
      requires Valid() && layer < SLOTS
      modifies this
      ensures Valid() && Contents() == old(Unmapped(Contents(), layer))
    {
      ticks := ticks[layer := NO_TICK];
      newIds := EraseLayer(newIds, layer);
      cancelIds := EraseLayer(cancelIds, layer);
      pending := pending[layer := None];
    }
  }

  function EmptyBook(): Book {
    Book(seq(SLOTS, _ => Slot(Invalid, UNSET, UNSET, 0, NO_ID)), seq(SLOTS, _ => NO_TICK), seq(SLOTS, _ => None),
         map[], map[])
  }
}

/**
 * The lock-free object pool as atomic steps of any number of threads: a Treiber stack of free
 * slots whose head carries a tag, and an alive flag per slot.
 */
module MemoryPool {
  import opened Bits
  import opened Arith

  const INVALID_INDEX := 0xFFFF_FFFF

  // ----- the packed head -----

  /** `StackHead`: two 32-bit fields. */
  datatype StackHead = StackHead(index: nat, counter: nat)

  ghost predicate Fits(h: StackHead) {
    h.index < TWO_32 && h.counter < TWO_32
  }

  /** `pack`: the counter shifted into the high half, or-ed with the index. */
  function Pack(h: StackHead): nat {
    Or(h.counter * TWO_32, h.index)
  }

  /** `unpack`: the low half by mask, the high half by shift. */
  function Unpack(raw: nat): StackHead {
    StackHead(And(raw, TWO_32 - 1), raw / TWO_32)
  }

  /** Packing loses nothing, so comparing packed words compares heads. */
  lemma PackRoundTrip(h: StackHead)
    requires Fits(h)
    ensures Unpack(Pack(h)) == h && Pack(h) < TWO_64
  {
    Pow2Of64();
    OrDisjoint(h.counter, h.index, 32);
    AndMask(Pack(h), 32, TWO_32);
    DivUnique(Pack(h), TWO_32, h.counter, h.index);
  }

  lemma PackInjective(h: StackHead, g: StackHead)
    requires Fits(h) && Fits(g)
    ensures Pack(h) == Pack(g) <==> h == g
  {
    PackRoundTrip(h);
    PackRoundTrip(g);
  }

  // ----- states and steps -----

  /** The head with its update count before truncation; the machine word holds `version % 2^32`. */
  datatype Head = Head(index: nat, version: nat)

  function Word(h: Head): StackHead {
    StackHead(h.index, h.version % TWO_32)
  }

  /** Where a thread stands inside `allocate` or `deallocate`. */
  datatype Pc =
    | Idle
    | PopLoaded(old_: Head)
    | PopRead(old_: Head, succ: nat)
    | Constructing(slot: nat)
    | Returning(slot: nat)
    | PushLoaded(slot: nat, old_: Head)
    | PushLinked(slot: nat, old_: Head)

  datatype Pool = Pool(head: Head, next: seq<nat>, alive: seq<bool>, threads: seq<Pc>)

  datatype Action =
    | Load                  // allocate: read the head, or give up on an empty stack
    | ReadNext              // allocate: read the head slot's successor
    | PopCas(weak: bool)    // allocate: swing the head; a weak exchange may fail for no reason
    | Publish               // allocate: construct and raise the alive flag
    | Free(slot: nat)       // deallocate: the exchange on the alive flag
    | PushLoad              // deallocate: read the head
    | Link                  // deallocate: write the slot's successor
    | PushCas(weak: bool)   // deallocate: swing the head

  predicate Enabled(s: Pool, t: nat, a: Action) {
    && t < |s.threads|
    && match a
       case Load => s.threads[t].Idle?
       case ReadNext => s.threads[t].PopLoaded? && s.threads[t].old_.index < |s.next|
       case PopCas(_) => s.threads[t].PopRead?
       case Publish => s.threads[t].Constructing? && s.threads[t].slot < |s.alive|
       case Free(slot) => s.threads[t].Idle?
       case PushLoad => s.threads[t].Returning?
       case Link => s.threads[t].PushLoaded? && s.threads[t].slot < |s.next|
       case PushCas(_) => s.threads[t].PushLinked?
  }

  /** The exchange on the packed head succeeds. */
  predicate Swings(s: Pool, old_: Head, weak: bool) {
    !weak && Pack(Word(s.head)) == Pack(Word(old_))
  }

  function Step(s: Pool, t: nat, a: Action): Pool
    requires Enabled(s, t, a)
  {
    var pc := s.threads[t];
    match a
    case Load =>
      if s.head.index == INVALID_INDEX then s
      else s.(threads := s.threads[t := PopLoaded(s.head)])
    case ReadNext =>
      s.(threads := s.threads[t := PopRead(pc.old_, s.next[pc.old_.index])])
    case PopCas(weak) =>
      if Swings(s, pc.old_, weak) then
        s.(head := Head(pc.succ, s.head.version + 1), threads := s.threads[t := Constructing(pc.old_.index)])
      else s.(threads := s.threads[t := Idle])
    case Publish =>
      s.(alive := s.alive[pc.slot := true], threads := s.threads[t := Idle])
    case Free(slot) =>
      if slot < |s.alive| && s.alive[slot] then
        s.(alive := s.alive[slot := false], threads := s.threads[t := Returning(slot)])
      else s
    case PushLoad =>
      s.(threads := s.threads[t := PushLoaded(pc.slot, s.head)])
    case Link =>
      s.(next := s.next[pc.slot := pc.old_.index], threads := s.threads[t := PushLinked(pc.slot, pc.old_)])
    case PushCas(weak) =>
      if Swings(s, pc.old_, weak) then
        s.(head := Head(pc.slot, s.head.version + 1), threads := s.threads[t := Idle])
      else s.(threads := s.threads[t := Returning(pc.slot)])
  }

  /** The constructor, with `threads` idle threads about to use the pool. */
  function Init(n: nat, threads: nat): Pool {
    Pool(Head(0, 0), seq(n, i => if i == n - 1 then INVALID_INDEX else i + 1), seq(n, i => false), seq(threads, i => Idle))
  }

  // ----- ownership -----

  /** The slot a thread has taken off the stack or out of use and has not put back yet, or -1. */
  function Held(pc: Pc): int {
    match pc
    case Constructing(i) => i
    case Returning(i) => i
    case PushLoaded(i, _) => i
    case PushLinked(i, _) => i
    case _ => -1
  }

  /** `list` is the chain of slots from the head, each one once. */
  ghost predicate FreeList(s: Pool, list: seq<nat>) {
    && (forall i | 0 <= i < |list| :: list[i] < |s.next|)
    && (forall i, j | 0 <= i < j < |list| :: list[i] != list[j])
    && s.head.index == (if list == [] then INVALID_INDEX else list[0])
    && forall i | 0 <= i < |list| :: s.next[list[i]] == After(list, i)
  }

  /** The slot after position `i`, or the end mark. */
  function After(list: seq<nat>, i: nat): nat {
    if i + 1 < |list| then list[i + 1] else INVALID_INDEX
  }

  /** Every slot is free, alive or held by a thread, and never two of these or two threads at once. */
  ghost predicate Partition(s: Pool, list: seq<nat>) {
    && |s.alive| == |s.next| < INVALID_INDEX
    && (forall i | 0 <= i < |list| && list[i] < |s.alive| :: !s.alive[list[i]])
    && (forall t | 0 <= t < |s.threads| :: HeldOk(s, list, Held(s.threads[t])))
    && (forall t, u | 0 <= t < u < |s.threads| && Held(s.threads[t]) >= 0 :: Held(s.threads[t]) != Held(s.threads[u]))
    && (forall i: nat | i < |s.next| :: i in list || s.alive[i] || IsHeld(s, i))
  }

  ghost predicate HeldOk(s: Pool, list: seq<nat>, i: int) {
    i == -1 || (0 <= i < |s.alive| && i !in list && !s.alive[i])
  }

  ghost predicate IsHeld(s: Pool, i: int) {
    exists t :: 0 <= t < |s.threads| && Held(s.threads[t]) == i
  }

  /** What a thread's copies of the head are worth: everything if the head has not moved since. */
  ghost predicate CopyOk(s: Pool, pc: Pc) {
    match pc
    case PopLoaded(h) => CurrentIfUnmoved(s, h) && h.index < |s.next|
    case PopRead(h, succ) =>
      CurrentIfUnmoved(s, h) && h.index < |s.next| && (h.version == s.head.version ==> succ == s.next[h.index])
    case PushLoaded(_, h) => CurrentIfUnmoved(s, h)
    case PushLinked(i, h) => CurrentIfUnmoved(s, h) && i < |s.next| && s.next[i] == h.index
    case _ => true
  }

  ghost predicate CurrentIfUnmoved(s: Pool, h: Head) {
    h.index < TWO_32 && h.version <= s.head.version && (h.version == s.head.version ==> h.index == s.head.index)
  }

  ghost predicate Copies(s: Pool) {
    forall t | 0 <= t < |s.threads| :: CopyOk(s, s.threads[t])
  }

  ghost predicate Inv(s: Pool) {
    Copies(s) && exists list :: FreeList(s, list) && Partition(s, list)
  }

  /** Fewer than 2^32 updates of the head lie between a thread's load and its pop exchange. */
  ghost predicate InWindow(s: Pool, t: nat, a: Action) {
    a.PopCas? && t < |s.threads| && s.threads[t].PopRead? ==> s.head.version - s.threads[t].old_.version < TWO_32
  }

  /** Inside the window, equal tags mean an unmoved head. */
  lemma TagsDecide(s: Pool, h: Head)
    requires h.version <= s.head.version && s.head.version - h.version < TWO_32
    requires Word(s.head) == Word(h)
    ensures s.head == h
  {}

  /** An exchange that goes through has compared both index and tag. */
  lemma SwingCompares(s: Pool, h: Head, weak: bool)
    requires s.head.index < TWO_32 && h.index < TWO_32 && Swings(s, h, weak)
    ensures Word(s.head) == Word(h) && s.head.index == h.index
  {
    PackInjective(Word(s.head), Word(h));
  }

  // ----- each step keeps the invariant -----

  lemma InitChain(n: nat, threads: nat, list: seq<nat>)
    requires 1 <= n < INVALID_INDEX && |list| == n && forall i | 0 <= i < n :: list[i] == i
    ensures FreeList(Init(n, threads), list) && Partition(Init(n, threads), list)
  {
    forall i: nat | i < n ensures i in list { assert list[i] == i; }
  }

  /** A pool of at least one slot starts with every slot on the stack, in order. */
  lemma InitInv(n: nat, threads: nat)
    requires 1 <= n < INVALID_INDEX
    ensures Inv(Init(n, threads))
  {
    InitChain(n, threads, seq(n, i => i));
  }

  lemma HeadInRange(s: Pool, list: seq<nat>)
    requires FreeList(s, list) && s.head.index != INVALID_INDEX
    ensures list != [] && s.head.index < |s.next|
  {}

  lemma ListedNotAlive(s: Pool, list: seq<nat>, i: nat)
    requires Partition(s, list) && i in list && i < |s.alive|
    ensures !s.alive[i]
  {
    var k :| 0 <= k < |list| && list[k] == i;
  }

  /** A pool of no slots does not: its head points at a slot that is not there. */
  lemma EmptyPoolBroken(threads: nat)
    ensures !Inv(Init(0, threads))
  {
    forall list | FreeList(Init(0, threads), list) ensures false {
      HeadInRange(Init(0, threads), list);
    }
  }

  /** `s'` differs from `s` in thread `t` alone, among the threads. */
  ghost predicate OnlyThread(s: Pool, s': Pool, t: nat) {
    && t < |s.threads| == |s'.threads|
    && forall u | 0 <= u < |s.threads| && u != t :: s'.threads[u] == s.threads[u]
  }

  /** A slot another thread holds is still held by it. */
  lemma StillHeld(s: Pool, s': Pool, t: nat, i: nat)
    requires OnlyThread(s, s', t) && IsHeld(s, i) && Held(s.threads[t]) != i
    ensures IsHeld(s', i)
  {
    var u :| 0 <= u < |s.threads| && Held(s.threads[u]) == i;
    assert s'.threads[u] == s.threads[u];
  }

  predicate OnePlace(free: bool, alive: bool, held: bool) {
    (free && !alive && !held) || (!free && alive && !held) || (!free && !alive && held)
  }

  /**
   * The bookkeeping behind every step: slot `x` may change hands between thread `t`, the list
   * and the alive flags, and all other slots stay where they are.
   */
  lemma Rebalance(s: Pool, s': Pool, t: nat, list: seq<nat>, list': seq<nat>, x: int)
    requires Partition(s, list) && OnlyThread(s, s', t)
    requires |s'.next| == |s.next| && |s'.alive| == |s.alive| && -1 <= x < |s.next|
    requires forall i | 0 <= i < |s.alive| && i != x :: s'.alive[i] == s.alive[i]
    requires forall i: nat | i != x :: i in list' <==> i in list
    requires Held(s.threads[t]) in {-1, x} && Held(s'.threads[t]) in {-1, x}
    requires x >= 0 ==> x in list || s.alive[x] || Held(s.threads[t]) == x
    requires x >= 0 ==> OnePlace(x in list', s'.alive[x], Held(s'.threads[t]) == x)
    ensures Partition(s', list')
  {
    forall u | 0 <= u < |s.threads| ensures HeldOk(s', list', Held(s'.threads[u])) {
      if u != t { NotTheirs(s, t, list, x, u); }
    }
    forall u, v | 0 <= u < v < |s'.threads| && Held(s'.threads[u]) >= 0
      ensures Held(s'.threads[u]) != Held(s'.threads[v])
    {
      if u != t { NotTheirs(s, t, list, x, u); }
      if v != t { NotTheirs(s, t, list, x, v); }
    }
    forall i: nat | i < |s.next| ensures i in list' || s'.alive[i] || IsHeld(s', i) {
      if i == x {
        if Held(s'.threads[t]) == x { assert IsHeld(s', i); }
      } else if i !in list && !s.alive[i] {
        StillHeld(s, s', t, i);
      }
    }
    forall i | 0 <= i < |list'| && list'[i] < |s'.alive| ensures !s'.alive[list'[i]] {
      var y := list'[i];
      assert y in list';
      if y != x {
        assert y in list;
        var k :| 0 <= k < |list| && list[k] == y;
      }
    }
  }

  /** No other thread holds the slot that changes hands. */
  lemma NotTheirs(s: Pool, t: nat, list: seq<nat>, x: int, u: nat)
    requires Partition(s, list) && t < |s.threads| && u < |s.threads| && u != t
    requires x >= 0 ==> x < |s.alive| && (x in list || s.alive[x] || Held(s.threads[t]) == x)
    ensures Held(s.threads[u]) == -1 || Held(s.threads[u]) != x
    ensures HeldOk(s, list, Held(s.threads[u]))
  {
    assert HeldOk(s, list, Held(s.threads[u]));
  }

  /** The copies of the other threads do not depend on this thread's state. */
  lemma CopiesUpdated(s: Pool, t: nat, pc: Pc)
    requires t < |s.threads| && Copies(s) && CopyOk(s, pc)
    ensures Copies(s.(threads := s.threads[t := pc]))
  {
    var s' := s.(threads := s.threads[t := pc]);
    forall u | 0 <= u < |s'.threads| ensures CopyOk(s', s'.threads[u]) {
      assert CopyOk(s, if u == t then pc else s.threads[u]);
    }
  }

  /** Moving the head makes every copy an old one. */
  lemma CopiesAfterMove(s: Pool, t: nat, pc: Pc, index: nat)
    requires t < |s.threads| && Copies(s) && (pc.Idle? || pc.Constructing?)
    ensures Copies(s.(head := Head(index, s.head.version + 1), threads := s.threads[t := pc]))
  {
    var s' := s.(head := Head(index, s.head.version + 1), threads := s.threads[t := pc]);
    forall u | 0 <= u < |s'.threads| ensures CopyOk(s', s'.threads[u]) {
      assert CopyOk(s, s.threads[u]);
    }
  }

  lemma Tail(list: seq<nat>)
    requires list != [] && forall i, j | 0 <= i < j < |list| :: list[i] != list[j]
    ensures list[0] !in list[1..]
    ensures forall i :: i in list <==> i == list[0] || i in list[1..]
  {}

  lemma PopChain(s: Pool, s': Pool, list: seq<nat>)
    requires FreeList(s, list) && list != [] && s'.next == s.next && s'.head.index == s.next[list[0]]
    ensures FreeList(s', list[1..])
  {
    var rest := list[1..];
    assert s.next[list[0]] == After(list, 0);
    forall i | 0 <= i < |rest| ensures rest[i] < |s'.next| && s'.next[rest[i]] == After(rest, i) {
      assert rest[i] == list[i + 1] && s.next[list[i + 1]] == After(list, i + 1);
    }
  }

  lemma PushChain(s: Pool, s': Pool, x: nat, list: seq<nat>)
    requires FreeList(s, list) && x < |s.next| && x !in list
    requires s'.next == s.next && s'.head.index == x && s.next[x] == s.head.index
    ensures FreeList(s', [x] + list)
  {
    var all := [x] + list;
    forall i, j | 0 <= i < j < |all| ensures all[i] != all[j] {
      if i == 0 { assert all[j] in list; } else { assert list[i - 1] != list[j - 1]; }
    }
    forall i | 0 <= i < |all| ensures all[i] < |s'.next| && s'.next[all[i]] == After(all, i) {
      if i > 0 { assert all[i] == list[i - 1] && s.next[list[i - 1]] == After(list, i - 1); }
    }
  }

  /** A pop exchange takes the first slot off the list and hands it to the thread. */
  lemma PopMoves(s: Pool, s': Pool, t: nat, list: seq<nat>)
    requires t < |s.threads| && s.threads[t].PopRead? && FreeList(s, list) && Partition(s, list)
    requires s.head.index < |s.next| && s.threads[t].succ == s.next[s.head.index]
    requires s' == s.(head := Head(s.threads[t].succ, s.head.version + 1),
                      threads := s.threads[t := Constructing(s.head.index)])
    ensures list != [] && s.head.index == list[0]
    ensures FreeList(s', list[1..]) && Partition(s', list[1..])
  {
    HeadInRange(s, list);
    PopChain(s, s', list);
    Tail(list);
    ListedNotAlive(s, list, list[0]);
    Rebalance(s, s', t, list, list[1..], list[0]);
  }

  /** A push exchange puts the thread's slot in front of the list: the slot links to the index the exchange compared. */
  lemma PushMoves(s: Pool, s': Pool, t: nat, list: seq<nat>)
    requires t < |s.threads| && s.threads[t].PushLinked? && FreeList(s, list) && Partition(s, list)
    requires s.head.index == s.threads[t].old_.index && CopyOk(s, s.threads[t])
    requires s' == s.(head := Head(s.threads[t].slot, s.head.version + 1), threads := s.threads[t := Idle])
    ensures FreeList(s', [s.threads[t].slot] + list) && Partition(s', [s.threads[t].slot] + list)
  {
    var x := s.threads[t].slot;
    assert HeldOk(s, list, Held(s.threads[t]));
    PushChain(s, s', x, list);
    assert forall i: nat | i != x :: i in [x] + list <==> i in list;
    Rebalance(s, s', t, list, [x] + list, x);
  }

  /** Linking writes the successor of a slot that only this thread holds. */
  lemma LinkMoves(s: Pool, s': Pool, t: nat, list: seq<nat>)
    requires t < |s.threads| && s.threads[t].PushLoaded? && FreeList(s, list) && Partition(s, list) && Copies(s)
    requires s.threads[t].slot < |s.next|
    requires s' == s.(next := s.next[s.threads[t].slot := s.threads[t].old_.index],
                      threads := s.threads[t := PushLinked(s.threads[t].slot, s.threads[t].old_)])
    ensures FreeList(s', list) && Partition(s', list) && Copies(s')
  {
    var x := s.threads[t].slot;
    assert HeldOk(s, list, Held(s.threads[t]));
    forall i | 0 <= i < |list| ensures list[i] != x { assert list[i] in list; }
    Rebalance(s, s', t, list, list, x);
    forall u | 0 <= u < |s'.threads| ensures CopyOk(s', s'.threads[u]) {
      assert CopyOk(s, s.threads[u]);
      if u != t {
        match s.threads[u]
        case PopRead(g, succ) =>
          if g.version == s.head.version { assert list != [] && g.index == list[0]; }
        case PushLinked(i, g) =>
          NotTheirs(s, t, list, x, u);
        case _ =>
      }
    }
  }

  /** The step is no pop exchange that goes through, or the successor it installs is the head slot's current one. */
  ghost predicate PopsCurrent(s: Pool, t: nat, a: Action)
    requires Enabled(s, t, a)
  {
    a.PopCas? && Swings(s, s.threads[t].old_, a.weak) ==>
      s.head.index < |s.next| && s.threads[t].succ == s.next[s.head.index]
  }

  lemma HeadFits(s: Pool, list: seq<nat>)
    requires FreeList(s, list) && Partition(s, list)
    ensures s.head.index < TWO_32
  {
    if list != [] { assert list[0] < |s.next|; }
  }

  /** A pop exchange that installs the current successor keeps the invariant, however old the thread's copy is. */
  lemma PopInv(s: Pool, t: nat, weak: bool, list: seq<nat>)
    requires FreeList(s, list) && Partition(s, list) && Copies(s) && Enabled(s, t, PopCas(weak))
    requires PopsCurrent(s, t, PopCas(weak))
    ensures Inv(Step(s, t, PopCas(weak)))
  {
    var pc := s.threads[t];
    assert CopyOk(s, pc);
    if Swings(s, pc.old_, weak) {
      HeadFits(s, list);
      SwingCompares(s, pc.old_, weak);
      PopMoves(s, Step(s, t, PopCas(weak)), t, list);
      CopiesAfterMove(s, t, Constructing(pc.old_.index), pc.succ);
    } else {
      Quiet(s, t, Idle, list);
    }
  }

  /** A push exchange keeps the invariant, however old the thread's copy is. */
  lemma PushInv(s: Pool, t: nat, weak: bool, list: seq<nat>)
    requires FreeList(s, list) && Partition(s, list) && Copies(s) && Enabled(s, t, PushCas(weak))
    ensures Inv(Step(s, t, PushCas(weak)))
  {
    var pc := s.threads[t];
    assert CopyOk(s, pc);
    if Swings(s, pc.old_, weak) {
      HeadFits(s, list);
      SwingCompares(s, pc.old_, weak);
      PushMoves(s, Step(s, t, PushCas(weak)), t, list);
      CopiesAfterMove(s, t, Idle, pc.slot);
    } else {
      Quiet(s, t, Returning(pc.slot), list);
    }
  }

  lemma FlagInv(s: Pool, t: nat, a: Action, list: seq<nat>)
    requires FreeList(s, list) && Partition(s, list) && Copies(s) && Enabled(s, t, a) && (a.Publish? || a.Free?)
    ensures Inv(Step(s, t, a))
  {
    var s' := Step(s, t, a);
    if s' != s {
      var x := if a.Publish? then s.threads[t].slot else a.slot;
      assert HeldOk(s, list, Held(s.threads[t]));
      if x in list { ListedNotAlive(s, list, x); }
      Rebalance(s, s', t, list, list, x);
      FlagsKeepCopies(s, s', t);
      assert FreeList(s', list);
    }
  }

  lemma StepKeeps(s: Pool, t: nat, a: Action)
    requires Inv(s) && Enabled(s, t, a) && PopsCurrent(s, t, a)
    ensures Inv(Step(s, t, a))
  {
    var list :| FreeList(s, list) && Partition(s, list);
    var pc := s.threads[t];
    assert CopyOk(s, pc);
    HeadFits(s, list);
    match a
    case Load =>
      if s.head.index != INVALID_INDEX { Quiet(s, t, PopLoaded(s.head), list); }
    case ReadNext =>
      Quiet(s, t, PopRead(pc.old_, s.next[pc.old_.index]), list);
    case PopCas(weak) => PopInv(s, t, weak, list);
    case Publish => FlagInv(s, t, a, list);
    case Free(_) => FlagInv(s, t, a, list);
    case PushLoad => Quiet(s, t, PushLoaded(pc.slot, s.head), list);
    case Link => LinkMoves(s, Step(s, t, a), t, list);
    case PushCas(weak) => PushInv(s, t, weak, list);
  }

  // ----- a pop that installs anything else breaks the list -----

  ghost predicate Chained(next: seq<nat>, list: seq<nat>) {
    && (forall i | 0 <= i < |list| :: list[i] < |next|)
    && forall i | 0 <= i < |list| :: next[list[i]] == After(list, i)
  }

  /** Two chains over the same links that meet run together to their end. */
  lemma {:induction false} ChainsMeet(next: seq<nat>, list: seq<nat>, list': seq<nat>, k: nat, j: nat)
    requires Chained(next, list) && Chained(next, list') && |next| < INVALID_INDEX
    requires k < |list| && list' != [] && list'[0] == list[k] && j < |list'|
    ensures k + j < |list| && list'[j] == list[k + j]
  {
    if j > 0 {
      ChainsMeet(next, list, list', k, j - 1);
      assert next[list'[j - 1]] == After(list', j - 1);
      assert next[list[k + j - 1]] == After(list, k + j - 1);
      assert list'[j] < |next|;
    }
  }

  /** Popping slot `x` leaves the other free slots free and makes no slot free. */
  lemma FreeAfterPop(s: Pool, s': Pool, t: nat, list: seq<nat>, list': seq<nat>, x: nat, y: nat)
    requires Partition(s, list) && Partition(s', list') && OnlyThread(s, s', t)
    requires s'.next == s.next && s'.alive == s.alive && x < |s.next| && y < |s.next| && x in list
    requires Held(s.threads[t]) == -1 && Held(s'.threads[t]) == x
    ensures y in list' <==> y in list && y != x
  {
    OnePlaceIn(s, list, y);
    OnePlaceIn(s', list', y);
    assert IsHeld(s', x);
    if y != x {
      if IsHeld(s, y) { StillHeld(s, s', t, y); }
      if IsHeld(s', y) { StillHeld(s', s, t, y); }
    }
  }

  lemma OnePlaceIn(s: Pool, list: seq<nat>, i: nat)
    requires Partition(s, list) && i < |s.next|
    ensures OnePlace(i in list, s.alive[i], IsHeld(s, i))
  {
    if i in list { var k :| 0 <= k < |list| && list[k] == i; }
    if IsHeld(s, i) {
      var u :| 0 <= u < |s.threads| && Held(s.threads[u]) == i;
      assert HeldOk(s, list, Held(s.threads[u]));
    }
  }

  /** A chain inside the rest of another that holds its second slot starts there. */
  lemma RestMeets(next: seq<nat>, list: seq<nat>, list': seq<nat>)
    requires Chained(next, list) && Chained(next, list') && |next| < INVALID_INDEX
    requires forall i, j | 0 <= i < j < |list| :: list[i] != list[j]
    requires |list| > 1 && list' != [] && list'[0] in list && list'[0] != list[0] && list[1] in list'
    ensures list'[0] == list[1]
  {
    var k :| 0 <= k < |list| && list[k] == list'[0];
    var j :| 0 <= j < |list'| && list'[j] == list[1];
    ChainsMeet(next, list, list', k, j);
  }

  /** If the list is whole after the first slot is popped, the new head is the popped slot's successor. */
  lemma WholeAfterPop(s: Pool, s': Pool, t: nat, list: seq<nat>, list': seq<nat>)
    requires FreeList(s, list) && Partition(s, list) && FreeList(s', list') && Partition(s', list')
    requires OnlyThread(s, s', t) && s'.next == s.next && s'.alive == s.alive && list != []
    requires Held(s.threads[t]) == -1 && Held(s'.threads[t]) == list[0]
    ensures s'.head.index == After(list, 0)
  {
    var x := list[0];
    assert x in list;
    if list' != [] {
      assert list'[0] in list';
      FreeAfterPop(s, s', t, list, list', x, list'[0]);
      assert |list| > 1 && list[1] in list;
      FreeAfterPop(s, s', t, list, list', x, list[1]);
      RestMeets(s.next, list, list');
    } else if |list| > 1 {
      assert list[1] in list;
      FreeAfterPop(s, s', t, list, list', x, list[1]);
    }
  }

  /** The pop exchange that goes through keeps the invariant only by installing the current successor. */
  lemma KeptMeansCurrent(s: Pool, t: nat, weak: bool)
    requires Inv(s) && Enabled(s, t, PopCas(weak)) && Inv(Step(s, t, PopCas(weak)))
    ensures PopsCurrent(s, t, PopCas(weak))
  {
    var pc, s' := s.threads[t], Step(s, t, PopCas(weak));
    var list :| FreeList(s, list) && Partition(s, list);
    assert CopyOk(s, pc);
    if Swings(s, pc.old_, weak) {
      HeadFits(s, list);
      SwingCompares(s, pc.old_, weak);
      HeadInRange(s, list);
      assert s.next[list[0]] == After(list, 0);
      var list' :| FreeList(s', list') && Partition(s', list');
      WholeAfterPop(s, s', t, list, list');
    }
  }

  /** A step keeps the invariant exactly when it is no pop exchange that installs a successor out of date. */
  lemma StepInvIff(s: Pool, t: nat, a: Action)
    requires Inv(s) && Enabled(s, t, a)
    ensures Inv(Step(s, t, a)) <==> PopsCurrent(s, t, a)
  {
    if PopsCurrent(s, t, a) {
      StepKeeps(s, t, a);
    } else {
      if Inv(Step(s, t, a)) { KeptMeansCurrent(s, t, a.weak); }
    }
  }

  /** Inside the window a pop exchange that goes through always installs the current successor. */
  lemma WindowPopsCurrent(s: Pool, t: nat, a: Action)
    requires Inv(s) && Enabled(s, t, a) && InWindow(s, t, a)
    ensures PopsCurrent(s, t, a)
  {
    var list :| FreeList(s, list) && Partition(s, list);
    assert CopyOk(s, s.threads[t]);
    HeadFits(s, list);
    if a.PopCas? && Swings(s, s.threads[t].old_, a.weak) {
      SwingCompares(s, s.threads[t].old_, a.weak);
      TagsDecide(s, s.threads[t].old_);
    }
  }

  /** Every step keeps the invariant as long as pop exchanges stay inside the window. */
  lemma StepInv(s: Pool, t: nat, a: Action)
    requires Inv(s) && Enabled(s, t, a) && InWindow(s, t, a)
    ensures Inv(Step(s, t, a))
  {
    WindowPopsCurrent(s, t, a);
    StepKeeps(s, t, a);
  }

  /** A step that changes only what the thread remembers. */
  lemma Quiet(s: Pool, t: nat, pc: Pc, list: seq<nat>)
    requires t < |s.threads| && FreeList(s, list) && Partition(s, list) && Copies(s)
    requires Held(pc) == Held(s.threads[t]) && CopyOk(s, pc)
    ensures Inv(s.(threads := s.threads[t := pc]))
  {
    var s' := s.(threads := s.threads[t := pc]);
    assert HeldOk(s, list, Held(s.threads[t]));
    Rebalance(s, s', t, list, list, Held(pc));
    CopiesUpdated(s, t, pc);
    assert FreeList(s', list);
  }

  lemma FlagsKeepCopies(s: Pool, s': Pool, t: nat)
    requires Copies(s) && OnlyThread(s, s', t) && s'.head == s.head && s'.next == s.next
    requires s'.threads[t].Idle? || s'.threads[t].Returning?
    ensures Copies(s')
  {
    forall u | 0 <= u < |s'.threads| ensures CopyOk(s', s'.threads[u]) {
      if u != t { assert CopyOk(s, s.threads[u]); }
    }
  }

  // ----- runs -----

  /** Some thread takes some enabled step. */
  ghost predicate Stepped(s: Pool, s': Pool, step: (nat, Action)) {
    Enabled(s, step.0, step.1) && s' == Step(s, step.0, step.1)
  }

  /** Any interleaving of the threads' steps. */
  ghost predicate Run(states: seq<Pool>, steps: seq<(nat, Action)>) {
    && |states| == |steps| + 1
    && forall k | 0 <= k < |steps| :: Stepped(states[k], states[k + 1], steps[k])
  }

  ghost predicate StepCurrent(s: Pool, step: (nat, Action)) {
    Enabled(s, step.0, step.1) && PopsCurrent(s, step.0, step.1)
  }

  /** The first `k` steps are all current. */
  ghost predicate CurrentUpTo(states: seq<Pool>, steps: seq<(nat, Action)>, k: nat)
    requires Run(states, steps) && k <= |steps|
  {
    forall j | 0 <= j < k :: StepCurrent(states[j], steps[j])
  }

  lemma SteppedIff(s: Pool, s': Pool, step: (nat, Action))
    requires Inv(s) && Stepped(s, s', step)
    ensures Inv(s') <==> StepCurrent(s, step)
  {
    StepInvIff(s, step.0, step.1);
  }

  /**
   * Over every interleaving of any number of threads: the invariant holds up to a point exactly when every pop
   * exchange before it installed the current successor.
   */
  lemma {:induction false} RunInvIff(n: nat, threads: nat, states: seq<Pool>, steps: seq<(nat, Action)>, k: nat)
    requires 1 <= n < INVALID_INDEX && Run(states, steps) && states[0] == Init(n, threads) && k <= |steps|
    ensures (forall j | 0 <= j <= k :: Inv(states[j])) <==> CurrentUpTo(states, steps, k)
  {
    if k == 0 {
      InitInv(n, threads);
    } else {
      RunInvIff(n, threads, states, steps, k - 1);
      assert Stepped(states[k - 1], states[k], steps[k - 1]);
      if Inv(states[k - 1]) { SteppedIff(states[k - 1], states[k], steps[k - 1]); }
    }
  }

  /** The invariant holds at every point of every interleaving whose pop exchanges stay inside the window. */
  lemma {:induction false} RunInv(n: nat, threads: nat, states: seq<Pool>, steps: seq<(nat, Action)>, k: nat)
    requires 1 <= n < INVALID_INDEX && Run(states, steps) && states[0] == Init(n, threads) && k < |states|
    requires forall j | 0 <= j < |steps| :: InWindow(states[j], steps[j].0, steps[j].1)
    ensures Inv(states[k])
  {
    if k == 0 {
      InitInv(n, threads);
    } else {
      RunInv(n, threads, states, steps, k - 1);
      assert Stepped(states[k - 1], states[k], steps[k - 1]);
      StepInv(states[k - 1], steps[k - 1].0, steps[k - 1].1);
    }
  }

  /**
   * A pop exchange that goes through inside the window installs the head slot's current successor and takes that slot
   * from nobody.
   */
  lemma PopInstallsSuccessor(s: Pool, t: nat, weak: bool)
    requires Inv(s) && Enabled(s, t, PopCas(weak)) && InWindow(s, t, PopCas(weak))
    requires Swings(s, s.threads[t].old_, weak)
    ensures s.head == s.threads[t].old_ && s.head.index < |s.next|
    ensures Step(s, t, PopCas(weak)).head.index == s.next[s.head.index]
    ensures !s.alive[s.head.index] && !IsHeld(s, s.head.index)
  {
    var list :| FreeList(s, list) && Partition(s, list);
    assert CopyOk(s, s.threads[t]);
    HeadFits(s, list);
    SwingCompares(s, s.threads[t].old_, weak);
    TagsDecide(s, s.threads[t].old_);
    HeadInRange(s, list);
    assert list[0] in list;
    OnePlaceIn(s, list, list[0]);
  }

  /** `allocate` gives up only when every slot is alive or on its way between the stack and a user. */
  lemma NullMeansExhausted(s: Pool, i: nat)
    requires Inv(s) && s.head.index == INVALID_INDEX && i < |s.next|
    ensures s.alive[i] || IsHeld(s, i)
  {
    var list :| FreeList(s, list) && Partition(s, list);
    assert list == [];
  }

  /** A slot is in exactly one place: on the stack, alive, or with exactly one thread. */
  lemma OnePlaceEach(s: Pool, list: seq<nat>, i: nat)
    requires FreeList(s, list) && Partition(s, list) && i < |s.next|
    ensures OnePlace(i in list, s.alive[i], IsHeld(s, i))
    ensures forall t, u | 0 <= t < |s.threads| && 0 <= u < |s.threads| && Held(s.threads[t]) == i == Held(s.threads[u]) :: t == u
  {
    OnePlaceIn(s, list, i);
  }

  /** The step returns a live slot. */
  ghost predicate Returns(s: Pool, step: (nat, Action), slot: nat) {
    step.1 == Free(slot) && slot < |s.alive| && s.alive[slot]
  }

  /** The step hands the slot out. */
  ghost predicate HandsOut(s: Pool, step: (nat, Action), slot: nat) {
    step.1.Publish? && step.0 < |s.threads| && s.threads[step.0] == Constructing(slot)
  }

  lemma {:induction false} StaysDown(states: seq<Pool>, steps: seq<(nat, Action)>, slot: nat, k: nat, m: nat)
    requires Run(states, steps) && k < m <= |steps| && Returns(states[k], steps[k], slot)
    requires forall j | k < j < m :: !HandsOut(states[j], steps[j], slot)
    ensures slot < |states[m].alive| && !states[m].alive[slot]
  {
    assert Stepped(states[m - 1], states[m], steps[m - 1]);
    if k < m - 1 { StaysDown(states, steps, slot, k, m - 1); }
  }

  /**
   * In every interleaving, from a slot's return until it is handed out again every further free of it changes
   * nothing.
   */
  lemma DoubleFreeIsRefused(states: seq<Pool>, steps: seq<(nat, Action)>, slot: nat, k: nat, m: nat)
    requires Run(states, steps) && k < m < |steps|
    requires Returns(states[k], steps[k], slot) && steps[m].1 == Free(slot)
    requires forall j | k < j < m :: !HandsOut(states[j], steps[j], slot)
    ensures states[m + 1] == states[m]
  {
    StaysDown(states, steps, slot, k, m);
    assert Stepped(states[m], states[m + 1], steps[m]);
  }

  /**
   * In every interleaving a slot that is returned twice was handed out in between: a double free is never taken for a
   * free.
   */
  lemma ReturnedOncePerUse(states: seq<Pool>, steps: seq<(nat, Action)>, slot: nat, k: nat, m: nat)
    requires Run(states, steps) && k < m < |steps|
    requires Returns(states[k], steps[k], slot) && Returns(states[m], steps[m], slot)
    ensures exists j :: k < j < m && HandsOut(states[j], steps[j], slot)
  {
    if forall j | k < j < m :: !HandsOut(states[j], steps[j], slot) {
      StaysDown(states, steps, slot, k, m);
      assert false;
    }
  }

  // ----- a tag that wraps -----

  /** Some interleaving leads from `s` to `s'`. */
  ghost predicate Reaches(s: Pool, s': Pool) {
    exists states, steps :: Run(states, steps) && states[0] == s && states[|steps|] == s'
  }

  lemma ReachesSelf(s: Pool)
    ensures Reaches(s, s)
  {
    var states, steps: seq<(nat, Action)> := [s], [];
    assert Run(states, steps) && states[|steps|] == s;
  }

  lemma ReachesOn(s: Pool, s': Pool, t: nat, a: Action)
    requires Reaches(s, s') && Enabled(s', t, a)
    ensures Reaches(s, Step(s', t, a))
  {
    var states, steps :| Run(states, steps) && states[0] == s && states[|steps|] == s';
    var states', steps' := states + [Step(s', t, a)], steps + [(t, a)];
    forall k | 0 <= k < |steps'| ensures Stepped(states'[k], states'[k + 1], steps'[k]) {
      if k < |steps| { assert Stepped(states[k], states[k + 1], steps[k]); }
    }
    assert Run(states', steps');
  }

  /** The pool after one thread allocates by itself. */
  function Popped(s: Pool): Pool
    requires s.head.index < |s.next| == |s.alive|
  {
    s.(head := Head(s.next[s.head.index], s.head.version + 1), alive := s.alive[s.head.index := true])
  }

  /** The pool after one thread returns slot `x` by itself. */
  function Pushed(s: Pool, x: nat): Pool
    requires x < |s.next| == |s.alive|
  {
    s.(head := Head(x, s.head.version + 1), next := s.next[x := s.head.index], alive := s.alive[x := false])
  }

  /** An allocation that nobody disturbs. */
  lemma AllocateAlone(s0: Pool, s: Pool, t: nat)
    requires Reaches(s0, s) && t < |s.threads| && s.threads[t] == Idle
    requires s.head.index < |s.next| == |s.alive| && s.head.index != INVALID_INDEX
    ensures Reaches(s0, Popped(s))
  {
    ReachesOn(s0, s, t, Load);
    var s1 := Step(s, t, Load);
    ReachesOn(s0, s1, t, ReadNext);
    var s2 := Step(s1, t, ReadNext);
    ReachesOn(s0, s2, t, PopCas(false));
    var s3 := Step(s2, t, PopCas(false));
    ReachesOn(s0, s3, t, Publish);
    assert Step(s3, t, Publish).threads == s.threads;
  }

  /** A return that nobody disturbs. */
  lemma ReturnAlone(s0: Pool, s: Pool, t: nat, x: nat)
    requires Reaches(s0, s) && t < |s.threads| && s.threads[t] == Idle
    requires x < |s.next| == |s.alive| && s.alive[x]
    ensures Reaches(s0, Pushed(s, x))
  {
    ReachesOn(s0, s, t, Free(x));
    var s1 := Step(s, t, Free(x));
    ReachesOn(s0, s1, t, PushLoad);
    var s2 := Step(s1, t, PushLoad);
    ReachesOn(s0, s2, t, Link);
    var s3 := Step(s2, t, Link);
    ReachesOn(s0, s3, t, PushCas(false));
    assert Step(s3, t, PushCas(false)).threads == s.threads;
  }

  /** Two free slots; thread 0 has loaded the first head and has read the end mark as its successor. */
  function Stale(version: nat): Pool {
    Pool(Head(0, version), [1, INVALID_INDEX], [false, false], [PopRead(Head(0, 0), INVALID_INDEX), Idle])
  }

  /** Thread 0 loads the head and reads the successor while slot 0 is the only free one. */
  lemma ReachStale()
    ensures Reaches(Init(2, 2), Stale(6))
  {
    var s0 := Init(2, 2);
    ReachesSelf(s0);
    ReachesOn(s0, s0, 0, Load);
    var s := Step(s0, 0, Load);
    AllocateAlone(s0, s, 1);
    s := Popped(s);
    AllocateAlone(s0, s, 1);
    s := Popped(s);
    ReturnAlone(s0, s, 1, 0);
    s := Pushed(s, 0);
    ReachesOn(s0, s, 0, ReadNext);
    s := Step(s, 0, ReadNext);
    AllocateAlone(s0, s, 1);
    s := Popped(s);
    ReturnAlone(s0, s, 1, 1);
    s := Pushed(s, 1);
    ReturnAlone(s0, s, 1, 0);
    assert Pushed(s, 0) == Stale(6);
  }

  /** Thread 1 takes slot 0 and returns it, `pairs` times over. */
  lemma {:induction false} ReachLater(pairs: nat)
    ensures Reaches(Init(2, 2), Stale(6 + 2 * pairs))
  {
    if pairs == 0 {
      ReachStale();
    } else {
      ReachLater(pairs - 1);
      var s := Stale(6 + 2 * (pairs - 1));
      AllocateAlone(Init(2, 2), s, 1);
      ReturnAlone(Init(2, 2), Popped(s), 1, 0);
      assert Pushed(Popped(s), 0) == Stale(6 + 2 * pairs);
    }
  }

  /**
   * From a new pool of two slots, two threads reach a sound state in which a pop exchange goes through on a tag 2^32
   * updates old and loses a slot.
   */
  lemma WrapLosesSlot()
    ensures var s := Stale(TWO_32);
            && Reaches(Init(2, 2), s) && Inv(s) && Enabled(s, 0, PopCas(false)) && !InWindow(s, 0, PopCas(false))
            && !Inv(Step(s, 0, PopCas(false)))
  {
    var s := Stale(TWO_32);
    ReachLater(TWO_32 / 2 - 3);
    var list: seq<nat> := [0, 1];
    assert After(list, 0) == 1 && After(list, 1) == INVALID_INDEX;
    assert FreeList(s, list) && Partition(s, list);
    assert Copies(s);
    StepInvIff(s, 0, PopCas(false));
    assert Word(s.head) == Word(s.threads[0].old_);
  }

  // ----- exchanges that fail -----

  predicate Exchanges(a: Action) {
    a.PopCas? || a.PushCas?
  }

  predicate Loads(a: Action) {
    a.Load? || a.PushLoad?
  }

  predicate HasCopy(pc: Pc) {
    pc.PopLoaded? || pc.PopRead? || pc.PushLoaded? || pc.PushLinked?
  }

  /**
   * An exchange that is not spuriously refused fails only because another one has moved the head since the thread's
   * load.
   */
  lemma FailureMeansMoved(s: Pool, t: nat, a: Action)
    requires Inv(s) && Enabled(s, t, a) && Exchanges(a) && !a.weak && !Swings(s, s.threads[t].old_, a.weak)
    ensures s.threads[t].old_.version < s.head.version
  {
    assert CopyOk(s, s.threads[t]);
  }

  /** The thread's copy of the head, if it has one, is the head as some load of its own after step `i` found it. */
  ghost predicate LoadedSince(states: seq<Pool>, steps: seq<(nat, Action)>, t: nat, i: nat, m: nat)
    requires Run(states, steps) && m <= |steps|
  {
    t < |states[m].threads| && HasCopy(states[m].threads[t]) ==>
      exists k :: i < k < m && steps[k].0 == t && Loads(steps[k].1) && states[m].threads[t].old_ == states[k].head
  }

  /** One step of any thread. */
  lemma StillLoadedSince(states: seq<Pool>, steps: seq<(nat, Action)>, t: nat, i: nat, m: nat)
    requires Run(states, steps) && i < m < |steps| && LoadedSince(states, steps, t, i, m)
    ensures LoadedSince(states, steps, t, i, m + 1)
  {
    assert Stepped(states[m], states[m + 1], steps[m]);
    if t < |states[m + 1].threads| && HasCopy(states[m + 1].threads[t]) {
      if steps[m].0 == t && Loads(steps[m].1) {
        assert states[m + 1].threads[t].old_ == states[m].head;
      } else {
        var k :| i < k < m && steps[k].0 == t && Loads(steps[k].1) && states[m].threads[t].old_ == states[k].head;
        assert states[m + 1].threads[t].old_ == states[k].head;
      }
    }
  }

  lemma {:induction false} CopyIsFresh(states: seq<Pool>, steps: seq<(nat, Action)>, t: nat, i: nat, m: nat)
    requires Run(states, steps) && i < m <= |steps| && steps[i].0 == t && Exchanges(steps[i].1)
    ensures LoadedSince(states, steps, t, i, m)
  {
    if m == i + 1 {
      assert Stepped(states[i], states[m], steps[i]);
    } else {
      CopyIsFresh(states, steps, t, i, m - 1);
      StillLoadedSince(states, steps, t, i, m - 1);
    }
  }

  /**
   * In every interleaving a thread loads the head afresh between two exchanges, and the second compares what that
   * load found.
   */
  lemma ExchangeAfterFreshLoad(states: seq<Pool>, steps: seq<(nat, Action)>, t: nat, i: nat, j: nat)
    requires Run(states, steps) && i < j < |steps| && steps[i].0 == t == steps[j].0
    requires Exchanges(steps[i].1) && Exchanges(steps[j].1)
    ensures t < |states[j].threads| && HasCopy(states[j].threads[t])
    ensures exists k :: i < k < j && steps[k].0 == t && Loads(steps[k].1) && states[j].threads[t].old_ == states[k].head
  {
    assert Stepped(states[j], states[j + 1], steps[j]);
    CopyIsFresh(states, steps, t, i, j);
  }

  /** Thread `t` alone takes the steps `acts`, one after the other, from `s` to `s'`. */
  ghost predicate Alone(s: Pool, t: nat, acts: seq<Action>, s': Pool)
    decreases |acts|
  {
    if acts == [] then s' == s else Enabled(s, t, acts[0]) && Alone(Step(s, t, acts[0]), t, acts[1..], s')
  }

  lemma AloneFirst(s: Pool, t: nat, a: Action, rest: seq<Action>, s': Pool)
    requires Enabled(s, t, a) && Alone(Step(s, t, a), t, rest, s')
    ensures Alone(s, t, [a] + rest, s')
  {
    assert ([a] + rest)[1..] == rest;
  }

  const ALLOCATE := [Load] + ([ReadNext] + ([PopCas(false)] + ([Publish] + [])))
  const PUSH := [PushLoad] + ([Link] + ([PushCas(false)] + []))

  /** Left alone, an allocation hands out the first free slot. */
  lemma AllocateSolo(s: Pool, t: nat)
    requires t < |s.threads| && s.threads[t] == Idle
    requires s.head.index < |s.next| == |s.alive| && s.head.index != INVALID_INDEX
    ensures Alone(s, t, ALLOCATE, Popped(s))
  {
    var s1 := Step(s, t, Load);
    var s2 := Step(s1, t, ReadNext);
    var s3 := Step(s2, t, PopCas(false));
    var s4 := Step(s3, t, Publish);
    assert s4.threads == s.threads;
    AloneFirst(s3, t, Publish, [], s4);
    AloneFirst(s2, t, PopCas(false), [Publish] + [], s4);
    AloneFirst(s1, t, ReadNext, [PopCas(false)] + ([Publish] + []), s4);
    AloneFirst(s, t, Load, [ReadNext] + ([PopCas(false)] + ([Publish] + [])), s4);
  }

  /** Left alone, a thread that holds a slot puts it first on the stack. */
  lemma PushSolo(s: Pool, t: nat, x: nat)
    requires t < |s.threads| && s.threads[t] == Returning(x) && x < |s.next|
    ensures Alone(s, t, PUSH, s.(head := Head(x, s.head.version + 1), next := s.next[x := s.head.index],
                                 threads := s.threads[t := Idle]))
  {
    var s1 := Step(s, t, PushLoad);
    var s2 := Step(s1, t, Link);
    var s3 := Step(s2, t, PushCas(false));
    assert s3.threads == s.threads[t := Idle];
    AloneFirst(s2, t, PushCas(false), [], s3);
    AloneFirst(s1, t, Link, [PushCas(false)] + [], s3);
    AloneFirst(s, t, PushLoad, [Link] + ([PushCas(false)] + []), s3);
  }

  /** A thread whose pop exchange fails allocates in the next round if it is then left alone and a slot is free. */
  lemma FailedPopRetries(s: Pool, t: nat, weak: bool)
    requires Enabled(s, t, PopCas(weak)) && !Swings(s, s.threads[t].old_, weak)
    requires s.head.index < |s.next| == |s.alive| && s.head.index != INVALID_INDEX
    ensures Alone(s, t, [PopCas(weak)] + ALLOCATE, Popped(s).(threads := s.threads[t := Idle]))
  {
    var s1 := Step(s, t, PopCas(weak));
    AllocateSolo(s1, t);
    AloneFirst(s, t, PopCas(weak), ALLOCATE, Popped(s1));
  }

  /** A thread whose push exchange fails still returns its slot in the next round if it is then left alone. */
  lemma FailedPushRetries(s: Pool, t: nat, weak: bool)
    requires Enabled(s, t, PushCas(weak)) && !Swings(s, s.threads[t].old_, weak) && s.threads[t].slot < |s.next|
    ensures var x := s.threads[t].slot;
            Alone(s, t, [PushCas(weak)] + PUSH, s.(head := Head(x, s.head.version + 1), next := s.next[x := s.head.index],
                                                   threads := s.threads[t := Idle]))
  {
    var s1, x := Step(s, t, PushCas(weak)), s.threads[t].slot;
    PushSolo(s1, t, x);
    assert s1.threads[t := Idle] == s.threads[t := Idle];
    AloneFirst(s, t, PushCas(weak), PUSH, s.(head := Head(x, s.head.version + 1), next := s.next[x := s.head.index],
                                             threads := s.threads[t := Idle]));
  }
}

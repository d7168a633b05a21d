/** The single-producer single-consumer ring as interleaved steps of its two threads. */
module SpscRing {
  import opened Bits
  import opened Arith

  /** Where the producer stands in `enqueue` or `enqueue_spin`, with the counters it has loaded. */
  datatype Producer<T> =
    | ProducerIdle
    | HeadLoaded(item: T, head: Word)
    | TailSeen(item: T, head: Word, tail: Word)
    | Written(item: T, head: Word)

  /** Where the consumer stands in `dequeue`. */
  datatype Consumer<T> =
    | ConsumerIdle
    | TailLoaded(tail: Word)
    | HeadSeen(tail: Word, head: Word)
    | Taken(tail: Word, item: T)

  /** `enqueued` and `dequeued` record what the two threads have completed so far. */
  datatype Ring<T> = Ring(
    buffer: seq<T>, head: Word, tail: Word, producer: Producer<T>, consumer: Consumer<T>,
    enqueued: seq<T>, dequeued: seq<T>)

  datatype Step<T> =
    | LoadHead(item: T)   // producer: start an enqueue
    | SeeTail             // producer: acquire-load the consumer's counter
    | Write(spin: bool)   // producer: test for a full ring, then fill the slot; a spin goes back to SeeTail
    | StoreHead           // producer: publish
    | LoadTail            // consumer: start a dequeue
    | SeeHead             // consumer: acquire-load the producer's counter
    | Take                // consumer: test for an empty ring, then read the slot
    | StoreTail           // consumer: release the slot

  /** A power of two of at least 2, as the queue's `requires` clause demands. */
  ghost predicate IsCapacity(c: nat) {
    exists k: nat :: 1 <= k < 64 && c == Pow2(k)
  }

  function Succ(w: Word): Word {
    (w + 1) % TWO_64
  }

  /** Unsigned 64-bit subtraction. */
  function Minus(a: Word, b: Word): Word {
    (a - b) % TWO_64
  }

  /** `counter & kMask` */
  function SlotOf(counter: Word, capacity: nat): nat
    requires capacity > 0
  {
    And(counter, capacity - 1)
  }

  ghost predicate Enabled<T>(s: Ring<T>, a: Step<T>) {
    && |s.buffer| > 0
    && match a
       case LoadHead(_) => s.producer.ProducerIdle?
       case SeeTail => s.producer.HeadLoaded?
       case Write(_) => s.producer.TailSeen? && SlotOf(s.producer.head, |s.buffer|) < |s.buffer|
       case StoreHead => s.producer.Written?
       case LoadTail => s.consumer.ConsumerIdle?
       case SeeHead => s.consumer.TailLoaded?
       case Take => s.consumer.HeadSeen? && SlotOf(s.consumer.tail, |s.buffer|) < |s.buffer|
       case StoreTail => s.consumer.Taken?
  }

  ghost function Next<T>(s: Ring<T>, a: Step<T>): Ring<T>
    requires Enabled(s, a)
  {
    match a
    case LoadHead(item) => s.(producer := HeadLoaded(item, s.head))
    case SeeTail => s.(producer := TailSeen(s.producer.item, s.producer.head, s.tail))
    case Write(spin) =>
      var p := s.producer;
      if Minus(p.head, p.tail) == |s.buffer| then
        s.(producer := if spin then HeadLoaded(p.item, p.head) else ProducerIdle)
      else
        s.(buffer := s.buffer[SlotOf(p.head, |s.buffer|) := p.item], producer := Written(p.item, p.head))
    case StoreHead =>
      s.(head := Succ(s.producer.head), producer := ProducerIdle, enqueued := s.enqueued + [s.producer.item])
    case LoadTail => s.(consumer := TailLoaded(s.tail))
    case SeeHead => s.(consumer := HeadSeen(s.consumer.tail, s.head))
    case Take =>
      var c := s.consumer;
      if c.tail == c.head then s.(consumer := ConsumerIdle)
      else s.(consumer := Taken(c.tail, s.buffer[SlotOf(c.tail, |s.buffer|)]))
    case StoreTail =>
      s.(tail := Succ(s.consumer.tail), consumer := ConsumerIdle, dequeued := s.dequeued + [s.consumer.item])
  }

  // ----- counters and slots -----

  /** The machine word that counts `n`. */
  function Count(n: nat): Word {
    n % TWO_64
  }

  lemma CountSucc(n: nat)
    ensures Succ(Count(n)) == Count(n + 1)
  {}

  /** Counters less than 2^64 apart subtract exactly. */
  lemma CountMinus(a: nat, b: nat)
    requires 0 <= a - b < TWO_64
    ensures Minus(Count(a), Count(b)) == a - b
  {}

  lemma CountEqual(a: nat, b: nat)
    requires 0 <= a - b < TWO_64
    ensures Count(a) == Count(b) <==> a == b
  {
    CountMinus(a, b);
  }

  lemma CapacityFacts(c: nat)
    requires IsCapacity(c)
    ensures 2 <= c < TWO_64 && exists q: nat :: TWO_64 == q * c
  {
    var k: nat :| 1 <= k < 64 && c == Pow2(k);
    Pow2Of64();
    Pow2Sum(64 - k, k);
    Pow2Grows(1, k);
    Pow2Grows(k + 1, 64);
  }

  /** The slot of a counter is its count modulo the capacity, wrap-around included. */
  lemma SlotOfCount(n: nat, c: nat)
    requires IsCapacity(c)
    ensures SlotOf(Count(n), c) == n % c < c
  {
    var k: nat :| 1 <= k < 64 && c == Pow2(k);
    AndMask(Count(n), k, c);
    CapacityFacts(c);
    var q: nat :| TWO_64 == q * c;
    ModOfMod(n, q, c);
  }

  lemma ModOfMod(n: nat, q: nat, c: nat)
    requires q > 0 && c > 0 && q * c == TWO_64
    ensures n % TWO_64 % c == n % c
  {
    var a, r := Division(n, TWO_64);
    var b, s := Division(r, c);
    assert n == (a * q + b) * c + s by {
      assert a * (q * c) == a * q * c;
      assert (a * q + b) * c == a * q * c + b * c;
    }
    DivUnique(n, c, a * q + b, s);
  }

  lemma SameSlotFarApart(i: nat, j: nat, c: nat)
    requires i < j && c > 0 && i % c == j % c
    ensures j - i >= c
  {
    var a, r := Division(i, c);
    var b, s := Division(j, c);
    MulSub(b, a, c);
    PositiveFactor(b - a, c);
    MulAtLeast(b - a, c);
  }

  /** Two counts less than a capacity apart use different slots. */
  lemma DistinctSlots(i: nat, j: nat, c: nat)
    requires i < j < i + c
    ensures i % c != j % c
  {
    if i % c == j % c { SameSlotFarApart(i, j, c); }
  }

  // ----- the invariant -----

  /** A stale copy of the consumer's counter: some earlier count, at most a capacity behind the head. */
  ghost predicate TailCopy<T>(s: Ring<T>, t: Word) {
    exists n: nat :: n <= |s.dequeued| && |s.enqueued| - n <= |s.buffer| && t == Count(n)
  }

  /** A stale copy of the producer's counter: some count between the tail and the head. */
  ghost predicate HeadCopy<T>(s: Ring<T>, h: Word) {
    exists n: nat :: |s.dequeued| <= n <= |s.enqueued| && h == Count(n)
  }

  ghost predicate ProducerOk<T>(s: Ring<T>) {
    match s.producer
    case ProducerIdle => true
    case HeadLoaded(_, h) => h == s.head
    case TailSeen(_, h, t) => h == s.head && TailCopy(s, t)
    case Written(item, h) =>
      && h == s.head && |s.enqueued| - |s.dequeued| < |s.buffer|
      && |s.buffer| > 0 && s.buffer[|s.enqueued| % |s.buffer|] == item
  }

  ghost predicate ConsumerOk<T>(s: Ring<T>) {
    match s.consumer
    case ConsumerIdle => true
    case TailLoaded(t) => t == s.tail
    case HeadSeen(t, h) => t == s.tail && HeadCopy(s, h)
    case Taken(t, item) => t == s.tail && |s.dequeued| < |s.enqueued| && item == s.enqueued[|s.dequeued|]
  }

  /** Every item that is in the ring sits, unread, in the slot of its count. */
  ghost predicate Stored<T>(s: Ring<T>)
    requires |s.buffer| > 0
  {
    forall i | |s.dequeued| <= i < |s.enqueued| :: s.buffer[i % |s.buffer|] == s.enqueued[i]
  }

  ghost predicate Inv<T>(s: Ring<T>) {
    && IsCapacity(|s.buffer|) && |s.buffer| > 0
    && s.head == Count(|s.enqueued|) && s.tail == Count(|s.dequeued|)
    && |s.enqueued| - |s.dequeued| <= |s.buffer|
    && s.dequeued <= s.enqueued
    && Stored(s) && ProducerOk(s) && ConsumerOk(s)
  }

  /** The ring as constructed over a buffer of default items. */
  function Init<T>(buffer: seq<T>): Ring<T> {
    Ring(buffer, 0, 0, ProducerIdle, ConsumerIdle, [], [])
  }

  lemma InitInv<T>(buffer: seq<T>)
    requires IsCapacity(|buffer|)
    ensures Inv(Init(buffer))
  {
    CapacityFacts(|buffer|);
  }

  /** The full test, on a copy of the tail that may be old, is exact about that copy. */
  lemma FullTest<T>(s: Ring<T>)
    requires Inv(s) && s.producer.TailSeen?
    ensures Minus(s.producer.head, s.producer.tail) != |s.buffer| ==> |s.enqueued| - |s.dequeued| < |s.buffer|
  {
    CapacityFacts(|s.buffer|);
    var n: nat :| n <= |s.dequeued| && |s.enqueued| - n <= |s.buffer| && s.producer.tail == Count(n);
    CountMinus(|s.enqueued|, n);
  }

  /** The empty test is exact about the copy of the head it uses. */
  lemma EmptyTest<T>(s: Ring<T>)
    requires Inv(s) && s.consumer.HeadSeen?
    ensures s.consumer.tail != s.consumer.head ==> |s.dequeued| < |s.enqueued|
  {
    var n: nat :| |s.dequeued| <= n <= |s.enqueued| && s.consumer.head == Count(n);
  }

  /** With fresh copies the tests are exact about the ring: full means full, empty means empty. */
  lemma FreshTests<T>(s: Ring<T>)
    requires Inv(s)
    ensures Minus(s.head, s.tail) == |s.buffer| <==> |s.enqueued| - |s.dequeued| == |s.buffer|
    ensures s.tail == s.head <==> s.enqueued == s.dequeued
  {
    CapacityFacts(|s.buffer|);
    CountMinus(|s.enqueued|, |s.dequeued|);
    CountEqual(|s.enqueued|, |s.dequeued|);
  }

  /** The slot the producer fills holds no unread item. */
  lemma WriteHitsNoUnread<T>(s: Ring<T>, i: nat)
    requires Inv(s) && s.producer.TailSeen? && Minus(s.producer.head, s.producer.tail) != |s.buffer|
    requires |s.dequeued| <= i < |s.enqueued|
    ensures SlotOf(s.producer.head, |s.buffer|) == |s.enqueued| % |s.buffer| != i % |s.buffer|
  {
    FullTest(s);
    SlotOfCount(|s.enqueued|, |s.buffer|);
    DistinctSlots(i, |s.enqueued|, |s.buffer|);
  }

  /** What the consumer reads is the oldest unread item. */
  lemma TakeReadsOldest<T>(s: Ring<T>)
    requires Inv(s) && s.consumer.HeadSeen? && s.consumer.tail != s.consumer.head
    ensures |s.dequeued| < |s.enqueued| && SlotOf(s.consumer.tail, |s.buffer|) < |s.buffer|
    ensures s.buffer[SlotOf(s.consumer.tail, |s.buffer|)] == s.enqueued[|s.dequeued|]
  {
    EmptyTest(s);
    SlotOfCount(|s.dequeued|, |s.buffer|);
  }

  lemma WriteInv<T>(s: Ring<T>, spin: bool)
    requires Inv(s) && Enabled(s, Write(spin))
    ensures Inv(Next(s, Write(spin)))
  {
    var p := s.producer;
    if Minus(p.head, p.tail) != |s.buffer| {
      FullTest(s);
      SlotOfCount(|s.enqueued|, |s.buffer|);
      forall i | |s.dequeued| <= i < |s.enqueued| ensures i % |s.buffer| != |s.enqueued| % |s.buffer| {
        WriteHitsNoUnread(s, i);
      }
    }
  }

  lemma StoreHeadInv<T>(s: Ring<T>)
    requires Inv(s) && s.producer.Written?
    ensures Inv(Next(s, StoreHead))
  {
    var s' := Next(s, StoreHead);
    CountSucc(|s.enqueued|);
    if s.consumer.HeadSeen? {
      var n: nat :| |s.dequeued| <= n <= |s.enqueued| && s.consumer.head == Count(n);
      assert HeadCopy(s', s.consumer.head);
    }
  }

  lemma StoreTailInv<T>(s: Ring<T>)
    requires Inv(s) && s.consumer.Taken?
    ensures Inv(Next(s, StoreTail))
  {
    var s' := Next(s, StoreTail);
    CountSucc(|s.dequeued|);
    assert s'.dequeued <= s'.enqueued;
    if s.producer.TailSeen? {
      var n: nat :| n <= |s.dequeued| && |s.enqueued| - n <= |s.buffer| && s.producer.tail == Count(n);
      assert TailCopy(s', s.producer.tail);
    }
  }

  /** Every step of either thread keeps the invariant. */
  lemma StepInv<T>(s: Ring<T>, a: Step<T>)
    requires Inv(s) && Enabled(s, a)
    ensures Inv(Next(s, a)) && |Next(s, a).buffer| == |s.buffer|
  {
    var s' := Next(s, a);
    match a
    case LoadHead(_) =>
    case SeeTail => assert TailCopy(s', s.tail);
    case Write(spin) => WriteInv(s, spin);
    case StoreHead => StoreHeadInv(s);
    case LoadTail =>
    case SeeHead => assert HeadCopy(s', s.head);
    case Take =>
      if s.consumer.tail != s.consumer.head { TakeReadsOldest(s); }
    case StoreTail => StoreTailInv(s);
  }

  // ----- runs -----

  ghost predicate Stepped<T>(s: Ring<T>, s': Ring<T>, a: Step<T>) {
    Enabled(s, a) && s' == Next(s, a)
  }

  lemma SteppedInv<T>(s: Ring<T>, s': Ring<T>, a: Step<T>)
    requires Inv(s) && Stepped(s, s', a)
    ensures Inv(s') && |s'.buffer| == |s.buffer|
  {
    StepInv(s, a);
  }

  /** Any interleaving of the producer's and the consumer's steps. */
  ghost predicate Run<T>(states: seq<Ring<T>>, steps: seq<Step<T>>) {
    && |states| == |steps| + 1
    && forall k | 0 <= k < |steps| :: Stepped(states[k], states[k + 1], steps[k])
  }

  /**
   * At every point of every interleaving the dequeued items are a prefix of the enqueued ones and
   * no more than a capacity of items is in flight.
   */
  lemma {:induction false} RunIsFifo<T>(buffer: seq<T>, states: seq<Ring<T>>, steps: seq<Step<T>>, k: nat)
    requires IsCapacity(|buffer|) && Run(states, steps) && states[0] == Init(buffer) && k < |states|
    ensures Inv(states[k]) && |states[k].buffer| == |buffer|
    ensures states[k].dequeued <= states[k].enqueued
    ensures |states[k].enqueued| - |states[k].dequeued| <= |buffer|
  {
    if k == 0 {
      InitInv(buffer);
    } else {
      RunIsFifo(buffer, states, steps, k - 1);
      SteppedInv(states[k - 1], states[k], steps[k - 1]);
    }
  }

  // ----- what a call completes -----

  predicate ByConsumer<T>(a: Step<T>) {
    a.LoadTail? || a.SeeHead? || a.Take? || a.StoreTail?
  }

  /** `dequeue` gives up exactly when its copy of the head equals its tail; otherwise it holds the oldest unread item. */
  lemma TakeOutcome<T>(s: Ring<T>)
    requires Inv(s) && Enabled(s, Take)
    ensures var c, s' := s.consumer, Next(s, Take);
            && s' == s.(consumer := s'.consumer)
            && (s'.consumer == ConsumerIdle <==> c.tail == c.head)
            && (c.tail != c.head ==> s.dequeued < s.enqueued && s'.consumer == Taken(c.tail, s.enqueued[|s.dequeued|]))
  {
    if s.consumer.tail != s.consumer.head { TakeReadsOldest(s); }
  }

  /**
   * A write that does not spin gives up exactly when its copy of the tail says full; a spin then waits with the same
   * item.
   */
  lemma WriteOutcome<T>(s: Ring<T>, spin: bool)
    requires Inv(s) && Enabled(s, Write(spin))
    ensures var p, s' := s.producer, Next(s, Write(spin)); var full := Minus(p.head, p.tail) == |s.buffer|;
            && (s'.producer == ProducerIdle <==> full && !spin)
            && (full && spin ==> s'.producer == HeadLoaded(p.item, p.head))
            && (full ==> s' == s.(producer := s'.producer))
            && (!full ==> s'.producer == Written(p.item, p.head) && s'.buffer[|s.enqueued| % |s.buffer|] == p.item)
            && s' == s.(producer := s'.producer, buffer := s'.buffer)
  {
    SlotOfCount(|s.enqueued|, |s.buffer|);
  }

  /** The consumer's copy of the head shows an unread item. */
  ghost predicate SeesItem<T>(s: Ring<T>) {
    s.consumer.HeadSeen? && exists n: nat :: |s.dequeued| < n <= |s.enqueued| && s.consumer.head == Count(n)
  }

  /** The producer's copy of the tail shows a free slot. */
  ghost predicate SeesRoom<T>(s: Ring<T>, item: T) {
    && s.producer.TailSeen? && s.producer.item == item
    && exists n: nat :: n <= |s.dequeued| && |s.enqueued| - n < |s.buffer| && s.producer.tail == Count(n)
  }

  lemma HeadShowsItem<T>(s: Ring<T>)
    requires Inv(s) && Enabled(s, SeeHead) && s.dequeued != s.enqueued
    ensures SeesItem(Next(s, SeeHead))
  {
    assert s.head == Count(|s.enqueued|);
  }

  lemma TailShowsRoom<T>(s: Ring<T>)
    requires Inv(s) && Enabled(s, SeeTail) && |s.enqueued| - |s.dequeued| < |s.buffer|
    ensures SeesRoom(Next(s, SeeTail), s.producer.item)
  {
    assert s.tail == Count(|s.dequeued|);
  }

  /** The producer cannot take away what the consumer has seen. */
  lemma StillSeesItem<T>(s: Ring<T>, a: Step<T>)
    requires SeesItem(s) && Enabled(s, a) && !ByConsumer(a)
    ensures SeesItem(Next(s, a)) && Next(s, a).dequeued == s.dequeued && s.enqueued <= Next(s, a).enqueued
  {
    var n: nat :| |s.dequeued| < n <= |s.enqueued| && s.consumer.head == Count(n);
    assert |Next(s, a).dequeued| < n <= |Next(s, a).enqueued|;
  }

  lemma StillSeesRoom<T>(s: Ring<T>, a: Step<T>, item: T)
    requires SeesRoom(s, item) && Enabled(s, a) && ByConsumer(a)
    ensures SeesRoom(Next(s, a), item) && Next(s, a).enqueued == s.enqueued
  {
    var n: nat :| n <= |s.dequeued| && |s.enqueued| - n < |s.buffer| && s.producer.tail == Count(n);
    assert n <= |Next(s, a).dequeued|;
  }

  lemma SightStep<T>(s: Ring<T>, s': Ring<T>, a: Step<T>)
    requires Inv(s) && SeesItem(s) && Stepped(s, s', a) && !ByConsumer(a)
    ensures Inv(s') && SeesItem(s') && s'.dequeued == s.dequeued && s.enqueued <= s'.enqueued
  {
    StillSeesItem(s, a);
    StepInv(s, a);
  }

  lemma RoomStep<T>(s: Ring<T>, s': Ring<T>, a: Step<T>, item: T)
    requires Inv(s) && SeesRoom(s, item) && Stepped(s, s', a) && ByConsumer(a)
    ensures Inv(s') && SeesRoom(s', item) && s'.enqueued == s.enqueued
  {
    StillSeesRoom(s, a, item);
    StepInv(s, a);
  }

  lemma TakeAfterSight<T>(s: Ring<T>)
    requires Inv(s) && SeesItem(s) && Enabled(s, Take)
    ensures s.dequeued < s.enqueued && Next(s, Take).consumer == Taken(s.tail, s.enqueued[|s.dequeued|])
  {
    var n: nat :| |s.dequeued| < n <= |s.enqueued| && s.consumer.head == Count(n);
    CapacityFacts(|s.buffer|);
    CountEqual(n, |s.dequeued|);
    TakeOutcome(s);
  }

  lemma WriteAfterSight<T>(s: Ring<T>, spin: bool, item: T)
    requires Inv(s) && SeesRoom(s, item) && Enabled(s, Write(spin))
    ensures Next(s, Write(spin)).producer == Written(item, s.head)
  {
    var n: nat :| n <= |s.dequeued| && |s.enqueued| - n < |s.buffer| && s.producer.tail == Count(n);
    CapacityFacts(|s.buffer|);
    CountMinus(|s.enqueued|, n);
    WriteOutcome(s, spin);
  }

  lemma {:induction false} SightLasts<T>(states: seq<Ring<T>>, steps: seq<Step<T>>, i: nat, m: nat)
    requires Run(states, steps) && i < m <= |steps| && Inv(states[i])
    requires steps[i] == SeeHead && states[i].dequeued != states[i].enqueued
    requires forall k | i < k < m :: !ByConsumer(steps[k])
    ensures Inv(states[m]) && SeesItem(states[m])
    ensures states[m].dequeued == states[i].dequeued && states[i].enqueued <= states[m].enqueued
  {
    if m == i + 1 {
      assert Stepped(states[i], states[m], steps[i]);
      HeadShowsItem(states[i]);
      SteppedInv(states[i], states[m], steps[i]);
    } else {
      SightLasts(states, steps, i, m - 1);
      SightStep(states[m - 1], states[m], steps[m - 1]);
    }
  }

  /**
   * Whatever the producer does in between, a `dequeue` that looks while the ring holds an item takes the oldest one
   * it held.
   */
  lemma DequeueTakesOldest<T>(states: seq<Ring<T>>, steps: seq<Step<T>>, i: nat, j: nat)
    requires Run(states, steps) && i < j < |steps| && Inv(states[i])
    requires steps[i] == SeeHead && steps[j] == Take && states[i].dequeued != states[i].enqueued
    requires forall k | i < k < j :: !ByConsumer(steps[k])
    ensures states[i].dequeued < states[i].enqueued
    ensures states[j + 1].consumer == Taken(states[i].tail, states[i].enqueued[|states[i].dequeued|])
  {
    SightLasts(states, steps, i, j);
    assert Stepped(states[j], states[j + 1], steps[j]);
    TakeAfterSight(states[j]);
  }

  lemma {:induction false} RoomLasts<T>(states: seq<Ring<T>>, steps: seq<Step<T>>, i: nat, m: nat)
    requires Run(states, steps) && i < m <= |steps| && Inv(states[i])
    requires steps[i] == SeeTail && |states[i].enqueued| - |states[i].dequeued| < |states[i].buffer|
    requires forall k | i < k < m :: ByConsumer(steps[k])
    ensures Enabled(states[i], SeeTail) && Inv(states[m]) && SeesRoom(states[m], states[i].producer.item)
    ensures states[m].enqueued == states[i].enqueued
  {
    assert Stepped(states[i], states[i + 1], steps[i]);
    if m == i + 1 {
      TailShowsRoom(states[i]);
      SteppedInv(states[i], states[m], steps[i]);
    } else {
      RoomLasts(states, steps, i, m - 1);
      RoomStep(states[m - 1], states[m], steps[m - 1], states[i].producer.item);
    }
  }

  /** Whatever the consumer does in between, an `enqueue` that looks while the ring has room writes its item. */
  lemma EnqueueWritesItem<T>(states: seq<Ring<T>>, steps: seq<Step<T>>, i: nat, j: nat)
    requires Run(states, steps) && i < j < |steps| && Inv(states[i])
    requires steps[i] == SeeTail && steps[j].Write? && |states[i].enqueued| - |states[i].dequeued| < |states[i].buffer|
    requires forall k | i < k < j :: ByConsumer(steps[k])
    ensures Enabled(states[i], SeeTail) && states[j + 1].producer == Written(states[i].producer.item, states[i].head)
  {
    RoomLasts(states, steps, i, j);
    assert Stepped(states[j], states[j + 1], steps[j]);
    WriteAfterSight(states[j], steps[j].spin, states[i].producer.item);
  }

  /** Left alone on a ring that holds an item, `dequeue` hands out the oldest one and changes nothing else. */
  lemma DequeueAlone<T>(s: Ring<T>)
    requires Inv(s) && s.consumer.ConsumerIdle? && s.dequeued != s.enqueued
    ensures Enabled(s, LoadTail) && Enabled(Next(s, LoadTail), SeeHead)
    ensures var s2 := Next(Next(s, LoadTail), SeeHead);
            && Enabled(s2, Take) && Enabled(Next(s2, Take), StoreTail)
            && var s4 := Next(Next(s2, Take), StoreTail);
               && s.dequeued < s.enqueued && s4.dequeued == s.dequeued + [s.enqueued[|s.dequeued|]]
               && s4 == s.(tail := s4.tail, dequeued := s4.dequeued) && Inv(s4)
  {
    var s1 := Next(s, LoadTail);
    StepInv(s, LoadTail);
    HeadShowsItem(s1);
    StepInv(s1, SeeHead);
    var s2 := Next(s1, SeeHead);
    SlotOfCount(|s.dequeued|, |s.buffer|);
    TakeAfterSight(s2);
    TakeOutcome(s2);
    StepInv(s2, Take);
    StepInv(Next(s2, Take), StoreTail);
  }

  /** Left alone on a ring with room, `enqueue` appends its item and leaves every unread item in its place. */
  lemma EnqueueAlone<T>(s: Ring<T>, item: T, spin: bool)
    requires Inv(s) && s.producer.ProducerIdle? && |s.enqueued| - |s.dequeued| < |s.buffer|
    ensures Enabled(s, LoadHead(item)) && Enabled(Next(s, LoadHead(item)), SeeTail)
    ensures var s2 := Next(Next(s, LoadHead(item)), SeeTail);
            && Enabled(s2, Write(spin)) && Enabled(Next(s2, Write(spin)), StoreHead)
            && var s4 := Next(Next(s2, Write(spin)), StoreHead);
               && s4.enqueued == s.enqueued + [item]
               && s4 == s.(head := s4.head, buffer := s4.buffer, enqueued := s4.enqueued) && Inv(s4)
  {
    var s1 := Next(s, LoadHead(item));
    StepInv(s, LoadHead(item));
    TailShowsRoom(s1);
    StepInv(s1, SeeTail);
    var s2 := Next(s1, SeeTail);
    SlotOfCount(|s.enqueued|, |s.buffer|);
    WriteAfterSight(s2, spin, item);
    WriteOutcome(s2, spin);
    StepInv(s2, Write(spin));
    StepInv(Next(s2, Write(spin)), StoreHead);
  }
}

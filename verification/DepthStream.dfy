/** Depth-stream synchronisation: buffering, snapshot, replay, live events and gap recovery. */
module DepthStream {

  import opened Arith

  datatype MarketType = Spot | Futures

  /** `MarketUpdateData`; `isDepth` is its `kMarket` type. */
  datatype Event = Event(isDepth: bool, start: nat, end: nat, prevEnd: nat)

  datatype Validation = Validation(valid: bool, newIndex: nat)

  function Succ(id: nat): nat {
    (id + 1) % TWO_64
  }

  /** `validate_first_depth_after_snapshot` */
  function ValidateFirst(market: MarketType, start: nat, end: nat, snapshotId: nat): Validation {
    if (if market.Spot? then end <= snapshotId else end < snapshotId) then Validation(false, snapshotId)
    else
      var overlaps := start <= snapshotId && end >= snapshotId;
      var follows := start == Succ(snapshotId);
      if overlaps || follows then Validation(true, end) else Validation(false, snapshotId)
  }

  /** `validate_continuous_depth` */
  function ValidateContinuous(market: MarketType, start: nat, end: nat, prevEnd: nat, current: nat): Validation {
    var valid := if current == 0 then true
                 else if market.Futures? then prevEnd == current
                 else start == Succ(current);
    if valid then Validation(true, end) else Validation(false, current)
  }

  datatype StreamState = Running | AwaitingSnapshot | ApplyingSnapshot | Buffering

  /**
   * The consumer's fields. `delivered` lists the depth events handed to the engine since the last
   * applied snapshot, and `snapshotId` is that snapshot's id, or -1 before the first one.
   */
  datatype Stream = Stream(
    state: StreamState, updateIndex: nat, buffered: seq<Event>, firstBuffered: nat, firstDepth: bool, retries: nat,
    exited: bool, snapshotId: int, delivered: seq<Event>)

  const MAX_BUFFERED := 10
  const MAX_RETRIES := 3

  const INITIAL := Stream(AwaitingSnapshot, 0, [], 0, false, 0, false, -1, [])

  // ----- what each message does -----

  /** The state part of `handle_login`. */
  function Login(s: Stream): Stream {
    s.(state := Buffering, buffered := [], firstBuffered := 0)
  }

  /** `recover_from_gap_impl` */
  function Recover(s: Stream): Stream {
    if s.state.Buffering? then s else s.(state := Buffering, buffered := [], firstBuffered := 0)
  }

  /** `erase_buffer_lower_than_snapshot_impl`: drop the leading events the snapshot covers. */
  function Erased(buffer: seq<Event>, snapshotId: nat): (r: seq<Event>)
    ensures r != [] ==> r[0].end > snapshotId
  {
    if buffer != [] && buffer[0].end <= snapshotId then Erased(buffer[1..], snapshotId) else buffer
  }

  /** The erase drops exactly the leading events that end at or before the snapshot. */
  lemma {:induction false} ErasedIsSuffix(buffer: seq<Event>, snapshotId: nat) returns (n: nat)
    ensures n <= |buffer| && Erased(buffer, snapshotId) == buffer[n..]
    ensures forall i | 0 <= i < n :: buffer[i].end <= snapshotId
    ensures n < |buffer| ==> buffer[n].end > snapshotId
  {
    n := 0;
    if buffer != [] && buffer[0].end <= snapshotId {
      var m := ErasedIsSuffix(buffer[1..], snapshotId);
      n := m + 1;
      assert buffer[1..][m..] == buffer[n..];
      forall i | 0 <= i < n ensures buffer[i].end <= snapshotId {
        if i > 0 { assert buffer[i] == buffer[1..][i - 1]; }
      }
    }
  }

  /** The buffering branch of `handle_subscribe`. */
  function Buffer(s: Stream, e: Event): Stream {
    if !e.isDepth then s
    else
      var first := if s.firstBuffered == 0 then e.start else s.firstBuffered;
      if |s.buffered| >= MAX_BUFFERED then
        var kept := s.buffered[1..];
        s.(buffered := kept + [e], firstBuffered := if kept != [] then kept[0].start else first)
      else s.(buffered := s.buffered + [e], firstBuffered := first)
  }

  /** The validator a live or replayed event meets. */
  function Check(first: bool, e: Event, current: nat): Validation {
    if first then ValidateFirst(Spot, e.start, e.end, current)
    else ValidateContinuous(Spot, e.start, e.end, e.prevEnd, current)
  }

  /** `handle_subscribe` */
  function Subscribe(s: Stream, e: Event): Stream {
    if s.state.Buffering? then Buffer(s, e)
    else if !e.isDepth then s
    else
      var v := Check(s.firstDepth, e, s.updateIndex);
      if v.valid then s.(updateIndex := v.newIndex, firstDepth := false, delivered := s.delivered + [e])
      else Recover(s.(firstDepth := false))
  }

  /** How far the replay loop gets: the number of events it delivers, the index it reaches, and whether it finished. */
  datatype Replayed = Replayed(reached: nat, index: nat, complete: bool)

  /** The replay loop of `on_snapshot` from position `i` on. */
  function Replay(buffer: seq<Event>, i: nat, first: bool, index: nat): (r: Replayed)
    requires i <= |buffer|
    ensures i <= r.reached <= |buffer| && (r.complete <==> r.reached == |buffer|)
    decreases |buffer| - i
  {
    if i == |buffer| then Replayed(i, index, true)
    else
      var v := Check(first, buffer[i], index);
      if v.valid then Replay(buffer, i + 1, false, v.newIndex) else Replayed(i, index, false)
  }

  /** One more failed attempt: give up after the third, else carry on from `next`. */
  function Retry(s: Stream, next: Stream): Stream {
    if s.retries + 1 >= MAX_RETRIES then s.(retries := s.retries + 1, exited := true)
    else next.(retries := s.retries + 1)
  }

  /** The part of `on_snapshot` that applies a snapshot and replays what is left of the buffer. */
  function Apply(s: Stream, id: nat): Stream {
    var r := Replay(s.buffered, 0, true, id);
    var replayed := s.(state := ApplyingSnapshot, updateIndex := r.index, snapshotId := id,
                       delivered := s.buffered[..r.reached], buffered := []);
    if r.complete then replayed.(retries := 0, firstDepth := true, state := Running)
    else Retry(replayed, Recover(replayed))
  }

  /** `on_snapshot`, WebSocket branch; `granted` is false when the snapshot pool is exhausted. */
  function Snapshot(s: Stream, granted: bool, id: nat): Stream {
    if !granted then
      var emptied := s.(buffered := [], firstBuffered := 0);
      Retry(emptied, emptied)
    else if s.state.Buffering? then
      if id < s.firstBuffered then Retry(s, s)
      else Apply(s.(retries := 0, buffered := Erased(s.buffered, id)), id)
    else Apply(s, id)
  }

  datatype Message = OnLogin | OnSnapshot(granted: bool, id: nat) | OnSubscribe(event: Event)

  function Step(s: Stream, m: Message): Stream {
    if s.exited then s
    else match m
      case OnLogin => Login(s)
      case OnSnapshot(granted, id) => Snapshot(s, granted, id)
      case OnSubscribe(e) => Subscribe(s, e)
  }

  /** The state after the messages `ms`, oldest first. */
  function Run(ms: seq<Message>): Stream {
    if ms == [] then INITIAL else Step(Run(ms[..|ms| - 1]), ms[|ms| - 1])
  }

  // ----- coverage -----

  /** Ids the exchange sends: an event's range is not empty, and ids stay below the last 64-bit value. */
  ghost predicate WellFormed(m: Message) {
    match m
    case OnLogin => true
    case OnSnapshot(_, id) => id < TWO_64 - 1
    case OnSubscribe(e) => e.start <= e.end < TWO_64 - 1
  }

  ghost predicate EventOk(e: Event) {
    e.start <= e.end < TWO_64 - 1
  }

  ghost predicate Within(id: int, events: seq<Event>) {
    exists i :: 0 <= i < |events| && events[i].start <= id <= events[i].end
  }

  /** Every id after `lo`, up to `hi`, lies within one of the events. */
  ghost predicate Covered(lo: int, hi: int, events: seq<Event>) {
    forall id | lo < id <= hi :: Within(id, events)
  }

  lemma CoveredExtends(lo: int, hi: int, events: seq<Event>, e: Event, hi': int)
    requires Covered(lo, hi, events) && e.start <= hi + 1 && hi' <= e.end
    ensures Covered(lo, hi', events + [e])
  {
    var all := events + [e];
    forall id | lo < id <= hi' ensures Within(id, all) {
      if id <= hi {
        assert Within(id, events);
        var i :| 0 <= i < |events| && events[i].start <= id <= events[i].end;
        assert all[i] == events[i];
      } else {
        assert all[|events|] == e;
      }
    }
  }

  /** An accepted event starts no later than the next id and ends past the current one. */
  lemma AcceptedFollows(first: bool, e: Event, current: nat)
    requires EventOk(e) && 1 <= current < TWO_64 - 1 && Check(first, e, current).valid
    ensures e.start <= current + 1 && current < e.end == Check(first, e, current).newIndex < TWO_64 - 1
  {}

  /** What is true of the stream once a snapshot with a positive id is in place. */
  ghost predicate Synced(s: Stream) {
    && (s.snapshotId >= 1 ==>
          s.snapshotId <= s.updateIndex < TWO_64 - 1 && Covered(s.snapshotId, s.updateIndex, s.delivered))
    && (forall i | 0 <= i < |s.buffered| :: EventOk(s.buffered[i]))
  }

  lemma {:induction false} ReplayCovers(buffer: seq<Event>, i: nat, first: bool, index: nat, lo: int)
    requires i <= |buffer| && 1 <= lo <= index < TWO_64 - 1 && Covered(lo, index, buffer[..i])
    requires forall j | 0 <= j < |buffer| :: EventOk(buffer[j])
    ensures var r := Replay(buffer, i, first, index);
            index <= r.index < TWO_64 - 1 && Covered(lo, r.index, buffer[..r.reached])
    decreases |buffer| - i
  {
    if i < |buffer| && Check(first, buffer[i], index).valid {
      AcceptedFollows(first, buffer[i], index);
      CoveredExtends(lo, index, buffer[..i], buffer[i], buffer[i].end);
      assert buffer[..i] + [buffer[i]] == buffer[..i + 1];
      ReplayCovers(buffer, i + 1, false, buffer[i].end, lo);
    }
  }

  lemma ErasedKeepsOk(buffer: seq<Event>, id: nat)
    requires forall i | 0 <= i < |buffer| :: EventOk(buffer[i])
    ensures forall i | 0 <= i < |Erased(buffer, id)| :: EventOk(Erased(buffer, id)[i])
  {
    var n := ErasedIsSuffix(buffer, id);
  }

  lemma SnapshotCovers(buffer: seq<Event>, id: nat)
    requires 1 <= id < TWO_64 - 1 && forall i | 0 <= i < |buffer| :: EventOk(buffer[i])
    ensures var r := Replay(buffer, 0, true, id);
            id <= r.index < TWO_64 - 1 && Covered(id, r.index, buffer[..r.reached])
  {
    ReplayCovers(buffer, 0, true, id, id);
  }

  lemma SnapshotSynced(s: Stream, granted: bool, id: nat)
    requires Synced(s) && id < TWO_64 - 1
    ensures Synced(Snapshot(s, granted, id))
  {
    ErasedKeepsOk(s.buffered, id);
    if granted && !(s.state.Buffering? && id < s.firstBuffered) && id >= 1 {
      var buffer := if s.state.Buffering? then Erased(s.buffered, id) else s.buffered;
      SnapshotCovers(buffer, id);
    }
  }

  lemma SubscribeSynced(s: Stream, e: Event)
    requires Synced(s) && EventOk(e)
    ensures Synced(Subscribe(s, e))
  {
    if !s.state.Buffering? && e.isDepth && s.snapshotId >= 1 && Check(s.firstDepth, e, s.updateIndex).valid {
      AcceptedFollows(s.firstDepth, e, s.updateIndex);
      CoveredExtends(s.snapshotId, s.updateIndex, s.delivered, e, e.end);
    }
  }

  /**
   * At every point of every run, every id after the last snapshot's id, up to the current index,
   * lies within an event handed to the engine since that snapshot.
   */
  lemma {:induction false} RunSynced(ms: seq<Message>)
    requires forall i | 0 <= i < |ms| :: WellFormed(ms[i])
    ensures Synced(Run(ms))
  {
    if ms != [] {
      var before, m := Run(ms[..|ms| - 1]), ms[|ms| - 1];
      RunSynced(ms[..|ms| - 1]);
      assert WellFormed(m);
      match m
      case OnLogin =>
      case OnSnapshot(granted, id) => SnapshotSynced(before, granted, id);
      case OnSubscribe(e) => SubscribeSynced(before, e);
    }
  }

  /** Until the next snapshot is applied the index never goes back. */
  lemma IndexNeverDecreases(s: Stream, m: Message)
    requires Synced(s) && s.snapshotId >= 1 && WellFormed(m)
    requires m.OnSnapshot? ==> !m.granted || (s.state.Buffering? && m.id < s.firstBuffered)
    ensures Step(s, m).updateIndex >= s.updateIndex && Step(s, m).snapshotId == s.snapshotId
  {
    if m.OnSubscribe? && Check(s.firstDepth, m.event, s.updateIndex).valid {
      AcceptedFollows(s.firstDepth, m.event, s.updateIndex);
    }
  }

  /** An applied snapshot sets the index to its id and the replay only moves it on. */
  lemma SnapshotMovesOn(s: Stream, id: nat)
    requires Synced(s) && 1 <= id < TWO_64 - 1 && !(s.state.Buffering? && id < s.firstBuffered)
    ensures Snapshot(s, true, id).updateIndex >= id && Snapshot(s, true, id).snapshotId == id
  {
    ErasedKeepsOk(s.buffered, id);
    SnapshotCovers(if s.state.Buffering? then Erased(s.buffered, id) else s.buffered, id);
  }

  // ----- replay after contiguous buffering -----

  ghost predicate Contiguous(events: seq<Event>) {
    && (forall i | 0 <= i < |events| :: EventOk(events[i]) && events[i].isDepth)
    && forall i | 0 <= i < |events| - 1 :: events[i + 1].start == events[i].end + 1
  }

  /** The buffer is contiguous, bounded, and no older than its recorded first id. */
  ghost predicate BufferOk(s: Stream) {
    && s.state.Buffering? && !s.exited && Contiguous(s.buffered) && |s.buffered| <= MAX_BUFFERED
    && (s.buffered == [] ==> s.firstBuffered == 0)
    && (s.buffered != [] ==> s.firstBuffered >= s.buffered[0].start)
    && (s.buffered != [] && s.buffered[0].start >= 1 ==> s.firstBuffered == s.buffered[0].start)
  }

  /** The next depth event carries on where the buffer ends. */
  ghost predicate Continues(s: Stream, e: Event) {
    EventOk(e) && (e.isDepth && s.buffered != [] ==> e.start == s.buffered[|s.buffered| - 1].end + 1)
  }

  lemma SuffixContiguous(events: seq<Event>, n: nat)
    requires Contiguous(events) && n <= |events|
    ensures Contiguous(events[n..])
  {
    var rest := events[n..];
    forall i | 0 <= i < |rest| ensures rest[i] == events[n + i] {}
    forall i | 0 <= i < |rest| - 1 ensures rest[i + 1].start == rest[i].end + 1 {
      assert events[n + i + 1].start == events[n + i].end + 1;
    }
  }

  lemma AppendContiguous(events: seq<Event>, e: Event)
    requires Contiguous(events) && EventOk(e) && e.isDepth
    requires events != [] ==> e.start == events[|events| - 1].end + 1
    ensures Contiguous(events + [e])
  {
    var all := events + [e];
    forall i | 0 <= i < |all| - 1 ensures all[i + 1].start == all[i].end + 1 {
      if i + 1 < |events| { assert events[i + 1].start == events[i].end + 1; }
    }
  }

  /** Buffering keeps the buffer contiguous and its first id right, the eviction of the oldest event included. */
  lemma BufferKeepsOk(s: Stream, e: Event)
    requires BufferOk(s) && Continues(s, e)
    ensures BufferOk(Subscribe(s, e))
    ensures e.isDepth ==> Subscribe(s, e).buffered != [] && Subscribe(s, e).buffered[|Subscribe(s, e).buffered| - 1] == e
  {
    if e.isDepth {
      if |s.buffered| >= MAX_BUFFERED {
        SuffixContiguous(s.buffered, 1);
        assert s.buffered[1].start == s.buffered[0].end + 1;
        AppendContiguous(s.buffered[1..], e);
      } else {
        AppendContiguous(s.buffered, e);
      }
    }
  }

  lemma {:induction false} ContiguousReplay(buffer: seq<Event>, i: nat, index: nat)
    requires Contiguous(buffer) && 0 < i <= |buffer| && index == buffer[i - 1].end >= 1
    ensures Replay(buffer, i, false, index) == Replayed(|buffer|, buffer[|buffer| - 1].end, true)
    decreases |buffer| - i
  {
    if i < |buffer| {
      assert buffer[i].start == buffer[i - 1].end + 1;
      ContiguousReplay(buffer, i + 1, buffer[i].end);
    }
  }

  /** The first event left after the erase overlaps the snapshot or follows it at once. */
  lemma ErasedMeetsSnapshot(buffer: seq<Event>, id: nat)
    requires Contiguous(buffer) && id < TWO_64 - 1
    requires buffer != [] ==> buffer[0].start <= id
    ensures var r := Erased(buffer, id);
            && Contiguous(r)
            && (r != [] ==> id < r[0].end && Check(true, r[0], id).valid && r[|r| - 1] == buffer[|buffer| - 1])
  {
    var n := ErasedIsSuffix(buffer, id);
    SuffixContiguous(buffer, n);
    if 0 < n < |buffer| { assert buffer[n].start == buffer[n - 1].end + 1; }
  }

  lemma ReplayAfterErase(r: seq<Event>, id: nat)
    requires Contiguous(r) && id < TWO_64 - 1
    requires r != [] ==> id < r[0].end && Check(true, r[0], id).valid
    ensures Replay(r, 0, true, id) == Replayed(|r|, if r == [] then id else r[|r| - 1].end, true)
  {
    if r != [] { ContiguousReplay(r, 1, r[0].end); }
  }

  /**
   * If the events that arrived while buffering are contiguous and the snapshot is not too old, the
   * replay accepts every one of them and the stream runs.
   */
  lemma ContiguousBufferNeverGaps(s: Stream, id: nat)
    requires BufferOk(s) && id >= s.firstBuffered && id < TWO_64 - 1
    ensures var t := Snapshot(s, true, id);
            var r := Erased(s.buffered, id);
            && t.state == Running && !t.exited && t.retries == 0 && t.firstDepth && t.delivered == r
            && t.updateIndex == if r == [] then id else s.buffered[|s.buffered| - 1].end
  {
    ErasedMeetsSnapshot(s.buffered, id);
    ReplayAfterErase(Erased(s.buffered, id), id);
  }

  /** The run of a list of events through `handle_subscribe`. */
  function SubscribeAll(s: Stream, es: seq<Event>): Stream {
    if es == [] then s else Subscribe(SubscribeAll(s, es[..|es| - 1]), es[|es| - 1])
  }

  /** Each depth event starts right after the depth event before it, whatever else comes between. */
  ghost predicate ContiguousFrom(s: Stream, es: seq<Event>)
    decreases |es|
  {
    es == [] || (ContiguousFrom(s, es[..|es| - 1]) && Continues(SubscribeAll(s, es[..|es| - 1]), es[|es| - 1]))
  }

  lemma {:induction false} BufferingRunOk(s: Stream, es: seq<Event>)
    requires BufferOk(s) && ContiguousFrom(s, es)
    ensures BufferOk(SubscribeAll(s, es))
  {
    if es != [] {
      BufferingRunOk(s, es[..|es| - 1]);
      BufferKeepsOk(SubscribeAll(s, es[..|es| - 1]), es[|es| - 1]);
    }
  }

  /** From login, through any contiguous events, to a snapshot that is not too old: the stream runs. */
  lemma ResyncSucceeds(s: Stream, es: seq<Event>, id: nat)
    requires !s.exited && ContiguousFrom(Login(s), es)
    requires SubscribeAll(Login(s), es).firstBuffered <= id < TWO_64 - 1
    ensures Snapshot(SubscribeAll(Login(s), es), true, id).state == Running
  {
    BufferingRunOk(Login(s), es);
    ContiguousBufferNeverGaps(SubscribeAll(Login(s), es), id);
  }

  /**
   * A live event that opens a gap, then any contiguous events and a snapshot that is not too old: the stream runs
   * again.
   */
  lemma ResyncAfterGap(s: Stream, gap: Event, es: seq<Event>, id: nat)
    requires !s.exited && !s.state.Buffering? && gap.isDepth && !Check(s.firstDepth, gap, s.updateIndex).valid
    requires ContiguousFrom(Subscribe(s, gap), es) && SubscribeAll(Subscribe(s, gap), es).firstBuffered <= id < TWO_64 - 1
    ensures Snapshot(SubscribeAll(Subscribe(s, gap), es), true, id).state == Running
  {
    BufferingRunOk(Subscribe(s, gap), es);
    ContiguousBufferNeverGaps(SubscribeAll(Subscribe(s, gap), es), id);
  }

  // ----- the consumer itself -----

  class MarketConsumer {
    var state: StreamState
    var updateIndex: nat
    var buffered: seq<Event>
    var firstBuffered: nat
    var firstDepth: bool
    var retries: nat
    var exited: bool
    var snapshotId: int
    var delivered: seq<Event>

    ghost function Model(): (s: Stream)
      reads this
    {
      Stream(state, updateIndex, buffered, firstBuffered, firstDepth, retries, exited, snapshotId, delivered)
    }

    constructor ()
      ensures Model() == INITIAL
    {
      state, updateIndex, buffered, firstBuffered := AwaitingSnapshot, 0, [], 0;
      firstDepth, retries, exited, snapshotId, delivered := false, 0, false, -1, [];
    }

    method OnLogin()
      modifies this
      ensures Model() == Login(old(Model()))
    {
      state := Buffering;
      buffered := [];
      firstBuffered := 0;
    }

    method RecoverFromGap()
      modifies this
      ensures Model() == Recover(old(Model()))
    {
      if state == Buffering {
        return;
      }
      state := Buffering;
      buffered := [];
      firstBuffered := 0;
    }

    method EraseBufferLowerThan(id: nat)
      modifies this`buffered
      ensures buffered == Erased(old(buffered), id)
    {
      while buffered != []
        invariant Erased(buffered, id) == Erased(old(buffered), id)
        decreases |buffered|
      {
        if buffered[0].end <= id {
          buffered := buffered[1..];
        } else {
          break;
        }
      }
    }

    method OnSubscribe(e: Event)
      modifies this
      ensures Model() == Subscribe(old(Model()), e)
    {
      if state == Buffering {
        if !e.isDepth {
          return;
        }
        if firstBuffered == 0 {
          firstBuffered := e.start;
        }
        if |buffered| >= MAX_BUFFERED {
          buffered := buffered[1..];
          if buffered != [] {
            firstBuffered := buffered[0].start;
          }
        }
        buffered := buffered + [e];
        return;
      }
      if e.isDepth {
        var v;
        if firstDepth {
          v := ValidateFirst(Spot, e.start, e.end, updateIndex);
          firstDepth := false;
        } else {
          v := ValidateContinuous(Spot, e.start, e.end, e.prevEnd, updateIndex);
        }
        if !v.valid {
          RecoverFromGap();
          return;
        }
        updateIndex := v.newIndex;
        delivered := delivered + [e];
      }
    }

    /** The replay loop of `on_snapshot`; `ok` is false when it stops at a gap. */
    method ReplayBuffer() returns (ok: bool)
      modifies this`updateIndex, this`delivered
      ensures var r := Replay(buffered, 0, true, old(updateIndex));
              ok == r.complete && updateIndex == r.index && delivered == old(delivered) + buffered[..r.reached]
    {
      var first, i := true, 0;
      while i < |buffered|
        invariant 0 <= i <= |buffered|
        invariant Replay(buffered, i, first, updateIndex) == Replay(buffered, 0, true, old(updateIndex))
        invariant delivered == old(delivered) + buffered[..i]
      {
        var e := buffered[i];
        var v;
        if first {
          v := ValidateFirst(Spot, e.start, e.end, updateIndex);
          first := false;
        } else {
          v := ValidateContinuous(Spot, e.start, e.end, e.prevEnd, updateIndex);
        }
        if !v.valid {
          return false;
        }
        updateIndex := v.newIndex;
        delivered := delivered + [e];
        i := i + 1;
      }
      ok := true;
    }

    /** `++retry_count_ >= kMaxRetries`, then `std::exit`. */
    method CountRetry()
      modifies this`retries, this`exited
      ensures retries == old(retries) + 1
      ensures exited == (old(exited) || retries >= MAX_RETRIES)
    {
      retries := retries + 1;
      if retries >= MAX_RETRIES {
        exited := true;
      }
    }

    method OnSnapshot(granted: bool, id: nat)
      requires !exited
      modifies this
      ensures Model() == Snapshot(old(Model()), granted, id)
    {
      if !granted {
        buffered := [];
        firstBuffered := 0;
        CountRetry();
        return;
      }
      if state == Buffering {
        if id < firstBuffered {
          CountRetry();
          return;
        }
        retries := 0;
        EraseBufferLowerThan(id);
      }
      ApplySnapshot(id);
    }

    method ApplySnapshot(id: nat)
      requires !exited
      modifies this
      ensures Model() == Apply(old(Model()), id)
    {
      state := ApplyingSnapshot;
      updateIndex := id;
      snapshotId := id;
      delivered := [];
      var ok := ReplayBuffer();
      buffered := [];
      if !ok {
        CountRetry();
        if !exited {
          RecoverFromGap();
        }
        return;
      }
      retries := 0;
      firstDepth := true;
      state := Running;
    }
  }
}

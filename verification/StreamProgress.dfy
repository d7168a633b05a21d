/** Which depth events are accepted, that a running stream keeps up, and when the consumer gives up. */
module StreamProgress {
  import opened Arith
  import opened DepthStream

  // ----- validation -----

  /**
   * The first event after a snapshot is accepted exactly when it reaches past it and starts no later than right after
   * it.
   */
  lemma FirstAcceptedIff(market: MarketType, e: Event, id: nat)
    requires EventOk(e) && id < TWO_64 - 1
    ensures ValidateFirst(market, e.start, e.end, id).valid
       <==> e.start <= id + 1 && (if market.Spot? then e.end > id else e.end >= id)
    ensures ValidateFirst(market, e.start, e.end, id).newIndex
         == if ValidateFirst(market, e.start, e.end, id).valid then e.end else id
  {
  }

  /**
   * A later event is accepted exactly when it follows at once: by its first id on Spot, by its predecessor's last id
   * on Futures.
   */
  lemma NextAcceptedIff(market: MarketType, e: Event, current: nat)
    requires EventOk(e) && current < TWO_64 - 1
    ensures ValidateContinuous(market, e.start, e.end, e.prevEnd, current).valid
       <==> current == 0 || (if market.Spot? then e.start == current + 1 else e.prevEnd == current)
    ensures ValidateContinuous(market, e.start, e.end, e.prevEnd, current).newIndex
         == if ValidateContinuous(market, e.start, e.end, e.prevEnd, current).valid then e.end else current
  {
  }

  // ----- a running stream -----

  /** The depth events among `es`. */
  function Depths(es: seq<Event>): seq<Event> {
    if es == [] then []
    else Depths(es[..|es| - 1]) + if es[|es| - 1].isDepth then [es[|es| - 1]] else []
  }

  /** The id the last depth event of `es` ends at, or `from`. */
  function EndOf(es: seq<Event>, from: nat): nat {
    if es == [] then from else if es[|es| - 1].isDepth then es[|es| - 1].end else EndOf(es[..|es| - 1], from)
  }

  /** Each depth event starts right after the one before it, the first right after `from`. */
  ghost predicate Follow(es: seq<Event>, from: nat)
    decreases |es|
  {
    es == [] ||
      (&& Follow(es[..|es| - 1], from) && EventOk(es[|es| - 1])
       && (es[|es| - 1].isDepth ==> es[|es| - 1].start == EndOf(es[..|es| - 1], from) + 1))
  }

  lemma {:induction false} EndInRange(es: seq<Event>, from: nat)
    requires Follow(es, from) && from < TWO_64 - 1
    ensures EndOf(es, from) < TWO_64 - 1
  {
    if es != [] { EndInRange(es[..|es| - 1], from); }
  }

  lemma NextDelivered(s: Stream, e: Event)
    requires !s.state.Buffering? && EventOk(e) && e.isDepth && e.start == s.updateIndex + 1 < TWO_64
    ensures Subscribe(s, e) == s.(updateIndex := e.end, firstDepth := false, delivered := s.delivered + [e])
  {
  }

  /** A running stream hands on every event of a gapless sequence, in order, and keeps running. */
  lemma {:induction false} RunningKeepsUp(s: Stream, es: seq<Event>)
    requires !s.state.Buffering? && s.updateIndex < TWO_64 - 1 && Follow(es, s.updateIndex)
    ensures var t := SubscribeAll(s, es);
            && t.state == s.state && t.delivered == s.delivered + Depths(es) && t.updateIndex == EndOf(es, s.updateIndex)
            && t.exited == s.exited && t.buffered == s.buffered
    decreases |es|
  {
    if es != [] {
      var before, e := es[..|es| - 1], es[|es| - 1];
      RunningKeepsUp(s, before);
      EndInRange(before, s.updateIndex);
      if e.isDepth { NextDelivered(SubscribeAll(s, before), e); }
    }
  }

  /** An event that is not accepted is not handed on; the stream starts to buffer afresh. */
  lemma GapStartsBuffering(s: Stream, e: Event)
    requires !s.state.Buffering? && !s.exited && e.isDepth && !Check(s.firstDepth, e, s.updateIndex).valid
    ensures var t := Subscribe(s, e);
            BufferOk(t) && t.buffered == [] && t.delivered == s.delivered && t.updateIndex == s.updateIndex
  {
  }

  function LastTen(es: seq<Event>): seq<Event> {
    if |es| > 10 then es[|es| - 10..] else es
  }

  /** While it buffers, the stream holds exactly the ten latest depth events and hands on none. */
  lemma {:induction false} BufferHoldsLatestTen(s: Stream, es: seq<Event>)
    requires s.state.Buffering? && s.buffered == []
    ensures var t := SubscribeAll(s, es);
            && t.state.Buffering? && t.buffered == LastTen(Depths(es)) && t.delivered == s.delivered
            && t.updateIndex == s.updateIndex
    decreases |es|
  {
    if es != [] { BufferHoldsLatestTen(s, es[..|es| - 1]); }
  }

  // ----- giving up -----

  /** The snapshot could not be stored, or is older than the first buffered event. */
  predicate Useless(s: Stream, granted: bool, id: nat) {
    !granted || (s.state.Buffering? && id < s.firstBuffered)
  }

  /** A useless snapshot is one more failed attempt, and nothing is applied; the third in a row ends the consumer. */
  lemma UselessOutcome(s: Stream, granted: bool, id: nat)
    requires Useless(s, granted, id) && !s.exited
    ensures var t := Snapshot(s, granted, id);
            && t.retries == s.retries + 1 && (t.exited <==> t.retries >= 3)
            && t.state == s.state && t.updateIndex == s.updateIndex && t.delivered == s.delivered
            && (granted ==> t.buffered == s.buffered && t.firstBuffered == s.firstBuffered)
  {
  }

  /** A usable snapshot that the replay completes sets the stream running with no failed attempt counted. */
  lemma AppliedOutcome(s: Stream, id: nat)
    requires s.state.Buffering? && !s.exited && id >= s.firstBuffered && Replay(Erased(s.buffered, id), 0, true, id).complete
    ensures var t := Snapshot(s, true, id);
            && t.state == Running && t.retries == 0 && t.firstDepth && !t.exited && t.buffered == []
            && t.delivered == Erased(s.buffered, id)
  {
  }

  /**
   * A gap in the replay starts the buffering again from nothing and counts as the first failed attempt, whatever came
   * before.
   */
  lemma ReplayGapOutcome(s: Stream, id: nat)
    requires s.state.Buffering? && !s.exited && id >= s.firstBuffered && !Replay(Erased(s.buffered, id), 0, true, id).complete
    ensures var t := Snapshot(s, true, id);
            BufferOk(t) && t.buffered == [] && t.retries == 1 && t.delivered < Erased(s.buffered, id)
  {
  }

  /** Only a buffering stream holds events, and an attempt is counted only up to the third. */
  ghost predicate Orderly(s: Stream) {
    (!s.state.Buffering? ==> s.buffered == []) && (!s.exited ==> s.retries < 3)
  }

  lemma {:induction false} RunOrderly(ms: seq<Message>)
    ensures Orderly(Run(ms))
  {
    if ms != [] { RunOrderly(ms[..|ms| - 1]); }
  }

  /**
   * In every run the consumer gives up exactly on a useless snapshot after two failed attempts. Gaps in the replay never
   * add up to that: the count starts again at every usable snapshot.
   */
  lemma GivesUpIff(ms: seq<Message>, m: Message)
    requires !Run(ms).exited
    ensures var s := Run(ms);
            Step(s, m).exited <==> m.OnSnapshot? && Useless(s, m.granted, m.id) && s.retries == 2
  {
    RunOrderly(ms);
  }

  const BEFORE_GAP := Event(true, 5, 6, 4)
  const AFTER_GAP := Event(true, 9, 10, 8)

  /** Two events with a gap between them, then a snapshot. */
  function GapRound(s: Stream): Stream {
    Snapshot(Subscribe(Subscribe(s, BEFORE_GAP), AFTER_GAP), true, 5)
  }

  function GapRounds(n: nat): Stream {
    if n == 0 then Login(INITIAL) else GapRound(GapRounds(n - 1))
  }

  ghost predicate StartsOver(s: Stream) {
    s.state == Buffering && s.buffered == [] && s.firstBuffered == 0 && !s.exited && s.retries <= 1
  }

  lemma GapRoundStartsOver(s: Stream)
    requires StartsOver(s)
    ensures StartsOver(GapRound(s))
  {
    var t := Subscribe(Subscribe(s, BEFORE_GAP), AFTER_GAP);
    assert t.buffered == [BEFORE_GAP, AFTER_GAP] && t.firstBuffered == 5;
    assert Erased(t.buffered, 5) == t.buffered;
    assert Replay(t.buffered, 1, false, 6) == Replayed(1, 6, false);
    ReplayGapOutcome(t, 5);
  }

  /** However often the replay fails on a gap, the consumer does not give up. */
  lemma {:induction false} GapsNeverAddUp(n: nat)
    ensures StartsOver(GapRounds(n))
  {
    if n > 0 {
      GapsNeverAddUp(n - 1);
      GapRoundStartsOver(GapRounds(n - 1));
    }
  }
}

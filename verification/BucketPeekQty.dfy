/** `peek_qty`: the depth query that fills the caller's spans, here as the spans' contents. */
module BucketPeekQty {
  import opened Bits
  import opened Bitmap
  import opened BookSpec
  import opened BucketBook
  import opened BucketPeek

  /** The contents of `qty_out` and `idx_out`; the index span may be empty. */
  datatype Spans = Spans(qty: seq<int>, idx: seq<int>)

  /** The spans have room for `want` entries. */
  predicate Roomy(s: Spans, want: nat) {
    want <= |s.qty| && (|s.idx| == 0 || want <= |s.idx|)
  }

  /** The first `|out|` entries show the levels `out`; the entries after them are as in `s0`. */
  ghost predicate Shows(levels: map<int, int>, s0: Spans, s: Spans, out: seq<int>) {
    && |s.qty| == |s0.qty| && |s.idx| == |s0.idx| && Roomy(s, |out|)
    && (forall i | 0 <= i < |out| :: out[i] in levels && s.qty[i] == levels[out[i]])
    && (|s.idx| != 0 ==> s.idx[..|out|] == out)
    && (forall i | |out| <= i < |s.qty| :: s.qty[i] == s0.qty[i])
    && (forall i | |out| <= i < |s.idx| :: s.idx[i] == s0.idx[i])
  }

  ghost predicate Filled(dir: Dir, levels: map<int, int>, s0: Spans, s: Spans, out: seq<int>, f: int) {
    Shows(levels, s0, s, out) && Consumed(dir, levels, out, f)
  }

  /** `push_if_active`; a set bit stands for an active level, so an entry is always written. */
  method PushQty(dir: Dir, buckets: seq<Slot>, b: nat, off: nat, spans: Spans, filled: nat, want: nat,
                 ghost s0: Spans, ghost f: int, ghost out0: seq<int>)
    returns (s: Spans, n: nat, full: bool, ghost out: seq<int>)
    requires b < |buckets| && buckets[b].Ptr? && off < 4096 && |buckets[b].bucket.orders| == 4096
    requires Filled(dir, Levels(buckets), s0, spans, out0, f) && filled == |out0| < want && Roomy(spans, want)
    requires IsNextLevel(dir, Levels(buckets), f, 4096 * b + off)
    ensures Filled(dir, Levels(buckets), s0, s, out, 4096 * b + off) && Roomy(s, want)
    ensures n == |out| == filled + 1 && full == (n >= want)
  {
    LevelInBucket(buckets, b, off);
    s, n, out := spans, filled, out0;
    var q := buckets[b].bucket.orders[off];
    if q > 0 {
      Append(dir, Levels(buckets), out0, f, 4096 * b + off);
      s := s.(qty := s.qty[filled := q]);
      if s.idx != [] {
        s := s.(idx := s.idx[filled := b * 4096 + off]);
      }
      n := filled + 1;
      out := out0 + [4096 * b + off];
    }
    full := n >= want;
  }

  ghost predicate ScanningQty(dir: Dir, levels: map<int, int>, b: int, w: int, word: Word, s0: Spans, s: Spans,
                              out: seq<int>, f: int)
  {
    && Remaining(dir, levels, b, w, word, f)
    && Reached(dir, WordStart(dir, b, w), f) && Reached(dir, f, WordEnd(dir, b, w))
    && Filled(dir, levels, s0, s, out, f)
  }

  /** One iteration of `scan_word` with `push_if_active` as its callback. */
  method ScanBitQty(dir: Dir, buckets: seq<Slot>, b: nat, w: nat, word: Word, spans: Spans, filled: nat, want: nat,
                    ghost s0: Spans, ghost f: int, ghost out0: seq<int>)
    returns (rest: Word, s: Spans, n: nat, full: bool, ghost g: int, ghost out: seq<int>)
    requires b < |buckets| && buckets[b].Ptr? && |buckets[b].bucket.orders| == 4096 && w < 64
    requires ScanningQty(dir, Levels(buckets), b, w, word, s0, spans, out0, f) && word != 0
    requires filled == |out0| < want && Roomy(spans, want)
    ensures ScanningQty(dir, Levels(buckets), b, w, rest, s0, s, out, g) && rest < word && Roomy(s, want)
    ensures n == |out| == filled + 1 && full == (n >= want)
  {
    var off := w * 64 + FindBit(dir, word);
    g := 4096 * b + off;
    FirstBitIsNext(dir, Levels(buckets), b, w, word, f, g);
    AfterDrop(dir, Levels(buckets), b, w, word, f, g);
    s, n, full, out := PushQty(dir, buckets, b, off, spans, filled, want, s0, f, out0);
    rest := DropFirst(dir, word);
  }

  method ScanWordQty(dir: Dir, buckets: seq<Slot>, b: nat, w: nat, word0: Word, spans: Spans, filled: nat, want: nat,
                     ghost s0: Spans, ghost f0: int, ghost out0: seq<int>)
    returns (s: Spans, n: nat, full: bool, ghost f: int, ghost out: seq<int>)
    requires b < |buckets| && buckets[b].Ptr? && |buckets[b].bucket.orders| == 4096 && w < 64
    requires ScanningQty(dir, Levels(buckets), b, w, word0, s0, spans, out0, f0)
    requires filled == |out0| < want && Roomy(spans, want)
    ensures Filled(dir, Levels(buckets), s0, s, out, f) && Roomy(s, want)
    ensures n == |out| && (full ==> n == want)
    ensures !full ==> n < want && f == WordEnd(dir, b, w)
  {
    var word := word0;
    s, n, f, out, full := spans, filled, f0, out0, false;
    while word != 0
      invariant ScanningQty(dir, Levels(buckets), b, w, word, s0, s, out, f)
      invariant n == |out| < want && Roomy(s, want)
      decreases word
    {
      word, s, n, full, f, out := ScanBitQty(dir, buckets, b, w, word, s, n, want, s0, f, out);
      if full { return; }
    }
    WordDone(dir, Levels(buckets), out, b, w, word, f);
    f := WordEnd(dir, b, w);
  }

  /** The word loops of `consume_following_words` and of the full-bucket step. */
  method ScanWordsQty(dir: Dir, buckets: seq<Slot>, ghost summary: seq<Word>, b: nat, w0: int, spans: Spans, filled: nat,
                      want: nat, ghost s0: Spans, ghost out0: seq<int>)
    returns (s: Spans, n: nat, full: bool, ghost f: int, ghost out: seq<int>)
    requires RepOk(buckets, summary) && b < |buckets| && buckets[b].Ptr?
    requires if dir.Highest? then -1 <= w0 < 64 else 0 <= w0 <= 64
    requires Filled(dir, Levels(buckets), s0, spans, out0, WordStart(dir, b, w0))
    requires filled == |out0| < want && Roomy(spans, want)
    ensures Filled(dir, Levels(buckets), s0, s, out, f) && Roomy(s, want)
    ensures n == |out| && (full ==> n == want)
    ensures !full ==> n < want && f == WordEnd(dir, b, if dir.Highest? then 0 else 63)
  {
    s, n, full, f, out := spans, filled, false, WordStart(dir, b, w0), out0;
    var w := w0;
    while if dir.Highest? then w >= 0 else w < 64
      invariant if dir.Highest? then -1 <= w < 64 else 0 <= w <= 64
      invariant n == |out| < want && Roomy(s, want) && f == WordStart(dir, b, w)
      invariant Filled(dir, Levels(buckets), s0, s, out, f)
      decreases if dir.Highest? then w else 64 - w
    {
      WholeWordRemains(dir, buckets, summary, b, w);
      s, n, full, f, out := ScanWordQty(dir, buckets, b, w, buckets[b].bucket.bitmap[w], s, n, want, s0, f, out);
      if full { return; }
      FollowingWord(dir, Levels(buckets), out, b, w);
      w := NextWord(dir, w);
      f := WordStart(dir, b, w);
    }
    EndOfBucket(dir, Levels(buckets), out, b, w);
    f := WordEnd(dir, b, if dir.Highest? then 0 else 63);
  }

  /** `consume_bucket_side`: the masked first word, then the following words. */
  method ScanAfterQty(dir: Dir, buckets: seq<Slot>, ghost summary: seq<Word>, start: nat, spans: Spans, filled: nat,
                      want: nat, ghost s0: Spans, ghost out0: seq<int>)
    returns (s: Spans, n: nat, full: bool, ghost f: int, ghost out: seq<int>)
    requires RepOk(buckets, summary) && start < 4096 * |buckets| && buckets[start / 4096].Ptr?
    requires Filled(dir, Levels(buckets), s0, spans, out0, start) && filled == |out0| < want && Roomy(spans, want)
    ensures Filled(dir, Levels(buckets), s0, s, out, f) && Roomy(s, want)
    ensures n == |out| && (full ==> n == want)
    ensures !full ==> n < want && f == WordEnd(dir, start / 4096, if dir.Highest? then 0 else 63)
  {
    var b, w := start / 4096, start % 4096 / 64;
    assert BucketOk(buckets[b].bucket);
    var masked := Intersect(buckets[b].bucket.bitmap[w], MakeMask(dir, start % 64));
    MaskedWordRemains(dir, buckets, summary, start, masked);
    assert start == 4096 * b + 64 * w + start % 64;
    s, n, full, f, out := ScanWordQty(dir, buckets, b, w, masked, spans, filled, want, s0, start, out0);
    if !full {
      FollowingWord(dir, Levels(buckets), out, b, w);
      s, n, full, f, out := ScanWordsQty(dir, buckets, summary, b, NextWord(dir, w), s, n, want, s0, out);
    }
  }

  /** The jump loop of `peek_qty`. */
  method ScanBucketsQty(dir: Dir, buckets: seq<Slot>, summary: seq<Word>, b0: nat, spans: Spans, filled: nat, want: nat,
                        ghost s0: Spans, ghost out0: seq<int>)
    returns (s: Spans, n: nat, ghost out: seq<int>)
    requires RepOk(buckets, summary) && b0 < |buckets| && filled == |out0| < want && Roomy(spans, want)
    requires Filled(dir, Levels(buckets), s0, spans, out0, WordEnd(dir, b0, if dir.Highest? then 0 else 63))
    ensures n == |out| && Shows(Levels(buckets), s0, s, out)
    ensures IsTop(dir, Levels(buckets), out, want)
  {
    s, n, out := spans, filled, out0;
    var b := b0;
    ghost var f;
    var full;
    while n < want
      invariant 0 <= b < |buckets| && n == |out| <= want && Roomy(s, want)
      invariant n < want ==>
                  Filled(dir, Levels(buckets), s0, s, out, WordEnd(dir, b, if dir.Highest? then 0 else 63))
      invariant n == want ==> Shows(Levels(buckets), s0, s, out) && IsTop(dir, Levels(buckets), out, want)
      decreases n < want, if dir.Highest? then b else |buckets| - b
    {
      var nb := SearchFrom(dir, summary, b);
      if nb < 0 {
        NoMoreBuckets(dir, buckets, summary, b);
        TopWhenExhausted(dir, Levels(buckets), out, WordEnd(dir, b, if dir.Highest? then 0 else 63), want);
        return;
      }
      JumpBucket(dir, buckets, summary, out, b, nb);
      b := nb;
      s, n, full, f, out := ScanWordsQty(dir, buckets, summary, b, if dir.Highest? then 63 else 0, s, n, want, s0, out);
      if full { TopWhenFull(dir, Levels(buckets), out, f, want); }
    }
  }

  /** `peek_qty` once the best index is known. */
  method PeekQtyFrom(dir: Dir, buckets: seq<Slot>, summary: seq<Word>, best: nat, spans: Spans, want: nat)
    returns (s: Spans, n: nat, ghost out: seq<int>)
    requires RepOk(buckets, summary) && IsBest(dir, Levels(buckets), best) && best < 4096 * |buckets|
    requires 0 < want && Roomy(spans, want)
    ensures n == |out| && Shows(Levels(buckets), spans, s, out)
    ensures IsTop(dir, Levels(buckets), out, want)
  {
    ActiveLevel(buckets, summary, best);
    LevelAt(buckets, best);
    s := spans.(qty := spans.qty[0 := QtyAt(buckets, best)]);
    if s.idx != [] {
      s := s.(idx := s.idx[0 := best]);
    }
    n, out := 1, [best];
    StartAtBest(dir, Levels(buckets), best);
    assert Filled(dir, Levels(buckets), spans, s, out, best);
    if n >= want {
      TopWhenFull(dir, Levels(buckets), out, best, want);
      return;
    }
    var full;
    ghost var f;
    s, n, full, f, out := ScanAfterQty(dir, buckets, summary, best, s, n, want, spans, out);
    if full {
      TopWhenFull(dir, Levels(buckets), out, f, want);
    } else {
      s, n, out := ScanBucketsQty(dir, buckets, summary, best / 4096, s, n, want, spans, out);
    }
  }

  /** `peek_qty`: -1 when nothing is asked for or the side is empty, else the number of entries filled. */
  method PeekQty(side: BucketSide, level: int, spans: Spans) returns (r: int, s: Spans, ghost out: seq<int>)
    requires side.Valid()
    requires |spans.idx| == 0 || level <= |spans.idx| || |spans.qty| <= |spans.idx|
    modifies side`cached
    ensures side.Valid() && side.Abs().levels == old(side.Abs().levels)
    ensures r == -1 <==> level <= 0 || |spans.qty| == 0 || side.Abs().levels == map[]
    ensures r == -1 ==> s == spans
    ensures r != -1 ==>
              && r == |out| && Shows(side.Abs().levels, spans, s, out)
              && IsTop(side.dir, side.Abs().levels, out, if level <= |spans.qty| then level else |spans.qty|)
  {
    var want := if level <= |spans.qty| then level else |spans.qty|;
    if want <= 0 {
      return -1, spans, [];
    }
    var best := side.FreshBest();
    if best < 0 {
      return -1, spans, [];
    }
    s, r, out := PeekQtyFrom(side.dir, side.buckets, side.summary, best, spans, want);
  }

  /**
   * The three queries report the same list for the same book and level, and it has as many
   * entries as were asked for or as there are active levels, whichever is smaller.
   */
  lemma PeeksAgree(dir: Dir, levels: map<int, int>, minPrice: int, level: nat, plain: seq<int>, views: seq<LevelView>,
                   s0: Spans, s: Spans, out: seq<int>)
    requires IsTop(dir, levels, plain, level)
    requires IsTop(dir, levels, Indices(views), level) && Exact(levels, minPrice, views)
    requires IsTop(dir, levels, out, level) && Shows(levels, s0, s, out)
    ensures plain == Indices(views) == out
    ensures |plain| == if level <= |levels| then level else |levels|
    ensures forall i | 0 <= i < |plain| :: views[i].qty == s.qty[i] == levels[plain[i]]
    ensures s.idx != [] ==> s.idx[..|plain|] == plain
  {
    TopIsUnique(dir, levels, plain, Indices(views), level);
    TopIsUnique(dir, levels, plain, out, level);
    TopLength(dir, levels, plain, level);
  }
}

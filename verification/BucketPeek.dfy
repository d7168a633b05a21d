/** The three depth queries of the bucket book, and why they report the same levels. */
module BucketPeek {
  import opened Arith
  import opened Bits
  import opened Bitmap
  import opened BookSpec
  import opened BucketBook

  /** The indices of `out` are in strict price priority. */
  ghost predicate Ordered(dir: Dir, out: seq<int>) {
    forall i, j | 0 <= i < j < |out| :: dir.Better(out[i], out[j])
  }

  /** `x` is at `f` or ahead of it. */
  predicate Reached(dir: Dir, x: int, f: int) {
    x == f || dir.Better(x, f)
  }

  /** `out` lists, in priority order, exactly the active levels at or ahead of `f`. */
  ghost predicate Consumed(dir: Dir, levels: map<int, int>, out: seq<int>, f: int) {
    Ordered(dir, out) && forall x :: x in out <==> x in levels && Reached(dir, x, f)
  }

  /** `out` lists, in priority order, the first `k` active levels, or all of them when there are fewer. */
  ghost predicate IsTop(dir: Dir, levels: map<int, int>, out: seq<int>, k: nat) {
    && Ordered(dir, out)
    && (forall x | x in out :: x in levels)
    && (forall x, y | x in out && y in levels && y !in out :: dir.Better(x, y))
    && |out| <= k
    && (|out| == k || forall x | x in levels :: x in out)
  }

  lemma TopWhenFull(dir: Dir, levels: map<int, int>, out: seq<int>, f: int, k: nat)
    requires Consumed(dir, levels, out, f) && |out| == k
    ensures IsTop(dir, levels, out, k)
  {}

  lemma TopWhenExhausted(dir: Dir, levels: map<int, int>, out: seq<int>, f: int, k: nat)
    requires Consumed(dir, levels, out, f) && |out| <= k
    requires forall x | x in levels :: !dir.Better(f, x)
    ensures IsTop(dir, levels, out, k)
  {}

  lemma TopOfEmpty(dir: Dir, k: nat)
    ensures IsTop(dir, map[], [], k)
  {}

  /** Taking the next active level extends the list by it. */
  lemma Append(dir: Dir, levels: map<int, int>, out: seq<int>, f: int, x: int)
    requires Consumed(dir, levels, out, f) && x != -1 && IsNextLevel(dir, levels, f, x)
    ensures Consumed(dir, levels, out + [x], x)
  {
    forall y ensures y in out + [x] <==> y in levels && Reached(dir, y, x) {
      assert y in out + [x] <==> y in out || y == x;
    }
    forall i, j | 0 <= i < j < |out + [x]| ensures dir.Better((out + [x])[i], (out + [x])[j]) {
      if j == |out| { assert out[i] in out; }
    }
  }

  /** Moving the frontier over a stretch with no active level changes nothing. */
  lemma Advance(dir: Dir, levels: map<int, int>, out: seq<int>, f: int, g: int)
    requires Consumed(dir, levels, out, f) && Reached(dir, f, g)
    requires forall x | x in levels && dir.Better(f, x) :: !Reached(dir, x, g)
    ensures Consumed(dir, levels, out, g)
  {}

  lemma StartAtBest(dir: Dir, levels: map<int, int>, b: int)
    requires b != -1 && IsBest(dir, levels, b)
    ensures Consumed(dir, levels, [b], b)
  {}

  lemma {:induction false} OrderedLength(dir: Dir, out: seq<int>)
    requires Ordered(dir, out)
    ensures |set x | x in out| == |out|
  {
    if out != [] {
      var rest := out[..|out| - 1];
      OrderedLength(dir, rest);
      var last := out[|out| - 1];
      assert last !in rest;
      assert (set x | x in out) == (set x | x in rest) + {last};
    } else {
      assert (set x | x in out) == {};
    }
  }

  /** The list has the requested length, or the number of active levels when that is smaller. */
  lemma TopLength(dir: Dir, levels: map<int, int>, out: seq<int>, k: nat)
    requires IsTop(dir, levels, out, k)
    ensures |out| == if k <= |levels| then k else |levels|
  {
    OrderedLength(dir, out);
    var s := set x | x in out;
    assert s <= levels.Keys;
    SubsetSize(s, levels.Keys);
    if |out| < k {
      forall x | x in levels.Keys ensures x in s { assert x in out; }
      SubsetSize(levels.Keys, s);
    }
  }

  lemma SubsetSize(a: set<int>, b: set<int>)
    requires a <= b
    ensures |a| <= |b|
  {
    assert b == a + (b - a);
  }

  /** The entry at position `n` is the best level not listed before it. */
  lemma NthOfTop(dir: Dir, levels: map<int, int>, out: seq<int>, k: nat, n: nat)
    requires IsTop(dir, levels, out, k) && n < |out|
    ensures out[n] in levels && out[n] !in out[..n]
    ensures forall y | y in levels && y !in out[..n] :: y == out[n] || dir.Better(out[n], y)
  {
    assert out[n] in out;
    forall j | 0 <= j < n ensures out[j] in out[..n] { assert out[..n][j] == out[j]; }
    forall y | y in levels && y !in out[..n] ensures y == out[n] || dir.Better(out[n], y) {
      if y in out { var j :| 0 <= j < |out| && out[j] == y; }
    }
  }

  lemma {:induction false} SamePrefix(dir: Dir, levels: map<int, int>, a: seq<int>, b: seq<int>, k: nat, n: nat)
    requires IsTop(dir, levels, a, k) && IsTop(dir, levels, b, k)
    requires n <= |a| && n <= |b|
    ensures a[..n] == b[..n]
  {
    if n > 0 {
      SamePrefix(dir, levels, a, b, k, n - 1);
      NthOfTop(dir, levels, a, k, n - 1);
      NthOfTop(dir, levels, b, k, n - 1);
      assert a[..n] == a[..n - 1] + [a[n - 1]];
      assert b[..n] == b[..n - 1] + [b[n - 1]];
    }
  }

  /** There is one list of top levels: any two depth queries that report one report the same. */
  lemma TopIsUnique(dir: Dir, levels: map<int, int>, a: seq<int>, b: seq<int>, k: nat)
    requires IsTop(dir, levels, a, k) && IsTop(dir, levels, b, k)
    ensures a == b
  {
    TopLength(dir, levels, a, k);
    TopLength(dir, levels, b, k);
    SamePrefix(dir, levels, a, b, k, |a|);
    assert a == a[..|a|] && b == b[..|a|];
  }

  // ----- words and buckets as stretches of price indices -----

  /** The last index of word `w` of bucket `b` in the search direction. */
  function WordEnd(dir: Dir, b: int, w: int): int {
    4096 * b + 64 * w + (if dir.Highest? then 0 else 63)
  }

  /** The index just ahead of word `w` of bucket `b`. */
  function WordStart(dir: Dir, b: int, w: int): int {
    4096 * b + 64 * w + (if dir.Highest? then 64 else -1)
  }

  /** `word` holds the levels of word `w` of bucket `b` that are still behind the frontier `f`. */
  ghost predicate Remaining(dir: Dir, levels: map<int, int>, b: int, w: int, word: Word, f: int) {
    forall k :: Bit(word, k) <==> 0 <= k < 64 && 4096 * b + 64 * w + k in levels && dir.Better(f, 4096 * b + 64 * w + k)
  }

  /** The first remaining bit of the word is the next active level. */
  lemma FirstBitIsNext(dir: Dir, levels: map<int, int>, b: int, w: int, word: Word, f: int, x: int)
    requires Remaining(dir, levels, b, w, word, f) && word != 0 && x == 4096 * b + 64 * w + FindBit(dir, word)
    requires Reached(dir, WordStart(dir, b, w), f) && Indexed(levels)
    ensures IsNextLevel(dir, levels, f, x)
    ensures Reached(dir, WordStart(dir, b, w), x) && Reached(dir, x, WordEnd(dir, b, w))
  {
    assert Bit(word, FindBit(dir, word));
    forall y | y in levels && dir.Better(f, y) ensures y == x || dir.Better(x, y) {
      var k := y - 4096 * b - 64 * w;
      if 0 <= k < 64 { assert Bit(word, k); }
    }
  }

  lemma AfterDrop(dir: Dir, levels: map<int, int>, b: int, w: int, word: Word, f: int, x: int)
    requires Remaining(dir, levels, b, w, word, f) && word != 0 && x == 4096 * b + 64 * w + FindBit(dir, word)
    ensures Remaining(dir, levels, b, w, DropFirst(dir, word), x)
    ensures DropFirst(dir, word) < word
  {
    DropIsSmaller(dir, word);
    var bit := FindBit(dir, word);
    var rest := DropFirst(dir, word);
    forall k ensures Bit(rest, k) <==> 0 <= k < 64 && 4096 * b + 64 * w + k in levels
                                       && dir.Better(4096 * b + 64 * w + bit, 4096 * b + 64 * w + k)
    {
      assert Bit(word, bit);
      if Bit(word, k) { assert k == bit || dir.Better(bit, k); }
    }
  }

  lemma WordDone(dir: Dir, levels: map<int, int>, out: seq<int>, b: int, w: int, word: Word, f: int)
    requires Remaining(dir, levels, b, w, word, f) && word == 0 && Consumed(dir, levels, out, f)
    requires Reached(dir, WordStart(dir, b, w), f) && Reached(dir, f, WordEnd(dir, b, w))
    ensures Consumed(dir, levels, out, WordEnd(dir, b, w))
  {
    ZeroWord(word);
    forall x | x in levels && dir.Better(f, x) ensures !Reached(dir, x, WordEnd(dir, b, w)) {
      var k := x - 4096 * b - 64 * w;
      assert !Bit(word, k);
    }
    Advance(dir, levels, out, f, WordEnd(dir, b, w));
  }

  /** A full word of a bucket, seen from a frontier just ahead of it. */
  lemma WholeWordRemains(dir: Dir, buckets: seq<Slot>, summary: seq<Word>, b: nat, w: nat)
    requires RepOk(buckets, summary) && b < |buckets| && buckets[b].Ptr? && w < 64
    ensures |buckets[b].bucket.bitmap| == 64
    ensures Remaining(dir, Levels(buckets), b, w, buckets[b].bucket.bitmap[w], WordStart(dir, b, w))
  {
    var bucket := buckets[b].bucket;
    assert BucketOk(bucket);
    forall k ensures Bit(bucket.bitmap[w], k) <==> 0 <= k < 64 && 4096 * b + 64 * w + k in Levels(buckets) {
      BitOfLevel(buckets, summary, b, w, k);
    }
  }

  lemma BitOfLevel(buckets: seq<Slot>, summary: seq<Word>, b: nat, w: nat, k: int)
    requires RepOk(buckets, summary) && b < |buckets| && buckets[b].Ptr? && w < 64
    requires |buckets[b].bucket.bitmap| == 64
    ensures Bit(buckets[b].bucket.bitmap[w], k) <==> 0 <= k < 64 && 4096 * b + 64 * w + k in Levels(buckets)
  {
    var bucket := buckets[b].bucket;
    Locate(bucket.bitmap, w, k);
    if 0 <= k < 64 {
      var i := 4096 * b + (64 * w + k);
      assert i / 4096 == b && i % 4096 == 64 * w + k;
      ActiveLevel(buckets, summary, i);
      if Has(bucket.bitmap, 64 * w + k) { LevelOf(buckets, summary, b, 64 * w + k); }
    }
  }

  /** The masked first word: what is left of the word that holds `start`. */
  lemma MaskedWordRemains(dir: Dir, buckets: seq<Slot>, summary: seq<Word>, start: nat, masked: Word)
    requires RepOk(buckets, summary) && start < 4096 * |buckets| && buckets[start / 4096].Ptr?
    requires |buckets[start / 4096].bucket.bitmap| == 64
    requires masked == Intersect(buckets[start / 4096].bucket.bitmap[start % 4096 / 64], MakeMask(dir, start % 64))
    ensures Remaining(dir, Levels(buckets), start / 4096, start % 4096 / 64, masked, start)
  {
    Coordinates(start);
    MaskedRemains(dir, buckets, summary, start / 4096, start % 4096 / 64, start % 64, masked, start);
  }

  lemma Coordinates(start: nat)
    ensures start == 4096 * (start / 4096) + 64 * (start % 4096 / 64) + start % 64
    ensures 0 <= start % 4096 / 64 < 64 && start / 4096 >= 0
  {
  }

  lemma MaskedRemains(dir: Dir, buckets: seq<Slot>, summary: seq<Word>, b: nat, w: nat, bit: nat, masked: Word, start: int)
    requires RepOk(buckets, summary) && b < |buckets| && buckets[b].Ptr? && w < 64 && bit < 64
    requires |buckets[b].bucket.bitmap| == 64
    requires masked == Intersect(buckets[b].bucket.bitmap[w], MakeMask(dir, bit)) && start == 4096 * b + 64 * w + bit
    ensures Remaining(dir, Levels(buckets), b, w, masked, start)
  {
    forall k ensures Bit(masked, k) <==> 0 <= k < 64 && 4096 * b + 64 * w + k in Levels(buckets)
                                         && dir.Better(4096 * b + 64 * w + bit, 4096 * b + 64 * w + k)
    {
      MaskedBit(dir, buckets, summary, b, w, bit, k);
    }
  }

  lemma MaskedBit(dir: Dir, buckets: seq<Slot>, summary: seq<Word>, b: nat, w: nat, bit: nat, k: int)
    requires RepOk(buckets, summary) && b < |buckets| && buckets[b].Ptr? && w < 64 && bit < 64
    requires |buckets[b].bucket.bitmap| == 64
    ensures Bit(Intersect(buckets[b].bucket.bitmap[w], MakeMask(dir, bit)), k)
       <==> 0 <= k < 64 && 4096 * b + 64 * w + k in Levels(buckets) && dir.Better(bit, k)
  {
    BitOfLevel(buckets, summary, b, w, k);
  }

  /** Leaving word `w` behind brings the frontier just ahead of the following word. */
  lemma FollowingWord(dir: Dir, levels: map<int, int>, out: seq<int>, b: int, w: int)
    requires Consumed(dir, levels, out, WordEnd(dir, b, w))
    ensures Consumed(dir, levels, out, if dir.Highest? then WordStart(dir, b, w - 1) else WordStart(dir, b, w + 1))
  {}

  /** Jumping to the next allocated bucket passes over no active level. */
  lemma JumpBucket(dir: Dir, buckets: seq<Slot>, summary: seq<Word>, out: seq<int>, b: nat, nb: int)
    requires RepOk(buckets, summary) && b < |buckets| && nb >= 0 && IsNext(dir, summary, b, nb)
    requires Consumed(dir, Levels(buckets), out, WordEnd(dir, b, if dir.Highest? then 0 else 63))
    ensures nb < |buckets| && buckets[nb].Ptr?
    ensures Consumed(dir, Levels(buckets), out, WordStart(dir, nb, if dir.Highest? then 63 else 0))
  {
    var f, g := WordEnd(dir, b, if dir.Highest? then 0 else 63), WordStart(dir, nb, if dir.Highest? then 63 else 0);
    forall x | x in Levels(buckets) && dir.Better(f, x) ensures !Reached(dir, x, g) {
      ActiveLevel(buckets, summary, x);
    }
    Advance(dir, Levels(buckets), out, f, g);
  }

  lemma NoMoreBuckets(dir: Dir, buckets: seq<Slot>, summary: seq<Word>, b: nat)
    requires RepOk(buckets, summary) && b < |buckets| && IsNext(dir, summary, b, -1)
    ensures forall x | x in Levels(buckets) :: !dir.Better(WordEnd(dir, b, if dir.Highest? then 0 else 63), x)
  {
    forall x | x in Levels(buckets) ensures !dir.Better(WordEnd(dir, b, if dir.Highest? then 0 else 63), x) {
      ActiveLevel(buckets, summary, x);
    }
  }

  // ----- peek_levels -----

  /** `size_t` comparison against an `int` level; the best level is reported before the first comparison. */
  function LevelLimit(level: int): nat
    requires -TWO_32 <= level
  {
    if level < 0 then TWO_64 + level else if level == 0 then 1 else level
  }

  /** The loop of `peek_levels`, from the best index on. */
  method PeekFrom(dir: Dir, buckets: seq<Slot>, summary: seq<Word>, best: int, level: int) returns (out: seq<int>)
    requires RepOk(buckets, summary) && IsBest(dir, Levels(buckets), best) && -1 <= best < 4096 * |buckets|
    requires -TWO_32 <= level < TWO_32
    ensures IsTop(dir, Levels(buckets), out, LevelLimit(level))
  {
    ghost var levels := Levels(buckets);
    var idx := best;
    out := [];
    if idx >= 0 {
      out := out + [idx];
      StartAtBest(dir, levels, idx);
    }
    var limit := if level < 0 then TWO_64 + level else level;
    while idx >= 0 && |out| < limit
      invariant -1 <= idx < 4096 * |buckets|
      invariant |out| <= LevelLimit(level)
      invariant idx >= 0 ==> Consumed(dir, levels, out, idx) && |out| > 0
      invariant idx == -1 ==> IsTop(dir, levels, out, LevelLimit(level))
      decreases idx >= 0, limit - |out|
    {
      ghost var f := idx;
      idx := NextActiveIn(dir, buckets, summary, idx);
      if idx >= 0 {
        Append(dir, levels, out, f, idx);
        out := out + [idx];
      } else {
        TopWhenExhausted(dir, levels, out, f, LevelLimit(level));
      }
    }
    if idx >= 0 { TopWhenFull(dir, levels, out, idx, LevelLimit(level)); }
  }

  /** `peek_levels` */
  method PeekLevels(side: BucketSide, level: int) returns (out: seq<int>)
    requires side.Valid() && -TWO_32 <= level < TWO_32
    modifies side`cached
    ensures side.Valid() && side.Abs().levels == old(side.Abs().levels)
    ensures IsTop(side.dir, side.Abs().levels, out, LevelLimit(level))
  {
    var best := side.FreshBest();
    out := PeekFrom(side.dir, side.buckets, side.summary, best, level);
  }

  // ----- peek_levels_with_qty -----

  datatype LevelView = LevelView(idx: int, qty: int, price: int)

  function Indices(views: seq<LevelView>): (r: seq<int>)
    ensures |r| == |views|
    ensures forall i | 0 <= i < |views| :: r[i] == views[i].idx
  {
    seq(|views|, i requires 0 <= i < |views| => views[i].idx)
  }

  /** Every view carries its level's quantity and price. */
  ghost predicate Exact(levels: map<int, int>, minPrice: int, views: seq<LevelView>) {
    forall i | 0 <= i < |views| ::
      views[i].idx in levels && views[i] == LevelView(views[i].idx, levels[views[i].idx], minPrice + views[i].idx)
  }

  ghost predicate ViewsUpTo(dir: Dir, levels: map<int, int>, minPrice: int, views: seq<LevelView>, f: int) {
    var exact, consumed := Exact(levels, minPrice, views), Consumed(dir, levels, Indices(views), f);
    exact && consumed
  }

  /** `g` is the level that comes next. */
  ghost predicate NextUp(dir: Dir, levels: map<int, int>, minPrice: int, views: seq<LevelView>, f: int, g: int) {
    var upTo, next := ViewsUpTo(dir, levels, minPrice, views, f), IsNextLevel(dir, levels, f, g);
    upTo && next
  }

  lemma AppendView(dir: Dir, levels: map<int, int>, minPrice: int, views: seq<LevelView>, f: int, v: LevelView)
    requires ViewsUpTo(dir, levels, minPrice, views, f)
    requires v.idx >= 0 && IsNextLevel(dir, levels, f, v.idx)
    requires v == LevelView(v.idx, levels[v.idx], minPrice + v.idx)
    ensures ViewsUpTo(dir, levels, minPrice, views + [v], v.idx)
  {
    Append(dir, levels, Indices(views), f, v.idx);
    assert Indices(views + [v]) == Indices(views) + [v.idx];
  }

  /** `push_level_if_positive`; a set bit stands for an active level, so the level is always pushed. */
  method PushLevel(dir: Dir, buckets: seq<Slot>, minPrice: int, b: nat, off: nat, views: seq<LevelView>, level: nat,
                   ghost f: int)
    returns (out: seq<LevelView>, full: bool)
    requires b < |buckets| && buckets[b].Ptr? && off < 4096 && |buckets[b].bucket.orders| == 4096
    requires NextUp(dir, Levels(buckets), minPrice, views, f, 4096 * b + off) && |views| < level
    ensures ViewsUpTo(dir, Levels(buckets), minPrice, out, 4096 * b + off)
    ensures |out| == |views| + 1 && full == (|out| >= level)
  {
    var qty, x := buckets[b].bucket.orders[off], b * 4096 + off;
    LevelInBucket(buckets, b, off);
    if !(qty > 0) {
      return views, false;
    }
    AppendView(dir, Levels(buckets), minPrice, views, f, LevelView(x, qty, minPrice + x));
    out := views + [LevelView(x, qty, minPrice + x)];
    full := |out| >= level;
  }

  lemma LevelInBucket(buckets: seq<Slot>, b: nat, off: nat)
    requires b < |buckets| && buckets[b].Ptr? && off < 4096 && |buckets[b].bucket.orders| == 4096
    ensures 4096 * b + off in Levels(buckets) <==> buckets[b].bucket.orders[off] > 0
    ensures 4096 * b + off in Levels(buckets) ==> Levels(buckets)[4096 * b + off] == buckets[b].bucket.orders[off]
  {
    var i := 4096 * b + off;
    assert i / 4096 == b && i % 4096 == off;
    LevelAt(buckets, i);
  }

  /** Between two iterations of `scan_word`. */
  ghost predicate Scanning(dir: Dir, levels: map<int, int>, minPrice: int, b: int, w: int, word: Word,
                           views: seq<LevelView>, f: int)
  {
    var remaining, upTo := Remaining(dir, levels, b, w, word, f), ViewsUpTo(dir, levels, minPrice, views, f);
    && remaining && upTo
    && Reached(dir, WordStart(dir, b, w), f) && Reached(dir, f, WordEnd(dir, b, w))
  }

  /** One iteration of `scan_word` with `push_level_if_positive` as its callback. */
  method ScanBit(dir: Dir, buckets: seq<Slot>, minPrice: int, b: nat, w: nat, word: Word,
                 views: seq<LevelView>, level: nat, ghost f: int)
    returns (rest: Word, out: seq<LevelView>, full: bool, ghost g: int)
    requires b < |buckets| && buckets[b].Ptr? && |buckets[b].bucket.orders| == 4096 && w < 64
    requires Scanning(dir, Levels(buckets), minPrice, b, w, word, views, f) && word != 0 && |views| < level
    ensures Scanning(dir, Levels(buckets), minPrice, b, w, rest, out, g) && rest < word
    ensures |out| == |views| + 1 && full == (|out| >= level)
  {
    var off := w * 64 + FindBit(dir, word);
    g := 4096 * b + off;
    ScanNext(dir, Levels(buckets), minPrice, b, w, word, views, f, g);
    out, full := PushLevel(dir, buckets, minPrice, b, off, views, level, f);
    rest := DropFirst(dir, word);
    ScanOn(dir, Levels(buckets), minPrice, b, w, word, views, f, out, g);
  }

  lemma ScanNext(dir: Dir, levels: map<int, int>, minPrice: int, b: int, w: int, word: Word,
                 views: seq<LevelView>, f: int, g: int)
    requires Scanning(dir, levels, minPrice, b, w, word, views, f) && word != 0 && Indexed(levels)
    requires g == 4096 * b + 64 * w + FindBit(dir, word)
    ensures NextUp(dir, levels, minPrice, views, f, g)
  {
    FirstBitIsNext(dir, levels, b, w, word, f, g);
  }

  lemma ScanOn(dir: Dir, levels: map<int, int>, minPrice: int, b: int, w: int, word: Word,
               views: seq<LevelView>, f: int, out: seq<LevelView>, g: int)
    requires Scanning(dir, levels, minPrice, b, w, word, views, f) && word != 0 && Indexed(levels)
    requires g == 4096 * b + 64 * w + FindBit(dir, word) && ViewsUpTo(dir, levels, minPrice, out, g)
    ensures Scanning(dir, levels, minPrice, b, w, DropFirst(dir, word), out, g) && DropFirst(dir, word) < word
  {
    FirstBitIsNext(dir, levels, b, w, word, f, g);
    AfterDrop(dir, levels, b, w, word, f, g);
  }

  /** `scan_word` */
  method ScanWord(dir: Dir, buckets: seq<Slot>, minPrice: int, b: nat, w: nat, word0: Word,
                  views: seq<LevelView>, level: nat, ghost f0: int)
    returns (out: seq<LevelView>, full: bool, ghost f: int)
    requires b < |buckets| && buckets[b].Ptr? && |buckets[b].bucket.orders| == 4096 && w < 64
    requires Scanning(dir, Levels(buckets), minPrice, b, w, word0, views, f0) && |views| < level
    ensures ViewsUpTo(dir, Levels(buckets), minPrice, out, f)
    ensures full ==> |out| == level
    ensures !full ==> |out| < level && f == WordEnd(dir, b, w)
  {
    var word := word0;
    out, f := views, f0;
    while word != 0
      invariant Scanning(dir, Levels(buckets), minPrice, b, w, word, out, f) && |out| < level
      decreases word
    {
      word, out, full, f := ScanBit(dir, buckets, minPrice, b, w, word, out, level, f);
      if full { return; }
    }
    full := false;
    WordDone(dir, Levels(buckets), Indices(out), b, w, word, f);
    f := WordEnd(dir, b, w);
  }

  lemma DropIsSmaller(dir: Dir, w: Word)
    requires w != 0
    ensures DropFirst(dir, w) < w
  {
    var r := DropFirst(dir, w);
    assert r <= w;
    assert Bit(w, FindBit(dir, w)) && !Bit(r, FindBit(dir, w));
  }

  /** The word loop over a bucket, from word `w0` on; `f0` is the frontier just ahead of that word. */
  method ScanWords(dir: Dir, buckets: seq<Slot>, ghost summary: seq<Word>, minPrice: int, b: nat, w0: int,
                   views: seq<LevelView>, level: nat)
    returns (out: seq<LevelView>, full: bool, ghost f: int)
    requires RepOk(buckets, summary) && b < |buckets| && buckets[b].Ptr? && |views| < level
    requires if dir.Highest? then -1 <= w0 < 64 else 0 <= w0 <= 64
    requires ViewsUpTo(dir, Levels(buckets), minPrice, views, WordStart(dir, b, w0))
    ensures ViewsUpTo(dir, Levels(buckets), minPrice, out, f)
    ensures full ==> |out| == level
    ensures !full ==> |out| < level && f == WordEnd(dir, b, if dir.Highest? then 0 else 63)
  {
    out, full, f := views, false, WordStart(dir, b, w0);
    var w := w0;
    while if dir.Highest? then w >= 0 else w < 64
      invariant if dir.Highest? then -1 <= w < 64 else 0 <= w <= 64
      invariant |out| < level && f == WordStart(dir, b, w)
      invariant ViewsUpTo(dir, Levels(buckets), minPrice, out, f)
      decreases if dir.Highest? then w else 64 - w
    {
      WholeWordRemains(dir, buckets, summary, b, w);
      out, full, f := ScanWord(dir, buckets, minPrice, b, w, buckets[b].bucket.bitmap[w], out, level, f);
      if full { return; }
      FollowingWord(dir, Levels(buckets), Indices(out), b, w);
      w := if dir.Highest? then w - 1 else w + 1;
      f := WordStart(dir, b, w);
    }
    EndOfBucket(dir, Levels(buckets), Indices(out), b, w);
    f := WordEnd(dir, b, if dir.Highest? then 0 else 63);
  }

  lemma EndOfBucket(dir: Dir, levels: map<int, int>, out: seq<int>, b: int, w: int)
    requires w == (if dir.Highest? then -1 else 64) && Consumed(dir, levels, out, WordStart(dir, b, w))
    ensures Consumed(dir, levels, out, WordEnd(dir, b, if dir.Highest? then 0 else 63))
  {}

  /** The word after the one that holds `start`, where the word loop goes on. */
  function NextWord(dir: Dir, w: int): int {
    if dir.Highest? then w - 1 else w + 1
  }

  /** `consume_levels_in_bucket`: the rest of the best level's bucket, its own word masked. */
  method ScanAfter(dir: Dir, buckets: seq<Slot>, ghost summary: seq<Word>, minPrice: int, start: nat,
                   views: seq<LevelView>, level: nat)
    returns (out: seq<LevelView>, full: bool, ghost f: int)
    requires RepOk(buckets, summary) && start < 4096 * |buckets| && buckets[start / 4096].Ptr? && |views| < level
    requires ViewsUpTo(dir, Levels(buckets), minPrice, views, start)
    ensures ViewsUpTo(dir, Levels(buckets), minPrice, out, f)
    ensures full ==> |out| == level
    ensures !full ==> |out| < level && f == WordEnd(dir, start / 4096, if dir.Highest? then 0 else 63)
  {
    var b, w := start / 4096, start % 4096 / 64;
    assert BucketOk(buckets[b].bucket);
    var masked := Intersect(buckets[b].bucket.bitmap[w], MakeMask(dir, start % 64));
    MaskedWordRemains(dir, buckets, summary, start, masked);
    assert start == 4096 * b + 64 * w + start % 64;
    out, full, f := ScanWord(dir, buckets, minPrice, b, w, masked, views, level, start);
    if !full {
      FollowingWord(dir, Levels(buckets), Indices(out), b, w);
      out, full, f := ScanWords(dir, buckets, summary, minPrice, b, NextWord(dir, w), out, level);
    }
  }

  /** The jump loop of `peek_levels_with_qty`: whole buckets, until enough levels or no bucket is left. */
  method ScanBuckets(dir: Dir, buckets: seq<Slot>, summary: seq<Word>, minPrice: int, b0: nat,
                     views: seq<LevelView>, level: nat)
    returns (out: seq<LevelView>)
    requires RepOk(buckets, summary) && b0 < |buckets| && |views| < level
    requires ViewsUpTo(dir, Levels(buckets), minPrice, views, WordEnd(dir, b0, if dir.Highest? then 0 else 63))
    ensures Exact(Levels(buckets), minPrice, out) && IsTop(dir, Levels(buckets), Indices(out), level)
  {
    out := views;
    var b := b0;
    ghost var f;
    var full;
    while |out| < level
      invariant 0 <= b < |buckets| && |out| <= level
      invariant |out| < level ==>
                  ViewsUpTo(dir, Levels(buckets), minPrice, out, WordEnd(dir, b, if dir.Highest? then 0 else 63))
      invariant |out| == level ==>
                  Exact(Levels(buckets), minPrice, out) && IsTop(dir, Levels(buckets), Indices(out), level)
      decreases |out| < level, if dir.Highest? then b else |buckets| - b
    {
      var nb := SearchFrom(dir, summary, b);
      if nb < 0 {
        NoMoreBuckets(dir, buckets, summary, b);
        TopWhenExhausted(dir, Levels(buckets), Indices(out), WordEnd(dir, b, if dir.Highest? then 0 else 63), level);
        return;
      }
      JumpBucket(dir, buckets, summary, Indices(out), b, nb);
      b := nb;
      out, full, f := ScanWords(dir, buckets, summary, minPrice, b, if dir.Highest? then 63 else 0, out, level);
      if full { TopWhenFull(dir, Levels(buckets), Indices(out), f, level); }
    }
  }

  /** `peek_levels_with_qty` past its best level. */
  method PeekViewsFrom(dir: Dir, buckets: seq<Slot>, summary: seq<Word>, minPrice: int, best: nat, level: nat)
    returns (out: seq<LevelView>)
    requires RepOk(buckets, summary) && IsBest(dir, Levels(buckets), best) && best < 4096 * |buckets| && level > 0
    ensures Exact(Levels(buckets), minPrice, out) && IsTop(dir, Levels(buckets), Indices(out), level)
  {
    ActiveLevel(buckets, summary, best);
    LevelAt(buckets, best);
    out := [LevelView(best, QtyAt(buckets, best), minPrice + best)];
    StartAtBest(dir, Levels(buckets), best);
    assert Indices(out) == [best];
    if |out| >= level {
      TopWhenFull(dir, Levels(buckets), Indices(out), best, level);
      return;
    }
    var full;
    ghost var f;
    out, full, f := ScanAfter(dir, buckets, summary, minPrice, best, out, level);
    if full {
      TopWhenFull(dir, Levels(buckets), Indices(out), f, level);
    } else {
      out := ScanBuckets(dir, buckets, summary, minPrice, best / 4096, out, level);
    }
  }

  /** `peek_levels_with_qty` */
  method PeekLevelsWithQty(side: BucketSide, level: int) returns (out: seq<LevelView>)
    requires side.Valid()
    modifies side`cached
    ensures side.Valid() && side.Abs().levels == old(side.Abs().levels)
    ensures level <= 0 ==> out == []
    ensures level > 0 ==> IsTop(side.dir, side.Abs().levels, Indices(out), level)
    ensures Exact(side.Abs().levels, side.minPrice, out)
  {
    out := [];
    if level <= 0 { return; }
    var best := side.FreshBest();
    if best < 0 {
      TopOfEmpty(side.dir, level);
      assert Indices(out) == [];
      return;
    }
    out := PeekViewsFrom(side.dir, side.buckets, side.summary, side.minPrice, best, level);
  }
}

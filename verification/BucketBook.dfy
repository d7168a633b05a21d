/** The bucket order book: summary words over pooled 4096-level buckets of bitmaps. */
module BucketBook {
  import opened Bits
  import opened Bitmap
  import opened BookSpec


  datatype Slot = Null | Ptr(bucket: Bucket)

  /** 64 bitmap words and 4096 stored quantities. */
  datatype Bucket = Bucket(bitmap: seq<Word>, orders: seq<int>)

  /** A newly allocated bucket after its words and quantities are zeroed. */
  function FreshBucket(): (b: Bucket)
    ensures |b.bitmap| == 64 && AllZero(b.bitmap)
    ensures |b.orders| == 4096 && forall o | 0 <= o < 4096 :: b.orders[o] == 0
  {
    Bucket(seq(64, i => 0), seq(4096, i => 0))
  }

  /** `Bucket::empty` */
  predicate AllZero(words: seq<Word>) {
    forall i | 0 <= i < |words| :: words[i] == 0
  }

  lemma AllZeroHasNone(words: seq<Word>)
    ensures AllZero(words) ==> forall j :: !Has(words, j)
    ensures !AllZero(words) ==> exists j :: Has(words, j)
  {
    if AllZero(words) {
      forall j ensures !Has(words, j) {
        if Has(words, j) { ZeroWord(words[j / 64]); }
      }
    } else {
      var i :| 0 <= i < |words| && words[i] != 0;
      ZeroWord(words[i]);
      var k :| 0 <= k < 64 && Bit(words[i], k);
      Locate(words, i, k);
    }
  }

  ghost predicate Shaped(b: Bucket) {
    |b.bitmap| == 64 && |b.orders| == 4096
  }

  /** A bitmap bit is set exactly when its level's quantity is positive. */
  ghost predicate BitsMatch(b: Bucket)
    requires Shaped(b)
  {
    forall off | 0 <= off < 4096 :: Has(b.bitmap, off) <==> b.orders[off] > 0
  }

  /** An allocated bucket also holds at least one active level. */
  ghost predicate BucketOk(b: Bucket) {
    Shaped(b) && BitsMatch(b) && exists off :: 0 <= off < 4096 && Has(b.bitmap, off)
  }

  /** A summary bit is set exactly when its bucket is allocated, and every allocated bucket is in use. */
  ghost predicate RepOk(buckets: seq<Slot>, summary: seq<Word>) {
    && |summary| == (|buckets| + 63) / 64
    && (forall b :: Has(summary, b) <==> 0 <= b < |buckets| && buckets[b].Ptr?)
    && forall b | 0 <= b < |buckets| && buckets[b].Ptr? :: BucketOk(buckets[b].bucket)
  }

  /** The stored quantity of a level; nothing is stored where no bucket is allocated. */
  function QtyAt(buckets: seq<Slot>, i: int): int {
    if 0 <= i < 4096 * |buckets| && buckets[i / 4096].Ptr?
       && i % 4096 < |buckets[i / 4096].bucket.orders|
    then buckets[i / 4096].bucket.orders[i % 4096]
    else 0
  }

  /** The plain map the book stands for: every active level with its quantity. */
  ghost function Levels(buckets: seq<Slot>): (m: map<int, int>)
    ensures Indexed(m)
  {
    map i | 0 <= i < 4096 * |buckets| && QtyAt(buckets, i) > 0 :: QtyAt(buckets, i)
  }

  lemma LevelAt(buckets: seq<Slot>, i: int)
    ensures i in Levels(buckets) <==> QtyAt(buckets, i) > 0
    ensures i in Levels(buckets) ==> Levels(buckets)[i] == QtyAt(buckets, i)
  {}

  /** Where an active level lives: its bucket, its offset, and the bits that lead there. */
  lemma ActiveLevel(buckets: seq<Slot>, summary: seq<Word>, i: int)
    requires RepOk(buckets, summary)
    ensures i in Levels(buckets) ==>
              && Has(summary, i / 4096)
              && Has(buckets[i / 4096].bucket.bitmap, i % 4096)
  {}

  lemma LevelOf(buckets: seq<Slot>, summary: seq<Word>, b: int, off: int)
    requires RepOk(buckets, summary)
    requires 0 <= b < |buckets| && buckets[b].Ptr? && Has(buckets[b].bucket.bitmap, off)
    ensures 4096 * b + off in Levels(buckets)
    ensures (4096 * b + off) / 4096 == b && (4096 * b + off) % 4096 == off
  {
    assert 0 <= off < 4096;
    var i := 4096 * b + off;
    assert i / 4096 == b && i % 4096 == off;
    assert BucketOk(buckets[b].bucket);
  }

  // ----- pool accounting -----

  function CountAllocated(buckets: seq<Slot>): (n: nat)
    ensures n <= |buckets|
    ensures n == |buckets| <==> forall b | 0 <= b < |buckets| :: buckets[b].Ptr?
  {
    if buckets == [] then 0
    else CountAllocated(buckets[..|buckets| - 1]) + (if buckets[|buckets| - 1].Ptr? then 1 else 0)
  }

  lemma {:induction false} CountAfterUpdate(buckets: seq<Slot>, b: nat, s: Slot)
    requires b < |buckets|
    ensures CountAllocated(buckets[b := s]) ==
            CountAllocated(buckets) - (if buckets[b].Ptr? then 1 else 0) + (if s.Ptr? then 1 else 0)
  {
    var n := |buckets| - 1;
    if b == n {
      assert buckets[b := s][..n] == buckets[..n];
    } else {
      assert buckets[b := s][..n] == buckets[..n][b := s];
      CountAfterUpdate(buckets[..n], b, s);
    }
  }

  lemma {:induction false} CountOfNulls(buckets: seq<Slot>)
    requires forall b | 0 <= b < |buckets| :: buckets[b] == Null
    ensures CountAllocated(buckets) == 0
  {
    if buckets != [] { CountOfNulls(buckets[..|buckets| - 1]); }
  }

  /** A level update that changes one shown quantity changes one entry of the map. */
  lemma LevelsAfter(old_: seq<Slot>, new_: seq<Slot>, idx: int, qty: int)
    requires |old_| == |new_| && 0 <= idx < 4096 * |old_|
    requires forall i | i != idx :: SameShown(QtyAt(new_, i), QtyAt(old_, i))
    requires if qty > 0 then QtyAt(new_, idx) == qty else QtyAt(new_, idx) <= 0
    ensures Levels(new_) == SetLevel(Levels(old_), idx, qty)
  {}

  /** The bucket an update works on: the allocated one, or a freshly zeroed one. */
  function Base(s: Slot): Bucket {
    if s.Ptr? then s.bucket else FreshBucket()
  }

  lemma BaseOk(buckets: seq<Slot>, summary: seq<Word>, b: nat)
    requires RepOk(buckets, summary) && b < |buckets|
    ensures Shaped(Base(buckets[b])) && BitsMatch(Base(buckets[b]))
  {
    AllZeroHasNone(FreshBucket().bitmap);
  }

  predicate SameShown(p: int, q: int) {
    p == q || (p <= 0 && q <= 0)
  }

  /** The bucket with level `off` set to a positive quantity. */
  function Stored(base: Bucket, off: nat, qty: int): Bucket
    requires |base.bitmap| == 64 && |base.orders| == 4096 && off < 4096
  {
    Bucket(SetAt(base.bitmap, off), base.orders[off := qty])
  }

  /** The bucket with level `off` made inactive. */
  function Removed(base: Bucket, off: nat, qty: int): Bucket
    requires |base.bitmap| == 64 && |base.orders| == 4096 && off < 4096
  {
    Bucket(ClearAt(base.bitmap, off), base.orders[off := qty])
  }

  /** The buckets `p` and `q` show the same active levels everywhere but at `off`. */
  ghost predicate AgreeExcept(p: Bucket, q: Bucket, off: nat) {
    |p.orders| == |q.orders| == 4096 && forall o | 0 <= o < 4096 && o != off :: SameShown(p.orders[o], q.orders[o])
  }

  lemma QtyInBucket(buckets: seq<Slot>, i: int)
    requires 0 <= i < 4096 * |buckets| && |Base(buckets[i / 4096]).orders| == 4096
    ensures QtyAt(buckets, i) == Base(buckets[i / 4096]).orders[i % 4096]
  {}

  lemma ShownAfter(buckets: seq<Slot>, b: nat, s: Slot, off: nat, i: int)
    requires b < |buckets| && off < 4096 && AgreeExcept(Base(buckets[b]), Base(s), off)
    ensures i != 4096 * b + off ==> SameShown(QtyAt(buckets[b := s], i), QtyAt(buckets, i))
    ensures i == 4096 * b + off ==> QtyAt(buckets[b := s], i) == Base(s).orders[off]
  {
    if 0 <= i < 4096 * |buckets| && i / 4096 == b {
      QtyInBucket(buckets, i);
      QtyInBucket(buckets[b := s], i);
    }
  }

  /** Replacing bucket `b` by one that agrees on every active level but one. */
  lemma LevelsWithBucket(buckets: seq<Slot>, b: nat, s: Slot, off: nat, qty: int)
    requires b < |buckets| && off < 4096 && AgreeExcept(Base(buckets[b]), Base(s), off)
    requires if qty > 0 then Base(s).orders[off] == qty else Base(s).orders[off] <= 0
    ensures Levels(buckets[b := s]) == SetLevel(Levels(buckets), 4096 * b + off, qty)
  {
    var after := buckets[b := s];
    forall i ensures i != 4096 * b + off ==> SameShown(QtyAt(after, i), QtyAt(buckets, i)) {
      ShownAfter(buckets, b, s, off, i);
    }
    ShownAfter(buckets, b, s, off, 4096 * b + off);
    LevelsAfter(buckets, after, 4096 * b + off, qty);
  }

  lemma RepWithBucket(buckets: seq<Slot>, summary: seq<Word>, b: nat, next: Bucket)
    requires RepOk(buckets, summary) && b < |buckets| && BucketOk(next)
    ensures b < 64 * |summary| && RepOk(buckets[b := Ptr(next)], SetAt(summary, b))
    ensures buckets[b].Ptr? ==> RepOk(buckets[b := Ptr(next)], summary)
  {
    var after := buckets[b := Ptr(next)];
    SetAtHas(summary, b);
    forall c | 0 <= c < |after| && after[c].Ptr? ensures BucketOk(after[c].bucket) {
      if c != b { assert after[c] == buckets[c]; }
    }
  }

  lemma RepWithoutBucket(buckets: seq<Slot>, summary: seq<Word>, b: nat)
    requires RepOk(buckets, summary) && b < |buckets|
    ensures b < 64 * |summary| && RepOk(buckets[b := Null], ClearAt(summary, b))
  {
    var after := buckets[b := Null];
    ClearAtHas(summary, b);
    forall c | 0 <= c < |after| && after[c].Ptr? ensures BucketOk(after[c].bucket) {
      assert after[c] == buckets[c];
    }
  }

  /** Storing a positive quantity. */
  lemma StoreActive(buckets: seq<Slot>, summary: seq<Word>, b: nat, off: nat, idx: nat, qty: int, next: Bucket)
    requires RepOk(buckets, summary) && b < |buckets| && off < 4096 && idx == 4096 * b + off && qty > 0
    requires Shaped(Base(buckets[b])) && next == Stored(Base(buckets[b]), off, qty)
    ensures b < 64 * |summary|
    ensures RepOk(buckets[b := Ptr(next)], SetAt(summary, b))
    ensures Levels(buckets[b := Ptr(next)]) == SetLevel(Levels(buckets), idx, qty)
  {
    BaseOk(buckets, summary, b);
    StoredOk(Base(buckets[b]), off, qty);
    RepWithBucket(buckets, summary, b, next);
    LevelsWithBucket(buckets, b, Ptr(next), off, qty);
  }

  lemma StoredOk(base: Bucket, off: nat, qty: int)
    requires Shaped(base) && BitsMatch(base) && off < 4096 && qty > 0
    ensures BucketOk(Stored(base, off, qty)) && AgreeExcept(base, Stored(base, off, qty), off)
  {
    SetAtHas(base.bitmap, off);
    assert Has(Stored(base, off, qty).bitmap, off);
  }

  /** Making a level inactive while others in its bucket stay active. */
  lemma StoreInactive(buckets: seq<Slot>, summary: seq<Word>, b: nat, off: nat, idx: nat, qty: int, next: Bucket)
    requires RepOk(buckets, summary) && b < |buckets| && off < 4096 && idx == 4096 * b + off && qty <= 0
    requires Shaped(Base(buckets[b])) && next == Removed(Base(buckets[b]), off, qty)
    requires !AllZero(next.bitmap)
    ensures RepOk(buckets[b := Ptr(next)], summary)
    ensures Levels(buckets[b := Ptr(next)]) == SetLevel(Levels(buckets), idx, qty)
  {
    BaseOk(buckets, summary, b);
    RemovedOk(Base(buckets[b]), off, qty);
    AllZeroHasNone(FreshBucket().bitmap);
    ClearAtHas(Base(buckets[b]).bitmap, off);
    RepWithBucket(buckets, summary, b, next);
    LevelsWithBucket(buckets, b, Ptr(next), off, qty);
  }

  lemma RemovedOk(base: Bucket, off: nat, qty: int)
    requires Shaped(base) && BitsMatch(base) && off < 4096 && qty <= 0 && !AllZero(Removed(base, off, qty).bitmap)
    ensures BucketOk(Removed(base, off, qty)) && AgreeExcept(base, Removed(base, off, qty), off)
  {
    ClearAtHas(base.bitmap, off);
    AllZeroHasNone(Removed(base, off, qty).bitmap);
  }

  /** Making the last active level of a bucket inactive releases the bucket. */
  lemma ReleaseBucket(buckets: seq<Slot>, summary: seq<Word>, b: nat, off: nat, idx: nat, qty: int)
    requires RepOk(buckets, summary) && b < |buckets| && off < 4096 && idx == 4096 * b + off && qty <= 0
    requires Shaped(Base(buckets[b]))
    requires AllZero(Removed(Base(buckets[b]), off, qty).bitmap)
    ensures b < 64 * |summary|
    ensures RepOk(buckets[b := Null], ClearAt(summary, b))
    ensures Levels(buckets[b := Null]) == SetLevel(Levels(buckets), idx, qty)
  {
    BaseOk(buckets, summary, b);
    RepWithoutBucket(buckets, summary, b);
    NothingLeft(Base(buckets[b]), off, qty);
    LevelsWithBucket(buckets, b, Null, off, qty);
  }

  lemma NothingLeft(base: Bucket, off: nat, qty: int)
    requires Shaped(base) && BitsMatch(base) && off < 4096 && AllZero(Removed(base, off, qty).bitmap)
    ensures AgreeExcept(base, FreshBucket(), off)
  {
    ClearAtHas(base.bitmap, off);
    AllZeroHasNone(Removed(base, off, qty).bitmap);
    forall o | 0 <= o < 4096 && o != off ensures SameShown(base.orders[o], FreshBucket().orders[o]) {
      assert !Has(Removed(base, off, qty).bitmap, o);
    }
  }

  /** `r` is the first active level strictly behind `start`, or -1 when there is none. */
  ghost predicate IsNextLevel(dir: Dir, levels: map<int, int>, start: int, r: int) {
    if r == -1 then forall i | i in levels :: !dir.Better(start, i)
    else
      && r in levels && dir.Better(start, r)
      && forall i | i in levels && dir.Better(start, i) :: i == r || dir.Better(r, i)
  }

  class BucketSide {
    const dir: Dir
    const minPrice: int
    const poolSize: nat
    var buckets: seq<Slot>
    var summary: seq<Word>
    var cached: int
    var quotePrice: int
    var quoteQty: int
    var poolFree: nat

    ghost predicate Valid()
      reads this
    {
      var rep := Rep();
      var cache := CacheOk(dir, Abs());
      rep && cache && cached < 4096 * |buckets|
    }

    /** Summary, buckets and pool agree; the cached index plays no part. */
    ghost predicate Rep()
      reads this`buckets, this`summary, this`poolFree
    {
      var rep := RepOk(buckets, summary);
      rep && poolFree + CountAllocated(buckets) == poolSize
    }

    ghost function Abs(): (s: Side)
      reads this
    {
      Side(Levels(buckets), cached, quotePrice, quoteQty)
    }

    constructor (dir: Dir, minPrice: int, bucketCount: nat, poolSize: nat)
      ensures Valid() && Abs() == EMPTY && |buckets| == bucketCount
      ensures this.dir == dir && this.minPrice == minPrice && this.poolSize == poolSize
    {
      this.dir, this.minPrice, this.poolSize := dir, minPrice, poolSize;
      buckets := seq(bucketCount, _ => Null);
      summary := seq((bucketCount + 63) / 64, _ => 0);
      cached, quotePrice, quoteQty, poolFree := -1, INVALID, INVALID, poolSize;
      new;
      NullsAreEmpty(buckets, summary);
    }

    /** The pool can serve the bucket of `idx`: it is allocated already or the pool is not empty. */
    ghost predicate CanTouch(idx: int)
      reads this
      requires 0 <= idx < 4096 * |buckets|
    {
      buckets[idx / 4096].Ptr? || poolFree > 0
    }

    /** `update_bid` and `update_ask` */
    method UpdateLevel(idx: nat, qty: int)
      requires Rep()
      requires idx < 4096 * |buckets| && CanTouch(idx)
      modifies this`buckets, this`summary, this`poolFree
      ensures Rep()
      ensures |buckets| == old(|buckets|)
      ensures Levels(buckets) == SetLevel(old(Levels(buckets)), idx, qty)
    {
      if qty > 0 {
        Activate(idx / 4096, idx % 4096, qty, idx);
      } else {
        Deactivate(idx / 4096, idx % 4096, qty, idx);
      }
    }

    /** The active branch of `update_bid` and `update_ask`. */
    method Activate(b: nat, off: nat, qty: int, ghost idx: nat)
      requires Rep()
      requires b < |buckets| && off < 4096 && idx == 4096 * b + off && qty > 0
      requires buckets[b].Ptr? || poolFree > 0
      modifies this`buckets, this`summary, this`poolFree
      ensures Rep()
      ensures |buckets| == old(|buckets|)
      ensures Levels(buckets) == SetLevel(old(Levels(buckets)), idx, qty)
    {
      ghost var before := buckets;
      BaseOk(buckets, summary, b);
      EnsureBucket(b);
      var bucket := buckets[b].bucket;
      bucket := Bucket(SetAt(bucket.bitmap, off), bucket.orders[off := qty]);
      CountAfterUpdate(buckets, b, Ptr(bucket));
      buckets := buckets[b := Ptr(bucket)];
      StoreActive(before, summary, b, off, idx, qty, bucket);
      summary := SetAt(summary, b);
      assert buckets == before[b := Ptr(bucket)];
    }

    /** The inactive branch, which returns a bucket with no active level left to the pool. */
    method Deactivate(b: nat, off: nat, qty: int, ghost idx: nat)
      requires Rep()
      requires b < |buckets| && off < 4096 && idx == 4096 * b + off && qty <= 0
      requires buckets[b].Ptr? || poolFree > 0
      modifies this`buckets, this`summary, this`poolFree
      ensures Rep()
      ensures |buckets| == old(|buckets|)
      ensures Levels(buckets) == SetLevel(old(Levels(buckets)), idx, qty)
    {
      ghost var before := buckets;
      BaseOk(buckets, summary, b);
      EnsureBucket(b);
      var bucket := buckets[b].bucket;
      bucket := Bucket(ClearAt(bucket.bitmap, off), bucket.orders[off := qty]);
      if AllZero(bucket.bitmap) {
        ReleaseBucket(before, summary, b, off, idx, qty);
        CountAfterUpdate(buckets, b, Null);
        summary := ClearAt(summary, b);
        poolFree := poolFree + 1;
        buckets := buckets[b := Null];
        assert buckets == before[b := Null];
      } else {
        StoreInactive(before, summary, b, off, idx, qty, bucket);
        CountAfterUpdate(buckets, b, Ptr(bucket));
        buckets := buckets[b := Ptr(bucket)];
        assert buckets == before[b := Ptr(bucket)];
      }
    }

    /** The allocation at the head of `update_bid` and `update_ask`. */
    method EnsureBucket(b: nat)
      requires b < |buckets| && (buckets[b].Ptr? || poolFree > 0)
      requires poolFree + CountAllocated(buckets) == poolSize
      modifies this`buckets, this`poolFree
      ensures buckets == old(buckets)[b := Ptr(Base(old(buckets)[b]))]
      ensures poolFree + CountAllocated(buckets) == poolSize
    {
      if buckets[b].Null? {
        CountAfterUpdate(buckets, b, Ptr(FreshBucket()));
        poolFree := poolFree - 1;
        buckets := buckets[b := Ptr(FreshBucket())];
      }
    }

    /** `next_active_idx` */
    method NextActive(start: nat) returns (r: int)
      requires Rep() && start < 4096 * |buckets|
      ensures IsNextLevel(dir, Levels(buckets), start, r)
      ensures -1 <= r < 4096 * |buckets|
    {
      r := NextActiveIn(dir, buckets, summary, start);
    }

    /** `is_bid_idx_valid` and `is_ask_idx_valid` */
    predicate IdxValid(i: int)
      reads this
      requires i < 4096 * |buckets|
    {
      0 <= i && buckets[i / 4096].Ptr? && QtyAt(buckets, i) > 0
    }

    /** `best_bid_idx` and `best_ask_idx`: the cached index if it is active, else a two-level search. */
    method BestIdx() returns (r: int)
      requires Rep() && cached < 4096 * |buckets|
      requires cached in Levels(buckets) ==> IsBest(dir, Levels(buckets), cached)
      modifies this`cached
      ensures r == Best(dir, Levels(buckets)) && cached == r
      ensures -1 <= r < 4096 * |buckets|
    {
      LevelAt(buckets, cached);
      if cached >= 0 && IdxValid(cached) {
        r := cached;
      } else {
        var b := SearchAll(dir, summary);
        if b >= 0 {
          var o := SearchAll(dir, buckets[b].bucket.bitmap);
          cached := b * 4096 + o;
          FirstOfAll(dir, buckets, summary, b, o);
        } else {
          NoneAtAll(dir, buckets, summary);
          cached := -1;
        }
        r := cached;
      }
      BestIsUnique(dir, Levels(buckets), r, Best(dir, Levels(buckets)));
    }

    /** The best index as the queries read it: the cache may move, the book does not. */
    method FreshBest() returns (r: int)
      requires Valid()
      modifies this`cached
      ensures Valid() && r == Best(dir, Levels(buckets)) && -1 <= r < 4096 * |buckets|
    {
      r := BestIdx();
    }

    method StoredQty(i: nat) returns (q: int)
      requires i in Levels(buckets)
      ensures q == Levels(buckets)[i]
    {
      LevelAt(buckets, i);
      q := QtyAt(buckets, i);
    }

    /** `best_bid_price` and `best_ask_price` */
    method BestPrice() returns (p: int)
      requires Rep() && cached < 4096 * |buckets|
      requires cached in Levels(buckets) ==> IsBest(dir, Levels(buckets), cached)
      modifies this`cached
      ensures cached == Best(dir, Levels(buckets)) && -1 <= cached < 4096 * |buckets|
      ensures p == QuoteAt(dir, Levels(buckets), minPrice).0
    {
      var i := BestIdx();
      p := if i >= 0 then minPrice + i else INVALID;
    }

    /** `best_bid_qty` and `best_ask_qty` */
    method BestQty() returns (q: int)
      requires Rep() && cached < 4096 * |buckets|
      requires cached in Levels(buckets) ==> IsBest(dir, Levels(buckets), cached)
      modifies this`cached
      ensures cached == Best(dir, Levels(buckets)) && -1 <= cached < 4096 * |buckets|
      ensures q == QuoteAt(dir, Levels(buckets), minPrice).1
    {
      var i := BestIdx();
      if i >= 0 {
        q := StoredQty(i);
      } else {
        q := INVALID;
      }
    }

    /** `delete_order` on the cached index: drop the cache, then search again. */
    method ForgetBest()
      requires Rep()
      modifies this`cached, this`quotePrice, this`quoteQty
      ensures cached == Best(dir, Levels(buckets)) && -1 <= cached < 4096 * |buckets|
      ensures (quotePrice, quoteQty) == QuoteAt(dir, Levels(buckets), minPrice)
    {
      cached := -1;
      quotePrice := BestPrice();
      quoteQty := BestQty();
    }

    /** `add_order` */
    method AddOrder(idx: nat, qty: int)
      requires Valid() && idx < 4096 * |buckets| && CanTouch(idx)
      modifies this
      ensures Valid() && |buckets| == old(|buckets|)
      ensures Abs() == BucketAdd(dir, old(Abs()), idx, qty, minPrice)
    {
      StepKeepsCache(false, dir, Abs(), Add(idx, qty), minPrice);
      UpdateLevel(idx, qty);
      if cached < 0 || dir.Better(idx, cached) {
        cached := idx;
        quotePrice := minPrice + idx;
        quoteQty := qty;
      } else if idx == cached {
        quoteQty := qty;
      }
    }

    /** `delete_order` */
    method DeleteOrder(idx: nat)
      requires Valid() && idx < 4096 * |buckets| && CanTouch(idx)
      modifies this
      ensures Valid() && |buckets| == old(|buckets|)
      ensures Abs() == BucketCancel(dir, old(Abs()), idx, minPrice)
    {
      ghost var s := Abs();
      UpdateLevel(idx, 0);
      if idx == cached {
        ForgetBest();
      }
      CancelFields(dir, s, idx, minPrice, Abs());
    }

    /** Every bucket goes back to the pool. */
    method ReleaseAll()
      requires poolFree + CountAllocated(buckets) == poolSize
      modifies this`buckets, this`poolFree
      ensures |buckets| == old(|buckets|) && poolFree == poolSize
      ensures forall b | 0 <= b < |buckets| :: buckets[b] == Null
    {
      var i := 0;
      while i < |buckets|
        invariant 0 <= i <= |buckets| == old(|buckets|)
        invariant forall b | 0 <= b < i :: buckets[b] == Null
        invariant poolFree + CountAllocated(buckets) == poolSize
      {
        if buckets[i].Ptr? {
          CountAfterUpdate(buckets, i, Null);
          poolFree := poolFree + 1;
          buckets := buckets[i := Null];
        }
        i := i + 1;
      }
      CountOfNulls(buckets);
    }

    /** This side's part of the `kClear` branch. */
    method ClearAll()
      requires Valid()
      modifies this
      ensures Valid() && |buckets| == old(|buckets|) && poolFree == poolSize
      ensures Abs() == ClearSide(old(Abs()))
    {
      ReleaseAll();
      summary := seq(|summary|, j => 0);
      quotePrice, quoteQty := INVALID, INVALID;
      NullsAreEmpty(buckets, summary);
    }
  }

  lemma NullsAreEmpty(buckets: seq<Slot>, summary: seq<Word>)
    requires forall b | 0 <= b < |buckets| :: buckets[b] == Null
    requires |summary| == (|buckets| + 63) / 64 && AllZero(summary)
    ensures RepOk(buckets, summary) && Levels(buckets) == map[] && CountAllocated(buckets) == 0
  {
    AllZeroHasNone(summary);
    CountOfNulls(buckets);
  }

  // ----- the searches against the plain map -----

  lemma NextInSameBucket(dir: Dir, buckets: seq<Slot>, summary: seq<Word>, start: nat, r: int)
    requires RepOk(buckets, summary) && start < 4096 * |buckets| && buckets[start / 4096].Ptr?
    requires r - 4096 * (start / 4096) >= 0
    requires IsNext(dir, buckets[start / 4096].bucket.bitmap, start % 4096, r - 4096 * (start / 4096))
    ensures IsNextLevel(dir, Levels(buckets), start, r) && r < 4096 * |buckets|
  {
    var b := start / 4096;
    LevelOf(buckets, summary, b, r - 4096 * b);
    forall i | i in Levels(buckets) && dir.Better(start, i) ensures i == r || dir.Better(r, i) {
      BehindNext(dir, buckets, summary, b, start % 4096, r - 4096 * b, i);
    }
  }

  /** A level behind `start` is the next one of its bucket or behind that. */
  lemma BehindNext(dir: Dir, buckets: seq<Slot>, summary: seq<Word>, b: nat, s: nat, o: nat, i: int)
    requires RepOk(buckets, summary) && b < |buckets| && buckets[b].Ptr? && s < 4096
    requires IsNext(dir, buckets[b].bucket.bitmap, s, o) && o < 4096
    requires i in Levels(buckets) && dir.Better(4096 * b + s, i)
    ensures i == 4096 * b + o || dir.Better(4096 * b + o, i)
  {
    ActiveLevel(buckets, summary, i);
  }

  lemma NextInOtherBucket(dir: Dir, buckets: seq<Slot>, summary: seq<Word>, start: nat, nb: int, o: int)
    requires RepOk(buckets, summary) && start < 4096 * |buckets|
    requires buckets[start / 4096].Ptr? ==> IsNext(dir, buckets[start / 4096].bucket.bitmap, start % 4096, -1)
    requires nb >= 0 && IsNext(dir, summary, start / 4096, nb) && nb < |buckets| && buckets[nb].Ptr?
    requires IsFirst(dir, buckets[nb].bucket.bitmap, o)
    ensures IsNextLevel(dir, Levels(buckets), start, 4096 * nb + o) && 4096 * nb + o < 4096 * |buckets|
  {
    var r := 4096 * nb + o;
    assert BucketOk(buckets[nb].bucket);
    LevelOf(buckets, summary, nb, o);
    forall i | i in Levels(buckets) && dir.Better(start, i) ensures i == r || dir.Better(r, i) {
      ActiveLevel(buckets, summary, i);
    }
  }

  lemma NoNext(dir: Dir, buckets: seq<Slot>, summary: seq<Word>, start: nat)
    requires RepOk(buckets, summary) && start < 4096 * |buckets|
    requires buckets[start / 4096].Ptr? ==> IsNext(dir, buckets[start / 4096].bucket.bitmap, start % 4096, -1)
    requires IsNext(dir, summary, start / 4096, -1)
    ensures IsNextLevel(dir, Levels(buckets), start, -1)
  {
    forall i | i in Levels(buckets) ensures !dir.Better(start, i) {
      ActiveLevel(buckets, summary, i);
    }
  }

  lemma FirstOfAll(dir: Dir, buckets: seq<Slot>, summary: seq<Word>, b: int, o: int)
    requires RepOk(buckets, summary)
    requires b >= 0 && IsFirst(dir, summary, b) && b < |buckets| && buckets[b].Ptr?
    requires IsFirst(dir, buckets[b].bucket.bitmap, o)
    ensures IsBest(dir, Levels(buckets), 4096 * b + o) && 0 <= 4096 * b + o < 4096 * |buckets|
  {
    var r := 4096 * b + o;
    assert BucketOk(buckets[b].bucket);
    LevelOf(buckets, summary, b, o);
    forall i | i in Levels(buckets) ensures i == r || dir.Better(r, i) {
      ActiveLevel(buckets, summary, i);
    }
  }

  lemma NoneAtAll(dir: Dir, buckets: seq<Slot>, summary: seq<Word>)
    requires RepOk(buckets, summary) && IsFirst(dir, summary, -1)
    ensures Levels(buckets) == map[]
  {
    forall i ensures i !in Levels(buckets) {
      ActiveLevel(buckets, summary, i);
    }
    EmptyMap(Levels(buckets));
  }

  /** `next_active_impl`: the search inside the start bucket, then over the summary words. */
  method NextActiveIn(dir: Dir, buckets: seq<Slot>, summary: seq<Word>, start: nat) returns (r: int)
    requires RepOk(buckets, summary) && start < 4096 * |buckets|
    ensures IsNextLevel(dir, Levels(buckets), start, r)
    ensures -1 <= r < 4096 * |buckets|
  {
    var b, off := start / 4096, start % 4096;
    if buckets[b].Ptr? {
      var o := SearchFrom(dir, buckets[b].bucket.bitmap, off);
      if o >= 0 {
        r := b * 4096 + o;
        NextInSameBucket(dir, buckets, summary, start, r);
        return;
      }
    }
    var nb := SearchFrom(dir, summary, b);
    if nb >= 0 {
      var o := SearchAll(dir, buckets[nb].bucket.bitmap);
      r := nb * 4096 + o;
      NextInOtherBucket(dir, buckets, summary, start, nb, o);
    } else {
      NoNext(dir, buckets, summary, start);
      r := -1;
    }
  }
}

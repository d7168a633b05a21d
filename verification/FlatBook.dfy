/** The flat order book: one array of levels, a bitmap over it, and summary words over the bitmap. */
module FlatBook {
  import opened Bits
  import opened Bitmap
  import opened BookSpec

  /** A bitmap bit is set exactly when its level is active; a summary bit exactly when its word is not zero. */
  ghost predicate FlatOk(orders: seq<int>, bitmap: seq<Word>, summary: seq<Word>) {
    && |bitmap| == (|orders| + 63) / 64
    && |summary| == (|bitmap| + 63) / 64
    && (forall i :: Has(bitmap, i) <==> 0 <= i < |orders| && orders[i] > 0)
    && SummaryOk(bitmap, summary)
  }

  ghost predicate SummaryOk(bitmap: seq<Word>, summary: seq<Word>) {
    forall w :: Has(summary, w) <==> 0 <= w < |bitmap| && bitmap[w] != 0
  }

  ghost function Levels(orders: seq<int>): (m: map<int, int>)
    ensures Indexed(m)
  {
    map i | 0 <= i < |orders| && orders[i] > 0 :: orders[i]
  }

  lemma LevelsAfterStore(orders: seq<int>, idx: nat, qty: int)
    requires idx < |orders|
    ensures Levels(orders[idx := qty]) == SetLevel(Levels(orders), idx, qty)
  {}

  /** The bitmap and summary of `update_bid`/`update_ask`, as the branch on the old or new word has it. */
  lemma SummaryAfterSet(bitmap: seq<Word>, summary: seq<Word>, i: nat)
    requires i < 64 * |bitmap| && |summary| == (|bitmap| + 63) / 64 && SummaryOk(bitmap, summary)
    ensures i / 64 < 64 * |summary|
    ensures SummaryOk(SetAt(bitmap, i), if bitmap[i / 64] == 0 then SetAt(summary, i / 64) else summary)
  {
    SetAtHas(summary, i / 64);
  }

  lemma SummaryAfterClear(bitmap: seq<Word>, summary: seq<Word>, i: nat)
    requires i < 64 * |bitmap| && |summary| == (|bitmap| + 63) / 64 && SummaryOk(bitmap, summary)
    ensures i / 64 < 64 * |summary|
    ensures SummaryOk(ClearAt(bitmap, i), if ClearAt(bitmap, i)[i / 64] == 0 then ClearAt(summary, i / 64) else summary)
  {
    ClearAtHas(summary, i / 64);
    assert bitmap[i / 64] == 0 ==> ClearAt(bitmap, i)[i / 64] == 0 by {
      if bitmap[i / 64] == 0 { ClearZero(i % 64); }
    }
  }

  lemma ClearZero(i: nat)
    requires i < 64
    ensures ClearBit(0, i) == 0
  {}

  /** The best level is the first bit of the first non-zero word. */
  lemma BestFromSummary(dir: Dir, orders: seq<int>, bitmap: seq<Word>, summary: seq<Word>, w: int)
    requires FlatOk(orders, bitmap, summary) && w >= 0 && IsFirst(dir, summary, w)
    ensures w < |bitmap| && bitmap[w] != 0
    ensures IsBest(dir, Levels(orders), 64 * w + FindBit(dir, bitmap[w]))
  {
    assert Has(summary, w);
    forall v | 0 <= v < |bitmap| && bitmap[v] != 0 ensures v == w || dir.Better(w, v) {
      assert Has(summary, v);
    }
    var r := 64 * w + FindBit(dir, bitmap[w]);
    FirstOfWord(dir, bitmap, w, r);
    assert Has(bitmap, r);
    forall i | i in Levels(orders) ensures i == r || dir.Better(r, i) {
      assert Has(bitmap, i);
    }
  }

  lemma NoneFromSummary(dir: Dir, orders: seq<int>, bitmap: seq<Word>, summary: seq<Word>)
    requires FlatOk(orders, bitmap, summary) && IsFirst(dir, summary, -1)
    ensures Levels(orders) == map[]
  {
    forall i ensures i !in Levels(orders) {
      if 0 <= i < 64 * |bitmap| {
        assert !Has(summary, i / 64);
        ZeroWord(bitmap[i / 64]);
      }
      assert !Has(bitmap, i);
    }
    EmptyMap(Levels(orders));
  }

  class FlatSide {
    const dir: Dir
    const minPrice: int
    var orders: seq<int>
    var bitmap: seq<Word>
    var summary: seq<Word>
    var cached: int
    var quotePrice: int
    var quoteQty: int

    ghost predicate Valid()
      reads this
    {
      Rep() && CacheOk(dir, Abs()) && cached < |orders|
    }

    ghost predicate Rep()
      reads this`orders, this`bitmap, this`summary
    {
      FlatOk(orders, bitmap, summary)
    }

    ghost function Abs(): (s: Side)
      reads this
    {
      Side(Levels(orders), cached, quotePrice, quoteQty)
    }

    constructor (dir: Dir, minPrice: int, numLevels: nat)
      ensures Valid() && Abs() == EMPTY && |orders| == numLevels
      ensures this.dir == dir && this.minPrice == minPrice
    {
      this.dir, this.minPrice := dir, minPrice;
      orders := seq(numLevels, i => 0);
      bitmap := seq((numLevels + 63) / 64, i => 0);
      summary := seq(((numLevels + 63) / 64 + 63) / 64, i => 0);
      cached, quotePrice, quoteQty := -1, INVALID, INVALID;
      new;
      ZerosAreEmpty(orders, bitmap, summary);
    }

    /** `update_bid` and `update_ask` */
    method UpdateLevel(idx: nat, qty: int)
      requires Rep() && idx < |orders|
      modifies this`orders, this`bitmap, this`summary
      ensures Rep() && |orders| == old(|orders|)
      ensures Levels(orders) == SetLevel(old(Levels(orders)), idx, qty)
    {
      LevelsAfterStore(orders, idx, qty);
      SetAtHas(bitmap, idx);
      ClearAtHas(bitmap, idx);
      SummaryAfterSet(bitmap, summary, idx);
      SummaryAfterClear(bitmap, summary, idx);
      orders := orders[idx := qty];
      var word := idx / 64;
      if qty > 0 {
        if bitmap[word] == 0 {
          summary := SetAt(summary, word);
        }
        bitmap := SetAt(bitmap, idx);
      } else {
        bitmap := ClearAt(bitmap, idx);
        if bitmap[word] == 0 {
          summary := ClearAt(summary, word);
        }
      }
    }

    /** `best_bid_idx` and `best_ask_idx` */
    method BestIdx() returns (r: int)
      requires Rep() && cached < |orders|
      requires cached in Levels(orders) ==> IsBest(dir, Levels(orders), cached)
      modifies this`cached
      ensures r == Best(dir, Levels(orders)) && cached == r && -1 <= r < |orders|
    {
      if cached >= 0 && orders[cached] > 0 {
        r := cached;
      } else {
        var w := SearchAll(dir, summary);
        if w >= 0 {
          BestFromSummary(dir, orders, bitmap, summary, w);
          cached := w * 64 + FindBit(dir, bitmap[w]);
        } else {
          NoneFromSummary(dir, orders, bitmap, summary);
          cached := -1;
        }
        r := cached;
      }
      BestIsUnique(dir, Levels(orders), r, Best(dir, Levels(orders)));
    }

    method RefreshQuote()
      requires Rep() && cached < |orders|
      requires cached in Levels(orders) ==> IsBest(dir, Levels(orders), cached)
      modifies this`cached, this`quotePrice, this`quoteQty
      ensures cached == Best(dir, Levels(orders)) && -1 <= cached < |orders|
      ensures (quotePrice, quoteQty) == QuoteAt(dir, Levels(orders), minPrice)
    {
      var p := BestIdx();
      quotePrice := if p >= 0 then minPrice + p else INVALID;
      var q := BestIdx();
      quoteQty := if q >= 0 then orders[q] else INVALID;
    }

    /** `add_order` */
    method AddOrder(idx: nat, qty: int)
      requires Valid() && idx < |orders|
      modifies this
      ensures Valid() && |orders| == old(|orders|)
      ensures Abs() == FlatAdd(dir, old(Abs()), idx, qty, minPrice)
    {
      StepKeepsCache(true, dir, Abs(), Add(idx, qty), minPrice);
      UpdateLevel(idx, qty);
      if cached < 0 || dir.Better(idx, cached) {
        cached := idx;
      }
      if cached >= 0 && orders[cached] > 0 {
        quotePrice := minPrice + cached;
        quoteQty := orders[cached];
      } else {
        RefreshQuote();
      }
    }

    /** `delete_order` */
    method DeleteOrder(idx: nat)
      requires Valid() && idx < |orders|
      modifies this
      ensures Valid() && |orders| == old(|orders|)
      ensures Abs() == FlatCancel(dir, old(Abs()), idx, minPrice)
    {
      StepKeepsCache(true, dir, Abs(), Cancel(idx), minPrice);
      UpdateLevel(idx, 0);
      if idx != cached && cached >= 0 && orders[cached] > 0 {
      } else {
        RefreshQuote();
      }
    }

    /** This side's part of the `kClear` branch. */
    method ClearAll()
      requires Valid()
      modifies this
      ensures Valid() && |orders| == old(|orders|)
      ensures Abs() == ClearSide(old(Abs()))
    {
      orders := seq(|orders|, i => 0);
      bitmap := seq(|bitmap|, i => 0);
      summary := seq(|summary|, i => 0);
      quotePrice, quoteQty := INVALID, INVALID;
      ZerosAreEmpty(orders, bitmap, summary);
    }
  }

  lemma ZerosAreEmpty(orders: seq<int>, bitmap: seq<Word>, summary: seq<Word>)
    requires |bitmap| == (|orders| + 63) / 64 && |summary| == (|bitmap| + 63) / 64
    requires (forall i | 0 <= i < |orders| :: orders[i] == 0)
    requires (forall i | 0 <= i < |bitmap| :: bitmap[i] == 0) && forall i | 0 <= i < |summary| :: summary[i] == 0
    ensures FlatOk(orders, bitmap, summary) && Levels(orders) == map[]
  {
    forall i ensures !Has(bitmap, i) && !Has(summary, i) {
      ZeroNoBit(i % 64);
    }
  }
}

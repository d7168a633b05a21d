/** Sequences of 64-bit words read as one long bitmap. */
module Bitmap {
  import opened Bits

  /** Position `i` of the bitmap is set. */
  predicate Has(words: seq<Word>, i: int) {
    0 <= i < 64 * |words| && Bit(words[i / 64], i % 64)
  }

  /** Every bit of word `w` is the bitmap position `64 * w + k`. */
  lemma Locate(words: seq<Word>, w: int, k: int)
    requires 0 <= w < |words|
    ensures Bit(words[w], k) ==> 0 <= k < 64
    ensures 0 <= k < 64 ==> (Bit(words[w], k) <==> Has(words, 64 * w + k))
  {
    BitInWord(words[w], k);
    if 0 <= k < 64 {
      assert (64 * w + k) / 64 == w && (64 * w + k) % 64 == k;
    }
  }

  function SetAt(words: seq<Word>, i: nat): seq<Word>
    requires i < 64 * |words|
  {
    words[i / 64 := SetBit(words[i / 64], i % 64)]
  }

  function ClearAt(words: seq<Word>, i: nat): seq<Word>
    requires i < 64 * |words|
  {
    words[i / 64 := ClearBit(words[i / 64], i % 64)]
  }

  /** Setting position `i` changes that position and no other. */
  lemma SetAtHas(words: seq<Word>, i: nat)
    requires i < 64 * |words|
    ensures forall j :: Has(SetAt(words, i), j) <==> j == i || Has(words, j)
  {}

  /** Clearing position `i` changes that position and no other. */
  lemma ClearAtHas(words: seq<Word>, i: nat)
    requires i < 64 * |words|
    ensures forall j :: Has(ClearAt(words, i), j) <==> j != i && Has(words, j)
  {}

  /** `r` is the first set position strictly behind `start`, or -1 when there is none. */
  ghost predicate IsNext(dir: Dir, words: seq<Word>, start: int, r: int) {
    if r == -1 then forall j | Has(words, j) :: !dir.Better(start, j)
    else
      && Has(words, r) && dir.Better(start, r)
      && forall j | Has(words, j) && dir.Better(start, j) :: j == r || dir.Better(r, j)
  }

  /** `r` is the first set position of the whole bitmap, or -1 when it is empty. */
  ghost predicate IsFirst(dir: Dir, words: seq<Word>, r: int) {
    if r == -1 then forall j :: !Has(words, j)
    else Has(words, r) && forall j | Has(words, j) :: j == r || dir.Better(r, j)
  }

  /** No word with an index in `[lo, hi)` holds a bit. */
  ghost predicate ZeroRange(words: seq<Word>, lo: int, hi: int) {
    forall w | 0 <= w < |words| && lo <= w < hi :: words[w] == 0
  }

  lemma ZeroRangeEmpty(words: seq<Word>, lo: int, hi: int, j: int)
    requires ZeroRange(words, lo, hi) && Has(words, j)
    ensures !(lo <= j / 64 < hi)
  {
    ZeroWord(words[j / 64]);
  }

  /** The first bit of a non-zero word that has only zero words ahead of it. */
  lemma FirstOfWord(dir: Dir, words: seq<Word>, w: int, r: int)
    requires 0 <= w < |words| && words[w] != 0
    requires if dir.Highest? then ZeroRange(words, w + 1, |words|) else ZeroRange(words, 0, w)
    requires r == 64 * w + FindBit(dir, words[w])
    ensures IsFirst(dir, words, r)
  {
    Locate(words, w, FindBit(dir, words[w]));
    forall j | Has(words, j) ensures j == r || dir.Better(r, j) {
      if dir.Highest? {
        ZeroRangeEmpty(words, w + 1, |words|, j);
      } else {
        ZeroRangeEmpty(words, 0, w, j);
      }
    }
  }

  /** A whole-bitmap search: the word loops of `find_in_bucket` and of the best-price search. */
  method SearchAll(dir: Dir, words: seq<Word>) returns (r: int)
    ensures IsFirst(dir, words, r)
  {
    if dir.Highest? {
      var i := |words| - 1;
      while i >= 0
        invariant -1 <= i < |words|
        invariant ZeroRange(words, i + 1, |words|)
      {
        if words[i] != 0 {
          r := i * 64 + FindBit(dir, words[i]);
          FirstOfWord(dir, words, i, r);
          return;
        }
        i := i - 1;
      }
    } else {
      var i := 0;
      while i < |words|
        invariant 0 <= i <= |words|
        invariant ZeroRange(words, 0, i)
      {
        if words[i] != 0 {
          r := i * 64 + FindBit(dir, words[i]);
          FirstOfWord(dir, words, i, r);
          return;
        }
        i := i + 1;
      }
    }
    forall j ensures !Has(words, j) {
      if Has(words, j) { ZeroRangeEmpty(words, 0, |words|, j); }
    }
    r := -1;
  }

  /** The words strictly behind word `w`, up to `i`, are zero and so is the masked word. */
  ghost predicate NothingUpTo(dir: Dir, words: seq<Word>, start: nat, i: int)
    requires start < 64 * |words|
  {
    && Intersect(words[start / 64], MakeMask(dir, start % 64)) == 0
    && if dir.Highest? then ZeroRange(words, i + 1, start / 64) else ZeroRange(words, start / 64 + 1, i)
  }

  lemma NothingBetween(dir: Dir, words: seq<Word>, start: nat, i: int, j: int)
    requires start < 64 * |words| && NothingUpTo(dir, words, start, i)
    requires Has(words, j) && dir.Better(start, j)
    ensures if dir.Highest? then j / 64 <= i else j / 64 >= i
  {
    var w := start / 64;
    if j / 64 == w {
      ZeroWord(Intersect(words[w], MakeMask(dir, start % 64)));
    }
    if dir.Highest? {
      if j / 64 > i { ZeroRangeEmpty(words, i + 1, w, j); }
    } else {
      if j / 64 < i { ZeroRangeEmpty(words, w + 1, i, j); }
    }
  }

  lemma NextInWord(dir: Dir, words: seq<Word>, start: nat, i: int, r: int)
    requires start < 64 * |words| && NothingUpTo(dir, words, start, i)
    requires 0 <= i < |words| && words[i] != 0
    requires if dir.Highest? then i < start / 64 else i > start / 64
    requires r == 64 * i + FindBit(dir, words[i])
    ensures IsNext(dir, words, start, r)
  {
    Locate(words, i, FindBit(dir, words[i]));
    forall j | Has(words, j) && dir.Better(start, j) ensures j == r || dir.Better(r, j) {
      NothingBetween(dir, words, start, i, j);
    }
  }

  lemma NextInFirstWord(dir: Dir, words: seq<Word>, start: nat, r: int)
    requires start < 64 * |words|
    requires Intersect(words[start / 64], MakeMask(dir, start % 64)) != 0
    requires r == 64 * (start / 64) + FindBit(dir, Intersect(words[start / 64], MakeMask(dir, start % 64)))
    ensures IsNext(dir, words, start, r)
  {
    var w := start / 64;
    var masked := Intersect(words[w], MakeMask(dir, start % 64));
    var k := FindBit(dir, masked);
    Locate(words, w, k);
    forall j | Has(words, j) && dir.Better(start, j) ensures j == r || dir.Better(r, j) {
      if j / 64 == w { assert Bit(masked, j % 64); }
    }
  }

  /**
   * The search strictly behind `start`: the masked first word, then the remaining words.
   * It is used on a bucket's bitmap and on the summary words.
   */
  method SearchFrom(dir: Dir, words: seq<Word>, start: nat) returns (r: int)
    requires start < 64 * |words|
    ensures IsNext(dir, words, start, r)
  {
    var w := start / 64;
    var masked := Intersect(words[w], MakeMask(dir, start % 64));
    if masked != 0 {
      r := w * 64 + FindBit(dir, masked);
      NextInFirstWord(dir, words, start, r);
      return;
    }
    if dir.Highest? {
      var i := w - 1;
      while i >= 0
        invariant -1 <= i < w
        invariant NothingUpTo(dir, words, start, i)
      {
        if words[i] != 0 {
          r := i * 64 + FindBit(dir, words[i]);
          NextInWord(dir, words, start, i, r);
          return;
        }
        i := i - 1;
      }
      forall j | Has(words, j) ensures !dir.Better(start, j) {
        if dir.Better(start, j) { NothingBetween(dir, words, start, i, j); }
      }
    } else {
      var i := w + 1;
      while i < |words|
        invariant w < i <= |words|
        invariant NothingUpTo(dir, words, start, i)
      {
        if words[i] != 0 {
          r := i * 64 + FindBit(dir, words[i]);
          NextInWord(dir, words, start, i, r);
          return;
        }
        i := i + 1;
      }
      forall j | Has(words, j) ensures !dir.Better(start, j) {
        if dir.Better(start, j) { NothingBetween(dir, words, start, i, j); }
      }
    }
    r := -1;
  }
}

/**
 * What one side of the order book means, with no bitmaps: a map from price index to
 * quantity, the cached best index, and the side's half of the best bid/offer.
 */
module BookSpec {
  import opened Bits

  /** The raw value of a default-constructed price or quantity. */
  const INVALID := 0x7FFF_FFFF_FFFF_FFFF

  /** `quotePrice` and `quoteQty` are this side's members of `bbo_`. */
  datatype Side = Side(levels: map<int, int>, cached: int, quotePrice: int, quoteQty: int)

  ghost predicate IsBest(dir: Dir, levels: map<int, int>, r: int) {
    if r == -1 then levels == map[]
    else r in levels && forall x | x in levels :: x == r || dir.Better(r, x)
  }

  /** Active indices are price offsets, so they are not negative. */
  ghost predicate Indexed(levels: map<int, int>) {
    forall x | x in levels :: x >= 0 && levels[x] > 0
  }

  lemma EmptyMap(levels: map<int, int>)
    ensures (forall x :: x !in levels) ==> levels == map[]
  {
    if forall x :: x !in levels { assert levels == map[]; }
  }

  ghost function AnyKey(levels: map<int, int>): (x: int)
    requires levels != map[]
    ensures x in levels
  {
    EmptyMap(levels);
    var x :| x in levels;
    x
  }

  lemma {:induction false} BestExists(dir: Dir, levels: map<int, int>) returns (r: int)
    requires Indexed(levels)
    ensures IsBest(dir, levels, r)
    decreases |levels|
  {
    if levels == map[] {
      r := -1;
    } else {
      var x := AnyKey(levels);
      var rest := levels - {x};
      assert levels.Keys == rest.Keys + {x};
      assert |rest.Keys| < |levels.Keys|;
      var y := BestExists(dir, rest);
      r := if y == -1 || dir.Better(x, y) then x else y;
    }
  }

  lemma SomeBest(dir: Dir, levels: map<int, int>)
    requires Indexed(levels)
    ensures exists r :: IsBest(dir, levels, r)
  {
    var r := BestExists(dir, levels);
  }

  /** The first active index in price priority, or -1 on an empty side. */
  ghost function Best(dir: Dir, levels: map<int, int>): (r: int)
    requires Indexed(levels)
    ensures IsBest(dir, levels, r)
  {
    SomeBest(dir, levels);
    var r :| IsBest(dir, levels, r);
    r
  }

  /** A level at `idx` with a positive quantity replaces what was there; any other removes it. */
  function SetLevel(levels: map<int, int>, idx: int, qty: int): map<int, int> {
    if qty > 0 then levels[idx := qty] else levels - {idx}
  }

  ghost function QuoteAt(dir: Dir, levels: map<int, int>, minPrice: int): (q: (int, int))
    requires Indexed(levels)
  {
    var b := Best(dir, levels);
    if b == -1 then (INVALID, INVALID) else (minPrice + b, levels[b])
  }

  /** `bbo_` shows exactly the best active level, or the invalid value on an empty side. */
  ghost predicate BboExact(dir: Dir, s: Side, minPrice: int) {
    Indexed(s.levels) && (s.quotePrice, s.quoteQty) == QuoteAt(dir, s.levels, minPrice)
  }

  /** No active level is ahead of a non-negative cached index; a cached -1 means an empty side. */
  ghost predicate CacheOk(dir: Dir, s: Side) {
    && Indexed(s.levels)
    && s.cached >= -1
    && (s.cached == -1 ==> s.levels == map[])
    && forall x | x in s.levels :: !dir.Better(x, s.cached)
  }

  /** The cached index is the best index itself. */
  ghost predicate Fresh(dir: Dir, s: Side) {
    Indexed(s.levels) && s.cached == Best(dir, s.levels)
  }

  const EMPTY := Side(map[], -1, INVALID, INVALID)

  // ----- bucket book -----

  function BucketAdd(dir: Dir, s: Side, idx: nat, qty: int, minPrice: int): Side {
    var levels := SetLevel(s.levels, idx, qty);
    if s.cached < 0 || dir.Better(idx, s.cached) then Side(levels, idx, minPrice + idx, qty)
    else if idx == s.cached then s.(levels := levels, quoteQty := qty)
    else s.(levels := levels)
  }

  ghost function BucketCancel(dir: Dir, s: Side, idx: nat, minPrice: int): Side
    requires Indexed(s.levels)
  {
    var levels := SetLevel(s.levels, idx, 0);
    if idx == s.cached then
      var q := QuoteAt(dir, levels, minPrice);
      Side(levels, Best(dir, levels), q.0, q.1)
    else s.(levels := levels)
  }

  /** Clear empties the side and its quote but leaves the cached index as it was. */
  function ClearSide(s: Side): Side {
    Side(map[], s.cached, INVALID, INVALID)
  }

  // ----- flat book -----

  ghost function FlatAdd(dir: Dir, s: Side, idx: nat, qty: int, minPrice: int): Side
    requires Indexed(s.levels)
  {
    var levels := SetLevel(s.levels, idx, qty);
    var c := if s.cached < 0 || dir.Better(idx, s.cached) then idx else s.cached;
    if c in levels then Side(levels, c, minPrice + c, levels[c])
    else
      var q := QuoteAt(dir, levels, minPrice);
      Side(levels, Best(dir, levels), q.0, q.1)
  }

  ghost function FlatCancel(dir: Dir, s: Side, idx: nat, minPrice: int): Side
    requires Indexed(s.levels)
  {
    var levels := SetLevel(s.levels, idx, 0);
    if idx != s.cached && s.cached in levels then s.(levels := levels)
    else
      var q := QuoteAt(dir, levels, minPrice);
      Side(levels, Best(dir, levels), q.0, q.1)
  }

  // ----- runs -----

  datatype Op = Add(idx: nat, qty: int) | Cancel(idx: nat) | Clear

  ghost function Step(flat: bool, dir: Dir, s: Side, op: Op, minPrice: int): Side
    requires Indexed(s.levels)
  {
    match op
    case Add(idx, qty) => if flat then FlatAdd(dir, s, idx, qty, minPrice) else BucketAdd(dir, s, idx, qty, minPrice)
    case Cancel(idx) => if flat then FlatCancel(dir, s, idx, minPrice) else BucketCancel(dir, s, idx, minPrice)
    case Clear => ClearSide(s)
  }

  lemma StepIndexed(flat: bool, dir: Dir, s: Side, op: Op, minPrice: int)
    requires Indexed(s.levels)
    ensures Indexed(Step(flat, dir, s, op, minPrice).levels)
  {}

  /** The state after the operations `ops`, oldest first. */
  ghost function Run(flat: bool, dir: Dir, ops: seq<Op>, minPrice: int): (s: Side)
    ensures Indexed(s.levels)
  {
    if ops == [] then EMPTY
    else
      var before := Run(flat, dir, ops[..|ops| - 1], minPrice);
      StepIndexed(flat, dir, before, ops[|ops| - 1], minPrice);
      Step(flat, dir, before, ops[|ops| - 1], minPrice)
  }

  /** The quantity that the latest operation at `idx` since the last Clear left there; 0 for none. */
  function Latest(ops: seq<Op>, idx: int): nat {
    if ops == [] then 0
    else
      var before := Latest(ops[..|ops| - 1], idx);
      match ops[|ops| - 1]
      case Add(i, qty) => if i != idx then before else if qty > 0 then qty else 0
      case Cancel(i) => if i != idx then before else 0
      case Clear => 0
  }

  /** After every run, of either book, the levels are exactly what the latest operations left. */
  lemma {:induction false} LevelsAreLatest(flat: bool, dir: Dir, ops: seq<Op>, minPrice: int, idx: int)
    ensures var levels := Run(flat, dir, ops, minPrice).levels;
            && (idx in levels <==> Latest(ops, idx) > 0)
            && (idx in levels ==> levels[idx] == Latest(ops, idx))
  {
    if ops != [] { LevelsAreLatest(flat, dir, ops[..|ops| - 1], minPrice, idx); }
  }

  lemma BestIsUnique(dir: Dir, levels: map<int, int>, a: int, b: int)
    requires Indexed(levels) && IsBest(dir, levels, a) && IsBest(dir, levels, b)
    ensures a == b
  {}

  /** Every operation, with any quantity, keeps the cache invariant of either book. */
  lemma StepKeepsCache(flat: bool, dir: Dir, s: Side, op: Op, minPrice: int)
    requires CacheOk(dir, s)
    ensures CacheOk(dir, Step(flat, dir, s, op, minPrice))
  {}

  /** A side that carries out a bucket-book Cancel field by field. */
  lemma CancelFields(dir: Dir, s: Side, idx: nat, minPrice: int, t: Side)
    requires CacheOk(dir, s) && t.levels == SetLevel(s.levels, idx, 0)
    requires idx == s.cached ==>
               t.cached == Best(dir, t.levels) && (t.quotePrice, t.quoteQty) == QuoteAt(dir, t.levels, minPrice)
    requires idx != s.cached ==> t == s.(levels := t.levels)
    ensures t == BucketCancel(dir, s, idx, minPrice) && CacheOk(dir, t)
  {
    StepKeepsCache(false, dir, s, Cancel(idx), minPrice);
  }

  lemma {:induction false} RunKeepsCache(flat: bool, dir: Dir, ops: seq<Op>, minPrice: int)
    ensures CacheOk(dir, Run(flat, dir, ops, minPrice))
  {
    if ops != [] {
      RunKeepsCache(flat, dir, ops[..|ops| - 1], minPrice);
      StepKeepsCache(flat, dir, Run(flat, dir, ops[..|ops| - 1], minPrice), ops[|ops| - 1], minPrice);
    }
  }

  /** A cached index that is active is the best index. */
  lemma ActiveCacheIsBest(dir: Dir, s: Side)
    requires CacheOk(dir, s) && s.cached in s.levels
    ensures s.cached == Best(dir, s.levels)
  {
    BestIsUnique(dir, s.levels, s.cached, Best(dir, s.levels));
  }

  lemma FlatAddExact(dir: Dir, s: Side, idx: nat, qty: int, minPrice: int)
    requires CacheOk(dir, s)
    ensures BboExact(dir, FlatAdd(dir, s, idx, qty, minPrice), minPrice)
  {
    StepKeepsCache(true, dir, s, Add(idx, qty), minPrice);
    var t := FlatAdd(dir, s, idx, qty, minPrice);
    if t.cached in t.levels { ActiveCacheIsBest(dir, t); }
  }

  lemma FlatCancelExact(dir: Dir, s: Side, idx: nat, minPrice: int)
    requires CacheOk(dir, s) && BboExact(dir, s, minPrice)
    ensures BboExact(dir, FlatCancel(dir, s, idx, minPrice), minPrice)
  {
    StepKeepsCache(true, dir, s, Cancel(idx), minPrice);
    var t := FlatCancel(dir, s, idx, minPrice);
    if idx != s.cached && s.cached in t.levels {
      ActiveCacheIsBest(dir, s);
      ActiveCacheIsBest(dir, t);
    }
  }

  /** The flat book's `bbo_` is exact after every run, for any quantities and any Clears. */
  lemma {:induction false} FlatRunExact(dir: Dir, ops: seq<Op>, minPrice: int)
    ensures BboExact(dir, Run(true, dir, ops, minPrice), minPrice)
  {
    if ops != [] {
      var before := Run(true, dir, ops[..|ops| - 1], minPrice);
      FlatRunExact(dir, ops[..|ops| - 1], minPrice);
      RunKeepsCache(true, dir, ops[..|ops| - 1], minPrice);
      match ops[|ops| - 1] {
        case Add(idx, qty) => FlatAddExact(dir, before, idx, qty, minPrice);
        case Cancel(idx) => FlatCancelExact(dir, before, idx, minPrice);
        case Clear =>
      }
    }
  }

  /** When a bucket-book Add leaves `bbo_` exact, told from the state before the Add. */
  ghost predicate AddKeepsBbo(dir: Dir, s: Side, idx: nat, qty: int)
    requires Indexed(s.levels)
  {
    var b := Best(dir, s.levels);
    if s.cached < 0 || dir.Better(idx, s.cached) then qty > 0
    else if idx == s.cached then s.cached in s.levels && qty > 0
    else if idx == b then qty == s.levels[b]
    else qty <= 0 || (b != -1 && dir.Better(b, idx))
  }

  lemma BestAfterRemoval(dir: Dir, levels: map<int, int>, idx: int)
    requires Indexed(levels) && idx != Best(dir, levels)
    ensures Best(dir, levels - {idx}) == Best(dir, levels)
  {
    BestIsUnique(dir, levels - {idx}, Best(dir, levels - {idx}), Best(dir, levels));
  }

  lemma BestAfterInsert(dir: Dir, levels: map<int, int>, idx: nat, qty: int)
    requires Indexed(levels) && qty > 0
    ensures var b := Best(dir, levels);
            Best(dir, levels[idx := qty]) == if b == -1 || dir.Better(idx, b) then idx else b
  {
    var b := Best(dir, levels);
    BestIsUnique(dir, levels[idx := qty], Best(dir, levels[idx := qty]),
                 if b == -1 || dir.Better(idx, b) then idx else b);
  }

  /** The exact condition under which a bucket-book Add keeps `bbo_` exact. */
  lemma AddExactIff(dir: Dir, s: Side, idx: nat, qty: int, minPrice: int)
    requires CacheOk(dir, s) && BboExact(dir, s, minPrice)
    requires minPrice + idx < INVALID
    ensures BboExact(dir, BucketAdd(dir, s, idx, qty, minPrice), minPrice) <==> AddKeepsBbo(dir, s, idx, qty)
  {
    var b := Best(dir, s.levels);
    if qty > 0 {
      BestAfterInsert(dir, s.levels, idx, qty);
    } else if idx != b {
      BestAfterRemoval(dir, s.levels, idx);
    }
  }

  /** The exact condition under which a bucket-book Cancel keeps `bbo_` exact. */
  lemma CancelExactIff(dir: Dir, s: Side, idx: nat, minPrice: int)
    requires CacheOk(dir, s) && BboExact(dir, s, minPrice)
    requires minPrice + idx < INVALID
    ensures BboExact(dir, BucketCancel(dir, s, idx, minPrice), minPrice)
            <==> (idx == s.cached || idx != Best(dir, s.levels))
  {
    if idx != Best(dir, s.levels) { BestAfterRemoval(dir, s.levels, idx); }
  }

  /** After Clear the cache is the best index again exactly when it was never set. */
  lemma ClearFreshIff(dir: Dir, s: Side)
    requires CacheOk(dir, s)
    ensures Fresh(dir, ClearSide(s)) <==> s.cached == -1
  {}

  /** A quiet operation: a positive Add or a Cancel. */
  predicate Quiet(op: Op) {
    match op
    case Add(_, qty) => qty > 0
    case Cancel(_) => true
    case Clear => false
  }

  lemma QuietStep(dir: Dir, s: Side, op: Op, minPrice: int)
    requires Fresh(dir, s) && BboExact(dir, s, minPrice) && Quiet(op)
    ensures var t := Step(false, dir, s, op, minPrice);
            Fresh(dir, t) && BboExact(dir, t, minPrice)
  {
    match op
    case Add(idx, qty) => BestAfterInsert(dir, s.levels, idx, qty);
    case Cancel(idx) => if idx != s.cached { BestAfterRemoval(dir, s.levels, idx); }
    case Clear =>
  }

  /** The bucket book's `bbo_` is exact after every run of positive Adds and Cancels. */
  lemma {:induction false} QuietRunExact(dir: Dir, ops: seq<Op>, minPrice: int)
    requires forall i | 0 <= i < |ops| :: Quiet(ops[i])
    ensures Fresh(dir, Run(false, dir, ops, minPrice))
    ensures BboExact(dir, Run(false, dir, ops, minPrice), minPrice)
  {
    if ops != [] {
      QuietRunExact(dir, ops[..|ops| - 1], minPrice);
      QuietStep(dir, Run(false, dir, ops[..|ops| - 1], minPrice), ops[|ops| - 1], minPrice);
    }
  }

  /** Clear leaves the cache stale, and the next worse Add is then missing from `bbo_`. */
  lemma StaleCacheMissesAdd(minPrice: int)
    requires 0 <= minPrice < 1000
    ensures var ops := [Add(7, 5), Clear, Add(3, 2)];
            var s := Run(false, Highest, ops, minPrice);
            s.levels == map[3 := 2] && s.quotePrice == INVALID && !BboExact(Highest, s, minPrice)
  {
    var one := [Add(7, 5)];
    assert one[..0] == [];
    var s1 := Run(false, Highest, one, minPrice);
    assert one[0] == Add(7, 5) && Run(false, Highest, one[..0], minPrice) == EMPTY;
    assert s1 == Step(false, Highest, EMPTY, one[0], minPrice);
    assert s1 == Side(map[7 := 5], 7, minPrice + 7, 5);
    var two := [Add(7, 5), Clear];
    assert two[..1] == one;
    var s2 := Run(false, Highest, two, minPrice);
    assert s2 == Side(map[], 7, INVALID, INVALID);
    var ops := [Add(7, 5), Clear, Add(3, 2)];
    assert ops[..2] == two;
    var s := Run(false, Highest, ops, minPrice);
    assert s == Side(map[3 := 2], 7, INVALID, INVALID);
    BestIsUnique(Highest, s.levels, 3, Best(Highest, s.levels));
  }
}

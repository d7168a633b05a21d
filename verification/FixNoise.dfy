/** The FIX reader on a stream that does not begin with a message: it finds the first header however the noise is cut. */
module FixNoise {
  import opened FixFraming

  /** What the reader keeps of a buffer without a header: as much as could be the start of one. */
  function Tail(s: string): string {
    if |s| > 4 then s[|s| - 4..] else s
  }

  /** No header begins inside the noise `g`, not even one that runs into the messages behind it. */
  ghost predicate NoiseBefore(g: string, ws: seq<string>) {
    AllMessages(ws) && forall i | 0 <= i < |g| :: !OccursAt(g + Flat(ws), SIGNATURE, i)
  }

  /** The first header has not arrived whole. */
  ghost predicate HeaderMissing(g: string, ws: seq<string>, received: string) {
    ws == [] || |received| < |g| + 5
  }

  lemma NoHeaderYet(g: string, ws: seq<string>, r: string, t: nat)
    requires NoiseBefore(g, ws) && r <= g + Flat(ws) && HeaderMissing(g, ws, r) && t <= |r|
    ensures Find(r[t..], SIGNATURE, 0) == -1
  {
    forall i | 0 <= i ensures !OccursAt(r[t..], SIGNATURE, i) {
      if OccursAt(r[t..], SIGNATURE, i) {
        var all := g + Flat(ws);
        assert r[t..][i..i + 5] == all[t + i..t + i + 5];
        assert OccursAt(all, SIGNATURE, t + i);
      }
    }
  }

  /** While there is no header nothing is emitted, and the last four characters are kept. */
  lemma StillNoise(g: string, ws: seq<string>, r: string, chunk: string)
    requires NoiseBefore(g, ws) && r + chunk <= g + Flat(ws) && HeaderMissing(g, ws, r + chunk)
    ensures Drain(Tail(r) + chunk) == Drained([], Tail(r + chunk), Waiting)
  {
    var t := |r| - |Tail(r)|;
    assert (r + chunk)[t..] == Tail(r) + chunk;
    NoHeaderYet(g, ws, r + chunk, t);
    assert Tail((r + chunk)[t..]) == Tail(r + chunk);
  }

  /** Everything before the first header is dropped. */
  lemma DrainSkips(x: string, n: nat)
    requires n <= |x| && Find(x, SIGNATURE, 0) == n && Drain(x[n..]).outcome == Waiting
    ensures Drain(x) == Drain(x[n..])
  {
    assert x[n..][0..5] == x[n..n + 5];
    assert OccursAt(x[n..], SIGNATURE, 0);
    assert Find(x[n..], SIGNATURE, 0) == 0;
    assert x[n..][0..] == x[n..];
    assert Extract(x) == Extract(x[n..]);
  }

  lemma MessageStarts(w: string)
    requires IsMessage(w)
    ensures |w| >= 5 && w[..5] == SIGNATURE
  {
    var m: FixMessage :| WellFormed(m) && w == Encode(m);
    assert forall i | 0 <= i < 5 :: w[i] == SIGNATURE[i];
  }

  lemma FirstHeader(g: string, ws: seq<string>, r: string, t: nat)
    requires NoiseBefore(g, ws) && r <= g + Flat(ws) && !HeaderMissing(g, ws, r) && t <= |g|
    ensures Find(r[t..], SIGNATURE, 0) == |g| - t
  {
    var all, x := g + Flat(ws), r[t..];
    assert IsMessage(ws[0]);
    MessageStarts(ws[0]);
    assert forall i | 0 <= i < 5 :: x[|g| - t + i] == all[|g| + i] == ws[0][..5][i];
    assert x[|g| - t..|g| - t + 5] == SIGNATURE;
    assert OccursAt(x, SIGNATURE, |g| - t);
    forall i | 0 <= i < |g| - t ensures !OccursAt(x, SIGNATURE, i) {
      if OccursAt(x, SIGNATURE, i) {
        assert x[i..i + 5] == all[t + i..t + i + 5];
        assert OccursAt(all, SIGNATURE, t + i);
      }
    }
  }

  lemma RestOfStream(g: string, ws: seq<string>, r: string)
    requires r <= g + Flat(ws) && |r| >= |g|
    ensures r[|g|..] <= Flat(ws)
  {
    SuffixOfPrefix(r, g, Flat(ws));
  }

  /** The chunk that completes the first header. */
  lemma HeaderArrives(g: string, ws: seq<string>, r: string, chunk: string) returns (k: nat)
    requires NoiseBefore(g, ws) && r + chunk <= g + Flat(ws)
    requires HeaderMissing(g, ws, r) && !HeaderMissing(g, ws, r + chunk)
    ensures DrainsTo(ws, (r + chunk)[|g|..], k) && Drain(Tail(r) + chunk) == Drain((r + chunk)[|g|..])
  {
    var all, t := r + chunk, |r| - |Tail(r)|;
    assert all[t..] == Tail(r) + chunk;
    FirstHeader(g, ws, all, t);
    RestOfStream(g, ws, all);
    k := DrainPrefix(ws, all[|g|..]);
    assert all[t..][|g| - t..] == all[|g|..];
    DrainSkips(all[t..], |g| - t);
  }

  /** What the reader has emitted and holds once `r` has arrived, `k` messages among it. */
  ghost predicate After(g: string, ws: seq<string>, r: string, k: nat, read: (seq<string>, string)) {
    if HeaderMissing(g, ws, r) then read == ([], Tail(r))
    else WholeCount(ws, |r| - |g|, k) && read == (ws[..k], r[|g|..][|Flat(ws[..k])|..])
  }

  /** A chunk behind the first header. */
  lemma GoesOn(g: string, ws: seq<string>, r: string, chunk: string, j: nat) returns (k: nat)
    requires NoiseBefore(g, ws) && r + chunk <= g + Flat(ws) && !HeaderMissing(g, ws, r) && WholeCount(ws, |r| - |g|, j)
    ensures var d := Drain(r[|g|..][|Flat(ws[..j])|..] + chunk);
            && WholeCount(ws, |r + chunk| - |g|, k)
            && ws[..j] + d.msgs == ws[..k] && d.rest == (r + chunk)[|g|..][|Flat(ws[..k])|..]
  {
    Suffixes(r, chunk, |g|);
    RestOfStream(g, ws, r + chunk);
    k := ReadOn(ws, j, r[|g|..], chunk, |Flat(ws[..j])|);
  }

  lemma MoreNoise(g: string, ws: seq<string>, r: string, chunk: string, j: nat, read: (seq<string>, string), d: Drained)
    requires NoiseBefore(g, ws) && r + chunk <= g + Flat(ws) && After(g, ws, r, j, read) && d == Drain(read.1 + chunk)
    requires HeaderMissing(g, ws, r + chunk)
    ensures After(g, ws, r + chunk, 0, (read.0 + d.msgs, d.rest))
  {
    StillNoise(g, ws, r, chunk);
    assert read.0 + d.msgs == [];
  }

  lemma MoreHeader(g: string, ws: seq<string>, r: string, chunk: string, j: nat, read: (seq<string>, string), d: Drained)
    returns (k: nat)
    requires NoiseBefore(g, ws) && r + chunk <= g + Flat(ws) && After(g, ws, r, j, read) && d == Drain(read.1 + chunk)
    requires HeaderMissing(g, ws, r) && !HeaderMissing(g, ws, r + chunk)
    ensures After(g, ws, r + chunk, k, (read.0 + d.msgs, d.rest))
  {
    k := HeaderArrives(g, ws, r, chunk);
    assert read.0 + d.msgs == d.msgs == ws[..k];
  }

  lemma MoreBehind(g: string, ws: seq<string>, r: string, chunk: string, j: nat, read: (seq<string>, string), d: Drained)
    returns (k: nat)
    requires NoiseBefore(g, ws) && r + chunk <= g + Flat(ws) && After(g, ws, r, j, read) && d == Drain(read.1 + chunk)
    requires !HeaderMissing(g, ws, r)
    ensures After(g, ws, r + chunk, k, (read.0 + d.msgs, d.rest))
  {
    assert read == (ws[..j], r[|g|..][|Flat(ws[..j])|..]);
    k := GoesOn(g, ws, r, chunk, j);
  }

  lemma AfterOneMore(g: string, ws: seq<string>, r: string, chunk: string, j: nat, read: (seq<string>, string), d: Drained)
    returns (k: nat)
    requires NoiseBefore(g, ws) && r + chunk <= g + Flat(ws)
    requires var held := After(g, ws, r, j, read); held && d == Drain(read.1 + chunk)
    ensures var after := After(g, ws, r + chunk, k, (read.0 + d.msgs, d.rest)); after
  {
    if HeaderMissing(g, ws, r + chunk) {
      k := 0;
      MoreNoise(g, ws, r, chunk, j, read, d);
    } else if HeaderMissing(g, ws, r) {
      k := MoreHeader(g, ws, r, chunk, j, read, d);
    } else {
      k := MoreBehind(g, ws, r, chunk, j, read, d);
    }
  }

  /**
   * However noise and the messages behind it are cut into chunks, the reader drops the noise and emits exactly the
   * messages that have arrived whole, in order; until the first header is there it keeps four characters at most.
   */
  lemma {:induction false} NoiseIsSkipped(g: string, ws: seq<string>, chunks: seq<string>) returns (k: nat)
    requires NoiseBefore(g, ws) && Joined(chunks) <= g + Flat(ws)
    ensures After(g, ws, Joined(chunks), k, ReadAll(chunks))
    decreases |chunks|
  {
    if chunks == [] {
      k := 0;
    } else {
      var before, chunk := chunks[..|chunks| - 1], chunks[|chunks| - 1];
      var j := NoiseIsSkipped(g, ws, before);
      k := AfterOneMore(g, ws, Joined(before), chunk, j, ReadAll(before), Drain(ReadAll(before).1 + chunk));
    }
  }

  /** Once noise and messages have all arrived, every message is out. */
  lemma EverythingArrivesAfterNoise(g: string, ws: seq<string>, chunks: seq<string>)
    requires NoiseBefore(g, ws) && ws != [] && Joined(chunks) == g + Flat(ws)
    ensures ReadAll(chunks) == (ws, [])
  {
    var k := NoiseIsSkipped(g, ws, chunks);
    assert IsMessage(ws[0]);
    MessageStarts(ws[0]);
    FlatSplit(ws, k);
    TailHoldsFirst(ws, k);
    assert (g + Flat(ws))[|g|..] == Flat(ws);
  }

  // ----- a BodyLength that is no number -----

  /** A BodyLength field that is not a number ends the reader with an exception. */
  lemma NotANumberThrows(p: string, h: nat, e: nat)
    requires h + 2 <= e < |p| && p[h..h + 2] == "9=" && p[e] == SOH
    requires (forall i | 0 <= i < h :: p[i] != '9') && (forall i | h + 2 <= i < e :: p[i] != SOH)
    requires StoI(p[h + 2..e]).None?
    ensures Peek(p) == Throws
  {
    assert p[h..h + 2][0] == '9' && p[h..h + 2][1] == '=';
    FindByFirstChar(p, "9=", 0, h);
    assert p[e..e + 1] == [SOH];
    FindByFirstChar(p, [SOH], h, e);
  }
}

/** Reassembly of FIX messages from a byte stream that arrives in arbitrary chunks. */
module FixFraming {
  import opened Arith
  import opened Wrappers

  const INT_MAX := 0x7FFF_FFFF

  const SOH: char := '\U{0001}'
  const SIGNATURE := "8=FIX"

  // ----- library calls -----

  /** `pat` occurs in `s` at position `i`. */
  predicate OccursAt(s: string, pat: string, i: int) {
    0 <= i && i + |pat| <= |s| && s[i..i + |pat|] == pat
  }

  /** `std::string::find`: the first occurrence at or after `from`, or -1. */
  function Find(s: string, pat: string, from: nat): (r: int)
    ensures r == -1 ==> forall i | from <= i :: !OccursAt(s, pat, i)
    ensures r != -1 ==> from <= r && OccursAt(s, pat, r) && forall i | from <= i < r :: !OccursAt(s, pat, i)
    decreases if from <= |s| then |s| - from + 1 else 0
  {
    if from + |pat| > |s| then -1
    else if OccursAt(s, pat, from) then from
    else Find(s, pat, from + 1)
  }

  predicate IsDigit(c: char) {
    '0' <= c <= '9'
  }

  predicate IsSpace(c: char) {
    c == ' ' || '\t' <= c <= '\r'
  }

  function DigitValue(c: char): nat
    requires IsDigit(c)
  {
    c as int - '0' as int
  }

  /** The value of the leading run of digits, continuing from `acc`. */
  function LeadingValue(s: string, acc: nat): nat {
    if s == [] || !IsDigit(s[0]) then acc else LeadingValue(s[1..], 10 * acc + DigitValue(s[0]))
  }

  function SkipSpace(s: string): string {
    if s != [] && IsSpace(s[0]) then SkipSpace(s[1..]) else s
  }

  /** `std::stoi`; `None` stands for its exceptions. */
  function StoI(s: string): Optional<int> {
    var t := SkipSpace(s);
    var negative := t != [] && t[0] == '-';
    var u := if t != [] && (t[0] == '-' || t[0] == '+') then t[1..] else t;
    if u == [] || !IsDigit(u[0]) then None
    else
      var v: int := LeadingValue(u, 0);
      var signed := if negative then -v else v;
      if -INT_MAX - 1 <= signed <= INT_MAX then Some(signed) else None
  }

  // ----- extraction -----

  /** `strip_to_header`: what it leaves in the buffer, and whether a header was found. */
  function Stripped(buffer: string): (string, bool) {
    var pos := Find(buffer, SIGNATURE, 0);
    if pos == -1 then (if |buffer| > 4 then buffer[|buffer| - 4..] else buffer, false)
    else (buffer[pos..], true)
  }

  datatype Peeked = NeedMore | Whole(length: nat) | Throws

  /** `peek_full_message_len`; the length is a `size_t` sum, so a negative BodyLength wraps. */
  function Peek(buffer: string): Peeked {
    var bodyStart := Find(buffer, "9=", 0);
    if bodyStart == -1 then NeedMore
    else
      var bodyEnd := Find(buffer, [SOH], bodyStart);
      if bodyEnd == -1 then NeedMore
      else
        SohAfterTag(buffer, bodyStart, bodyEnd);
        match StoI(buffer[bodyStart + 2..bodyEnd])
        case None => Throws
        case Some(bodyLen) =>
          var length := (bodyEnd + 1 + bodyLen + 7) % TWO_64;
          if |buffer| >= length then Whole(length) else NeedMore
  }

  lemma SohAfterTag(buffer: string, bodyStart: int, bodyEnd: int)
    requires OccursAt(buffer, "9=", bodyStart) && bodyStart <= bodyEnd && OccursAt(buffer, [SOH], bodyEnd)
    ensures bodyStart + 2 <= bodyEnd
  {
    assert buffer[bodyStart..bodyStart + 2][0] == '9' && buffer[bodyStart..bodyStart + 2][1] == '=';
    assert buffer[bodyEnd..bodyEnd + 1][0] == SOH;
  }

  datatype Extraction = Wait(rest: string) | Message(msg: string, rest: string) | Crash

  /** `extract_next_message` */
  function Extract(buffer: string): Extraction {
    var (stripped, found) := Stripped(buffer);
    if !found then Wait(stripped)
    else match Peek(stripped)
      case NeedMore => Wait(stripped)
      case Throws => Crash
      case Whole(n) => Message(stripped[..n], stripped[n..])
  }

  /** How the extraction loop ends: for want of bytes, by an exception, or never, on an empty message. */
  datatype Outcome = Waiting | Crashed | Spinning

  datatype Drained = Drained(msgs: seq<string>, rest: string, outcome: Outcome)

  /** The inner loop of `read_loop`. */
  function Drain(buffer: string): Drained
    decreases |buffer|
  {
    match Extract(buffer)
    case Wait(rest) => Drained([], rest, Waiting)
    case Crash => Drained([], buffer, Crashed)
    case Message(msg, rest) =>
      if |rest| >= |buffer| then Drained([], buffer, Spinning)
      else
        var d := Drain(rest);
        Drained([msg] + d.msgs, d.rest, d.outcome)
  }

  // ----- FIX 4.4 messages -----

  /** BeginString's version after "FIX", the BodyLength digits, the body, and the three CheckSum digits. */
  datatype FixMessage = FixMessage(version: string, digits: string, body: string, checksum: string)

  function Header(m: FixMessage): string {
    SIGNATURE + m.version + [SOH]
  }

  /** The message on the wire. */
  function Encode(m: FixMessage): string {
    Header(m) + "9=" + m.digits + [SOH] + m.body + "10=" + m.checksum + [SOH]
  }

  /** BodyLength counts the characters between its own field and the CheckSum field. */
  ghost predicate WellFormed(m: FixMessage) {
    && '9' !in m.version
    && m.digits != [] && (forall i | 0 <= i < |m.digits| :: IsDigit(m.digits[i]))
    && LeadingValue(m.digits, 0) == |m.body| <= INT_MAX
    && |m.checksum| == 3 && |Encode(m)| < TWO_64
  }

  /** `w` is a well-formed message on the wire. */
  ghost predicate IsMessage(w: string) {
    exists m: FixMessage :: WellFormed(m) && w == Encode(m)
  }

  /** The stream the messages `ws` form. */
  function Flat(ws: seq<string>): string {
    if ws == [] then [] else ws[0] + Flat(ws[1..])
  }

  // ----- finding the fields of a well-formed prefix -----

  lemma FindByFirstChar(s: string, pat: string, from: nat, pos: nat)
    requires pat != [] && from <= pos && OccursAt(s, pat, pos)
    requires forall i | from <= i < pos :: s[i] != pat[0]
    ensures Find(s, pat, from) == pos
  {
    forall i | from <= i < pos ensures !OccursAt(s, pat, i) {
      if i + |pat| <= |s| { assert s[i..i + |pat|][0] == s[i]; }
    }
  }

  lemma NotFoundByFirstChar(s: string, pat: string, from: nat)
    requires pat != []
    requires forall i | from <= i && i + |pat| <= |s| :: s[i] != pat[0]
    ensures Find(s, pat, from) == -1
  {
    forall i | from <= i ensures !OccursAt(s, pat, i) {
      if i + |pat| <= |s| { assert s[i..i + |pat|][0] == s[i]; }
    }
  }

  lemma {:induction false} DigitsParse(s: string)
    requires s != [] && (forall i | 0 <= i < |s| :: IsDigit(s[i])) && LeadingValue(s, 0) <= INT_MAX
    ensures StoI(s) == Some(LeadingValue(s, 0))
  {
    assert IsDigit(s[0]);
    assert SkipSpace(s) == s;
  }

  /** `p` shows the message's characters, as far as it reaches, up to the end of the BodyLength field. */
  ghost predicate Begins(m: FixMessage, p: string) {
    var h, d := |Header(m)|, |m.digits|;
    && (forall i | 0 <= i < h && i < |p| :: p[i] == Header(m)[i])
    && (|p| > h ==> p[h] == '9') && (|p| > h + 1 ==> p[h + 1] == '=')
    && (forall i | 0 <= i < d && h + 2 + i < |p| :: p[h + 2 + i] == m.digits[i])
    && (|p| > h + 2 + d ==> p[h + 2 + d] == SOH)
  }

  lemma EncodedLength(m: FixMessage)
    ensures |Encode(m)| == |Header(m)| + 2 + |m.digits| + 1 + |m.body| + 4 + |m.checksum|
  {}

  lemma PrefixBegins(m: FixMessage, rest: string, p: string)
    requires p <= Encode(m) + rest
    ensures Begins(m, p)
  {
    var s := Encode(m) + rest;
    var h, d := |Header(m)|, |m.digits|;
    assert forall i | 0 <= i < h :: s[i] == Header(m)[i];
    assert s[h] == '9' && s[h + 1] == '=';
    assert forall i | 0 <= i < d :: s[h + 2 + i] == m.digits[i];
    assert s[h + 2 + d] == SOH;
  }

  lemma HeaderHasNoNine(m: FixMessage, i: nat)
    requires WellFormed(m) && i < |Header(m)|
    ensures Header(m)[i] != '9'
  {
    if 5 <= i < 5 + |m.version| {
      assert Header(m)[i] == m.version[i - 5];
      assert m.version[i - 5] in m.version;
    }
  }

  lemma NoNineBefore(m: FixMessage, p: string)
    requires WellFormed(m) && Begins(m, p)
    ensures forall i | 0 <= i < |Header(m)| && i < |p| :: p[i] != '9'
  {
    forall i | 0 <= i < |Header(m)| && i < |p| ensures p[i] != '9' { HeaderHasNoNine(m, i); }
  }

  /** A prefix that reaches past "9=" has the tag where the header ends; a shorter one has none. */
  lemma FindTag(p: string, h: nat)
    requires forall i | 0 <= i < h && i < |p| :: p[i] != '9'
    requires (|p| > h ==> p[h] == '9') && (|p| > h + 1 ==> p[h + 1] == '=')
    ensures Find(p, "9=", 0) == if |p| >= h + 2 then h else -1
  {
    if |p| >= h + 2 {
      assert p[h..h + 2] == "9=";
      FindByFirstChar(p, "9=", 0, h);
    } else {
      NotFoundByFirstChar(p, "9=", 0);
    }
  }

  /** The BodyLength field ends at the first SOH after its tag. */
  lemma FindLengthEnd(m: FixMessage, p: string, h: nat, e: nat)
    requires WellFormed(m) && Begins(m, p) && h == |Header(m)| && e == h + 2 + |m.digits| && |p| >= h + 2
    ensures Find(p, [SOH], h) == if |p| > e then e else -1
  {
    forall i | h <= i < e && i < |p| ensures p[i] != SOH {
      if i >= h + 2 { assert p[h + 2 + (i - h - 2)] == m.digits[i - h - 2]; }
    }
    if |p| > e {
      assert p[e..e + 1] == [SOH];
      FindByFirstChar(p, [SOH], h, e);
    } else {
      NotFoundByFirstChar(p, [SOH], h);
    }
  }

  /** Peeking at a prefix of the stream sees the first message whole exactly when it is there whole. */
  lemma PeekPrefix(m: FixMessage, p: string)
    requires WellFormed(m) && Begins(m, p)
    ensures Peek(p) == if |p| >= |Encode(m)| then Whole(|Encode(m)|) else NeedMore
  {
    var h, d := |Header(m)|, |m.digits|;
    EncodedLength(m);
    NoNineBefore(m, p);
    FindTag(p, h);
    if |p| >= h + 2 {
      FindLengthEnd(m, p, h, h + 2 + d);
      if |p| > h + 2 + d {
        assert p[h + 2..h + 2 + d] == m.digits;
        DigitsParse(m.digits);
      }
    }
  }

  /** A prefix of five characters or more starts with the signature; a shorter one cannot hold it. */
  lemma StripPrefix(m: FixMessage, p: string)
    requires WellFormed(m) && Begins(m, p)
    ensures Stripped(p) == (p, |p| >= 5)
  {
    if |p| >= 5 {
      assert forall i | 0 <= i < 5 :: p[i] == SIGNATURE[i];
      assert p[0..5] == SIGNATURE;
      FindByFirstChar(p, SIGNATURE, 0, 0);
    } else {
      assert Find(p, SIGNATURE, 0) == -1;
    }
  }

  lemma ExtractEncoded(m: FixMessage, rest: string)
    requires WellFormed(m)
    ensures Extract(Encode(m) + rest) == Message(Encode(m), rest)
  {
    var s := Encode(m) + rest;
    PrefixBegins(m, rest, s);
    StripPrefix(m, s);
    PeekPrefix(m, s);
    EncodedLength(m);
    assert s[..|Encode(m)|] == Encode(m) && s[|Encode(m)|..] == rest;
  }

  lemma ExtractCut(m: FixMessage, p: string)
    requires WellFormed(m) && p <= Encode(m) && |p| < |Encode(m)|
    ensures Extract(p) == Wait(p)
  {
    assert p <= Encode(m) + [];
    PrefixBegins(m, [], p);
    StripPrefix(m, p);
    PeekPrefix(m, p);
  }

  lemma MessageNotEmpty(w: string)
    requires IsMessage(w)
    ensures |w| > 0
  {
    var m: FixMessage :| WellFormed(m) && w == Encode(m);
    EncodedLength(m);
  }

  /** A whole message at the front of the buffer is extracted, and nothing else. */
  lemma ExtractWhole(w: string, rest: string)
    requires IsMessage(w)
    ensures Extract(w + rest) == Message(w, rest)
  {
    var m: FixMessage :| WellFormed(m) && w == Encode(m);
    ExtractEncoded(m, rest);
  }

  /** An incomplete message is left as it is. */
  lemma ExtractPartial(w: string, p: string)
    requires IsMessage(w) && p <= w && |p| < |w|
    ensures Extract(p) == Wait(p)
  {
    var m: FixMessage :| WellFormed(m) && w == Encode(m);
    ExtractCut(m, p);
  }

  // ----- draining a prefix of the stream -----

  /** `k` is the number of messages that lie whole in the first `n` characters of the stream. */
  ghost predicate WholeCount(ws: seq<string>, n: nat, k: nat) {
    && k <= |ws| && |Flat(ws[..k])| <= n
    && (k < |ws| ==> n < |Flat(ws[..k])| + |ws[k]|)
  }

  ghost predicate AllMessages(ws: seq<string>) {
    forall i {:trigger IsMessage(ws[i])} | 0 <= i < |ws| :: IsMessage(ws[i])
  }

  lemma TailMessages(ws: seq<string>, k: nat)
    requires AllMessages(ws) && k <= |ws|
    ensures AllMessages(ws[k..])
  {
    forall i | 0 <= i < |ws[k..]| ensures IsMessage(ws[k..][i]) {
      assert IsMessage(ws[k + i]);
    }
  }

  lemma {:induction false} FlatAppend(a: seq<string>, b: seq<string>)
    ensures Flat(a + b) == Flat(a) + Flat(b)
  {
    if a == [] {
      assert a + b == b;
    } else {
      FlatAppend(a[1..], b);
      assert (a + b)[1..] == a[1..] + b;
      assert (a[0] + Flat(a[1..])) + Flat(b) == a[0] + (Flat(a[1..]) + Flat(b));
    }
  }

  lemma FlatFirst(ws: seq<string>, j: nat)
    requires ws != [] && j < |ws|
    ensures ws[..j + 1] == [ws[0]] + ws[1..][..j]
    ensures Flat(ws[..j + 1]) == ws[0] + Flat(ws[1..][..j])
  {
    assert ws[..j + 1][1..] == ws[1..][..j];
  }

  lemma FlatSplit(ws: seq<string>, k: nat)
    requires k <= |ws|
    ensures Flat(ws) == Flat(ws[..k]) + Flat(ws[k..])
  {
    assert ws == ws[..k] + ws[k..];
    FlatAppend(ws[..k], ws[k..]);
  }

  /** Draining `p`, a prefix of the stream, emits its `k` whole messages and keeps the rest. */
  ghost predicate DrainsTo(ws: seq<string>, p: string, k: nat) {
    var whole := WholeCount(ws, |p|, k);
    whole && Drain(p) == Drained(ws[..k], p[|Flat(ws[..k])|..], Waiting)
  }

  /** One message more in front. */
  lemma DrainFirst(ws: seq<string>, rest: string, j: nat)
    requires AllMessages(ws) && ws != [] && DrainsTo(ws[1..], rest, j)
    ensures DrainsTo(ws, ws[0] + rest, j + 1)
  {
    DrainMessage(ws[0], rest);
    FlatFirst(ws, j);
    CountFirst(ws, |rest|, j);
    SkipFirst(ws[0], rest, |Flat(ws[1..][..j])|);
  }

  /** A whole message in front of the rest is drained first. */
  lemma DrainMessage(w: string, rest: string)
    requires IsMessage(w)
    ensures Drain(w + rest) == Drained([w] + Drain(rest).msgs, Drain(rest).rest, Drain(rest).outcome)
  {
    MessageNotEmpty(w);
    ExtractWhole(w, rest);
  }

  lemma CountFirst(ws: seq<string>, n: nat, j: nat)
    requires ws != [] && WholeCount(ws[1..], n, j)
    ensures WholeCount(ws, |ws[0]| + n, j + 1)
  {
    FlatFirst(ws, j);
  }

  lemma SkipFirst(a: string, b: string, n: nat)
    requires n <= |b|
    ensures (a + b)[|a| + n..] == b[n..]
  {
  }

  /** Draining a prefix of the stream emits the messages that lie whole in it and keeps the rest. */
  lemma {:induction false} DrainPrefix(ws: seq<string>, p: string) returns (k: nat)
    requires AllMessages(ws) && p <= Flat(ws)
    ensures DrainsTo(ws, p, k)
    decreases |ws|
  {
    if ws == [] {
      k := 0;
      assert Find(p, SIGNATURE, 0) == -1;
      assert ws[..0] == [];
    } else if |p| < |ws[0]| {
      k := 0;
      assert ws[..0] == [];
      assert p <= ws[0];
      ExtractPartial(ws[0], p);
    } else {
      var rest := p[|ws[0]|..];
      assert p == ws[0] + rest;
      TailMessages(ws, 1);
      var j := DrainPrefix(ws[1..], rest);
      k := j + 1;
      DrainFirst(ws, rest, j);
    }
  }

  // ----- the reader -----

  class FixReader {
    var buffer: string

    constructor ()
      ensures buffer == []
    {
      buffer := [];
    }

    method StripToHeader() returns (found: bool)
      modifies this
      ensures (buffer, found) == Stripped(old(buffer))
    {
      var pos := Find(buffer, SIGNATURE, 0);
      if pos == -1 {
        if |buffer| > |SIGNATURE| - 1 {
          buffer := buffer[|buffer| - (|SIGNATURE| - 1)..];
        }
        return false;
      }
      if pos > 0 {
        buffer := buffer[pos..];
      }
      found := true;
    }

    /** `extract_next_message`; `status` says whether a message came out, more bytes are needed, or it threw. */
    method ExtractNext() returns (status: Peeked, msg: string)
      modifies this
      ensures match Extract(old(buffer))
              case Wait(rest) => status == NeedMore && buffer == rest
              case Crash => status == Throws && buffer == Stripped(old(buffer)).0
              case Message(m, rest) => status.Whole? && msg == m && buffer == rest
    {
      msg := [];
      var found := StripToHeader();
      if !found {
        return NeedMore, [];
      }
      status := Peek(buffer);
      if status.Whole? {
        msg := buffer[..status.length];
        buffer := buffer[status.length..];
      }
    }

    /** One turn of `read_loop`: append what was read, then extract messages until the loop ends. */
    method OnRead(chunk: string) returns (msgs: seq<string>, outcome: Outcome)
      modifies this
      ensures var d := Drain(old(buffer) + chunk);
              msgs == d.msgs && outcome == d.outcome && (outcome == Waiting ==> buffer == d.rest)
    {
      buffer := buffer + chunk;
      ghost var all := Drain(buffer);
      msgs := [];
      while true
        invariant Continues(all, msgs, buffer)
        decreases |buffer|
      {
        var n := |buffer|;
        DrainStep(all, msgs, buffer);
        var status, msg := ExtractNext();
        match status
        case NeedMore =>
          return msgs, Waiting;
        case Throws =>
          return msgs, Crashed;
        case Whole(_) =>
          if |buffer| >= n {
            return msgs, Spinning;
          }
          msgs := msgs + [msg];
      }
    }
  }

  /** `all` is what has been emitted so far followed by what is still to come. */
  ghost predicate Continues(all: Drained, msgs: seq<string>, buffer: string) {
    var d := Drain(buffer);
    all.msgs == msgs + d.msgs && all.rest == d.rest && all.outcome == d.outcome
  }

  /** What one extraction tells about the whole drain. */
  lemma DrainStep(all: Drained, msgs: seq<string>, buffer: string)
    requires Continues(all, msgs, buffer)
    ensures match Extract(buffer)
            case Wait(rest) => all == Drained(msgs, rest, Waiting)
            case Crash => all.msgs == msgs && all.outcome == Crashed
            case Message(msg, rest) =>
              if |rest| >= |buffer| then all.msgs == msgs && all.outcome == Spinning
              else Continues(all, msgs + [msg], rest)
  {
    match Extract(buffer)
    case Message(msg, rest) =>
      if |rest| < |buffer| { assert msgs + ([msg] + Drain(rest).msgs) == msgs + [msg] + Drain(rest).msgs; }
    case _ =>
  }

  /** The whole of `read_loop` over a list of chunks: what it has emitted and what it still holds. */
  function ReadAll(chunks: seq<string>): (r: (seq<string>, string)) {
    if chunks == [] then ([], [])
    else
      var (msgs, buffer) := ReadAll(chunks[..|chunks| - 1]);
      var d := Drain(buffer + chunks[|chunks| - 1]);
      (msgs + d.msgs, d.rest)
  }

  function Joined(chunks: seq<string>): string {
    if chunks == [] then [] else Joined(chunks[..|chunks| - 1]) + chunks[|chunks| - 1]
  }

  /** The messages whole in the tail of a prefix follow those whole in its head. */
  lemma CountOn(ws: seq<string>, k: nat, j: nat, n: nat)
    requires k <= |ws| && n >= |Flat(ws[..k])| && WholeCount(ws[k..], n - |Flat(ws[..k])|, j)
    ensures WholeCount(ws, n, k + j)
    ensures |Flat(ws[..k + j])| == |Flat(ws[..k])| + |Flat(ws[k..][..j])|
    ensures ws[..k] + ws[k..][..j] == ws[..k + j]
  {
    assert ws[..k] + ws[k..][..j] == ws[..k + j];
    FlatAppend(ws[..k], ws[k..][..j]);
    if k + j < |ws| { assert ws[k..][j] == ws[k + j]; }
  }

  lemma Suffixes(s: string, t: string, n: nat)
    requires n <= |s|
    ensures s[n..] + t == (s + t)[n..]
  {
  }

  lemma SuffixOfPrefix(p: string, a: string, b: string)
    requires |a| <= |p| && p <= a + b
    ensures p[|a|..] <= b
  {
    assert b == (a + b)[|a|..];
  }

  /** With `k` messages out already, the buffer that is left drains to `k'` messages in all. */
  ghost predicate Reads(ws: seq<string>, k: nat, all: string, buffer: string, k': nat) {
    var d, whole := Drain(buffer), WholeCount(ws, |all|, k');
    && k <= |ws| && whole && d.outcome == Waiting
    && ws[..k] + d.msgs == ws[..k'] && d.rest == all[|Flat(ws[..k'])|..]
  }

  lemma ReadsOn(ws: seq<string>, k: nat, k': nat, all: string, n: nat)
    requires k <= |ws| && k <= k' && n == |Flat(ws[..k])| <= |all|
    requires var drained := DrainsTo(ws[k..], all[n..], k' - k); drained
    ensures var reached := Reads(ws, k, all, all[n..], k'); reached
  {
    CountOn(ws, k, k' - k, |all|);
    DropTwice(all, n, |Flat(ws[k..][..k' - k])|);
  }

  lemma TailOf(ws: seq<string>, k: nat, all: string, n: nat)
    requires AllMessages(ws) && k <= |ws| && n == |Flat(ws[..k])| <= |all| && all <= Flat(ws)
    ensures AllMessages(ws[k..]) && all[n..] <= Flat(ws[k..])
  {
    TailMessages(ws, k);
    FlatSplit(ws, k);
    SuffixOfPrefix(all, Flat(ws[..k]), Flat(ws[k..]));
  }

  lemma DrainTail(ws: seq<string>, k: nat, all: string, n: nat) returns (k': nat)
    requires AllMessages(ws) && k <= |ws| && n == |Flat(ws[..k])| <= |all| && all <= Flat(ws)
    ensures var reached := Reads(ws, k, all, all[n..], k'); reached
  {
    TailOf(ws, k, all, n);
    var j := DrainPrefix(ws[k..], all[n..]);
    k' := k + j;
    ReadsOn(ws, k, k', all, n);
  }

  /** Reading on from a point where `k` messages are out. */
  lemma ReadOn(ws: seq<string>, k: nat, received: string, chunk: string, n: nat) returns (k': nat)
    requires AllMessages(ws) && received + chunk <= Flat(ws) && WholeCount(ws, |received|, k) && n == |Flat(ws[..k])|
    ensures Reads(ws, k, received + chunk, received[n..] + chunk, k')
  {
    k' := DrainTail(ws, k, received + chunk, n);
    Suffixes(received, chunk, n);
  }

  lemma DropTwice(s: string, a: nat, b: nat)
    requires a + b <= |s|
    ensures s[a..][b..] == s[a + b..]
  {
  }

  /**
   * However the stream of well-formed messages is cut into chunks, after each read the messages
   * emitted are exactly those that have arrived whole, in order, and the buffer is the undelivered
   * remainder of what was received.
   */
  lemma {:induction false} ChunkingIsInvisible(ws: seq<string>, chunks: seq<string>) returns (k: nat)
    requires AllMessages(ws) && Joined(chunks) <= Flat(ws)
    ensures WholeCount(ws, |Joined(chunks)|, k)
    ensures ReadAll(chunks) == (ws[..k], Joined(chunks)[|Flat(ws[..k])|..])
    decreases |chunks|
  {
    if chunks == [] {
      k := 0;
      if ws != [] { MessageNotEmpty(ws[0]); }
    } else {
      var before, chunk := chunks[..|chunks| - 1], chunks[|chunks| - 1];
      var j := ChunkingIsInvisible(ws, before);
      k := ReadOn(ws, j, Joined(before), chunk, |Flat(ws[..j])|);
    }
  }

  /** Once the whole stream has arrived, every message is out and the buffer is empty. */
  lemma EverythingArrives(ws: seq<string>, chunks: seq<string>)
    requires AllMessages(ws) && Joined(chunks) == Flat(ws)
    ensures ReadAll(chunks) == (ws, [])
  {
    var k := ChunkingIsInvisible(ws, chunks);
    FlatSplit(ws, k);
    TailHoldsFirst(ws, k);
  }

  /** The tail of the stream holds its own first message. */
  lemma TailHoldsFirst(ws: seq<string>, k: nat)
    requires k <= |ws|
    ensures if k < |ws| then |Flat(ws[k..])| >= |ws[k]| else Flat(ws[k..]) == [] && ws[..k] == ws
  {
    if k < |ws| { assert Flat(ws[k..]) == ws[k] + Flat(ws[k..][1..]); }
  }
}

/** Fixed-point numbers as decimal text, in both directions. */
module FixedPoint {
  import opened Arith

  const INT64_LIMIT := 0x8000_0000_0000_0000
  const TEMP_SIZE := 64

  function Pow10(n: nat): (r: nat)
    ensures r >= 1
  {
    if n == 0 then 1 else 10 * Pow10(n - 1)
  }

  lemma {:induction false} Pow10Sum(a: nat, b: nat)
    ensures Pow10(a + b) == Pow10(a) * Pow10(b)
  {
    if a > 0 {
      Pow10Sum(a - 1, b);
      assert 10 * (Pow10(a - 1) * Pow10(b)) == 10 * Pow10(a - 1) * Pow10(b);
    }
  }

  function Digit(d: int): char
    requires 0 <= d < 10
  {
    '0' + d as char
  }

  // ----- decimal text -----

  /** The last `width` decimal digits of `n`. */
  function FixedDigits(n: nat, width: nat): (s: string)
    ensures |s| == width
  {
    if width == 0 then [] else FixedDigits(n / 10, width - 1) + [Digit(n % 10)]
  }

  /** The decimal digits of `n`, none for zero. */
  function PlainDigits(n: nat): string {
    if n == 0 then [] else PlainDigits(n / 10) + [Digit(n % 10)]
  }

  function Digits(n: nat): string {
    if n == 0 then "0" else PlainDigits(n)
  }

  lemma TenTimes(x: nat, n: nat)
    ensures x * Pow10(n + 1) == 10 * (x * Pow10(n))
  {
  }

  /** A fraction of `width` digits without its trailing zeros: its digits and how many they are. */
  function Trimmed(frac: nat, width: nat): (r: (nat, nat))
    ensures r.1 <= width && (frac < Pow10(width) ==> r.0 < Pow10(r.1))
    ensures r.0 * Pow10(width - r.1) == frac
  {
    if width > 0 && frac % 10 == 0 then
      var r := Trimmed(frac / 10, width - 1);
      TenTimes(r.0, width - 1 - r.1);
      r
    else (frac, width)
  }

  function FractionText(frac: nat, width: nat): string {
    var r := Trimmed(frac, width);
    if r.1 > 0 then "." + FixedDigits(r.0, r.1) else ""
  }

  function SignText(raw: int): string {
    if raw < 0 then "-" else ""
  }

  lemma DivNonNegative(x: nat, m: nat)
    requires m > 0
    ensures x / m >= 0 && 0 <= x % m < m
  {
    var q, r := Division(x, m);
  }

  /** The whole units of a raw value, without its sign. */
  function Whole(raw: int, k: nat): nat {
    DivNonNegative(Abs(raw), Pow10(k));
    Abs(raw) / Pow10(k)
  }

  function Part(raw: int, k: nat): (r: nat)
    ensures r < Pow10(k)
  {
    DivNonNegative(Abs(raw), Pow10(k));
    Abs(raw) % Pow10(k)
  }

  /** The text of a raw value at scale `10^k`. */
  function Print(raw: int, k: nat): string {
    SignText(raw) + Digits(Whole(raw, k)) + FractionText(Part(raw, k), k)
  }

  // ----- parsing -----

  datatype Scan = Scan(integer: nat, frac: nat, fracDigits: nat, inFrac: bool, negative: bool)

  function ScanChar(s: Scan, c: char): Scan {
    if c == '-' then s.(negative := true)
    else if c == '.' then s.(inFrac := true)
    else if '0' <= c <= '9' then
      if s.inFrac then s.(frac := s.frac * 10 + (c - '0') as int, fracDigits := s.fracDigits + 1)
      else s.(integer := s.integer * 10 + (c - '0') as int)
    else s
  }

  function ScanText(text: string): Scan {
    if text == [] then Scan(0, 0, 0, false, false)
    else ScanChar(ScanText(text[..|text| - 1]), text[|text| - 1])
  }

  /** The raw value the scanned parts stand for at scale `10^k`. */
  function Value(s: Scan, k: nat): int {
    var r := s.integer * Pow10(k) + s.frac * Pow10(k) / Pow10(s.fracDigits);
    if s.negative then -r else r
  }

  function Parse(text: string, k: nat): int {
    Value(ScanText(text), k)
  }

  method StringToFixed(text: string, k: nat) returns (raw: int)
    ensures raw == Parse(text, k)
  {
    var integer, frac, fracDigits, inFrac, negative := 0, 0, 0, false, false;
    for i := 0 to |text|
      invariant integer >= 0 && frac >= 0 && fracDigits >= 0
      invariant ScanText(text[..i]) == Scan(integer, frac, fracDigits, inFrac, negative)
    {
      assert text[..i + 1][..i] == text[..i];
      var c := text[i];
      if c == '-' {
        negative := true;
        continue;
      }
      if c == '.' {
        inFrac := true;
        continue;
      }
      if '0' <= c <= '9' {
        if inFrac {
          frac := frac * 10 + (c - '0') as int;
          fracDigits := fracDigits + 1;
        } else {
          integer := integer * 10 + (c - '0') as int;
        }
      }
    }
    assert text[..|text|] == text;
    var fracScale := 1;
    for i := 0 to fracDigits
      invariant fracScale == Pow10(i)
    {
      fracScale := fracScale * 10;
    }
    raw := integer * Pow10(k) + frac * Pow10(k) / fracScale;
    raw := if negative then -raw else raw;
  }

  // ----- parsing undoes printing -----

  lemma ScanAppend(text: string, c: char)
    ensures ScanText(text + [c]) == ScanChar(ScanText(text), c)
  {
    assert (text + [c])[..|text|] == text;
  }

  lemma {:induction false} ScanPlain(before: string, n: nat)
    requires ScanText(before).integer == 0 && !ScanText(before).inFrac
    ensures ScanText(before + PlainDigits(n)) == ScanText(before).(integer := n)
  {
    if n == 0 {
      assert before + PlainDigits(n) == before;
    } else {
      ScanPlain(before, n / 10);
      ScanAppend(before + PlainDigits(n / 10), Digit(n % 10));
      assert before + PlainDigits(n) == before + PlainDigits(n / 10) + [Digit(n % 10)];
    }
  }

  lemma ScanDigits(before: string, n: nat)
    requires ScanText(before).integer == 0 && !ScanText(before).inFrac
    ensures ScanText(before + Digits(n)) == ScanText(before).(integer := n)
  {
    if n == 0 { ScanAppend(before, '0'); } else { ScanPlain(before, n); }
  }

  lemma {:induction false} ScanFixed(before: string, n: nat, width: nat)
    requires ScanText(before).inFrac && ScanText(before).frac == ScanText(before).fracDigits == 0
    requires n < Pow10(width)
    ensures ScanText(before + FixedDigits(n, width)) == ScanText(before).(frac := n, fracDigits := width)
  {
    if width == 0 {
      assert before + FixedDigits(n, width) == before;
    } else {
      ScanFixed(before, n / 10, width - 1);
      ScanAppend(before + FixedDigits(n / 10, width - 1), Digit(n % 10));
      assert before + FixedDigits(n, width) == before + FixedDigits(n / 10, width - 1) + [Digit(n % 10)];
    }
  }

  /** A decimal numeral: `n` before the point and, when there is one, `frac` in `width` digits after it. */
  function Numeral(negative: bool, n: nat, frac: nat, width: nat): string {
    (if negative then "-" else "") + Digits(n) + (if width > 0 then "." + FixedDigits(frac, width) else "")
  }

  lemma ScanNumeral(negative: bool, n: nat, frac: nat, width: nat)
    requires frac < Pow10(width)
    ensures var s := ScanText(Numeral(negative, n, frac, width));
            s == Scan(n, if width > 0 then frac else 0, width, width > 0, negative)
  {
    var sign := if negative then "-" else "";
    ScanAppend("", '-');
    assert "" + ['-'] == "-";
    ScanDigits(sign, n);
    var head := sign + Digits(n);
    if width > 0 {
      ScanAppend(head, '.');
      ScanFixed(head + ['.'], frac, width);
      assert Numeral(negative, n, frac, width) == head + ['.'] + FixedDigits(frac, width);
    } else {
      assert Numeral(negative, n, frac, width) == head;
    }
  }

  /** Every numeral parses to its value in units of `10^-k`, digits beyond those truncated. */
  lemma ParseNumeral(negative: bool, n: nat, frac: nat, width: nat, k: nat)
    requires frac < Pow10(width)
    ensures var m := n * Pow10(k) + frac * Pow10(k) / Pow10(width);
            Parse(Numeral(negative, n, frac, width), k) == if negative then -m else m
  {
    ScanNumeral(negative, n, frac, width);
    if width == 0 { assert frac == 0; }
  }

  lemma RescaleFraction(g: nat, w: nat, k: nat)
    requires w <= k
    ensures g * Pow10(k) / Pow10(w) == g * Pow10(k - w)
  {
    Pow10Sum(k - w, w);
    assert g * Pow10(k) == g * Pow10(k - w) * Pow10(w);
    DivUnique(g * Pow10(k), Pow10(w), g * Pow10(k - w), 0);
  }

  /** Parsing the text of a raw value gives the value back. */
  lemma RoundTrip(raw: int, k: nat)
    ensures Parse(Print(raw, k), k) == raw
  {
    var n, frac := Division(Abs(raw), Pow10(k));
    var t := Trimmed(frac, k);
    assert Print(raw, k) == Numeral(raw < 0, n, t.0, t.1);
    ParseNumeral(raw < 0, n, t.0, t.1, k);
    RescaleFraction(t.0, t.1, k);
  }

  lemma Pow10Is8()
    ensures Pow10(8) == 100000000
  {
    assert Pow10(2) == 100;
    assert Pow10(4) == 10000;
    assert Pow10(6) == 1000000;
  }

  lemma {:induction false} Pow10Monotone(a: nat, b: nat)
    requires a <= b
    ensures Pow10(a) <= Pow10(b)
  {
    if a < b { Pow10Monotone(a, b - 1); }
  }

  lemma SmallProduct(x: nat, y: nat, limit: nat)
    requires x <= limit && y <= limit
    ensures x * y <= limit * limit
  {
    assert x * y <= x * limit by { assert x * (limit - y) >= 0; }
    assert x * limit <= limit * limit by { assert (limit - x) * limit >= 0; }
  }

  lemma WholeIsSmaller(raw: int, k: nat)
    ensures Whole(raw, k) * Pow10(k) <= Abs(raw) && Whole(raw, k) <= Abs(raw)
  {
    var n, frac := Division(Abs(raw), Pow10(k));
    MulAtLeast(Pow10(k), n);
  }

  /** The parser's numbers stay inside 64 bits when it reads the text of a 64-bit value back. */
  lemma ParseFits(raw: int, k: nat)
    requires k <= 8 && Abs(raw) < INT64_LIMIT
    ensures var s := ScanText(Print(raw, k));
            && s.integer < INT64_LIMIT && s.frac < INT64_LIMIT && Pow10(s.fracDigits) < INT64_LIMIT
            && s.integer * Pow10(k) < INT64_LIMIT && s.frac * Pow10(k) < INT64_LIMIT
  {
    var t := Trimmed(Part(raw, k), k);
    assert Print(raw, k) == Numeral(raw < 0, Whole(raw, k), t.0, t.1);
    ScanNumeral(raw < 0, Whole(raw, k), t.0, t.1);
    WholeIsSmaller(raw, k);
    Pow10Is8();
    Pow10Monotone(k, 8);
    Pow10Monotone(t.1, 8);
    SmallProduct(t.0, Pow10(k), 100000000);
  }

  // ----- printing into a buffer -----

  function Reversed(s: string): (r: string)
    ensures |r| == |s|
    ensures forall i | 0 <= i < |s| :: r[i] == s[|s| - 1 - i]
  {
    if s == [] then [] else [s[|s| - 1]] + Reversed(s[..|s| - 1])
  }

  lemma {:induction false} PlainLength(n: nat, width: nat)
    requires n < Pow10(width)
    ensures |PlainDigits(n)| <= width
  {
    if n > 0 { PlainLength(n / 10, width - 1); }
  }

  /** A 64-bit value has at most 19 digits. */
  lemma WholeLength(n: nat)
    requires n < INT64_LIMIT
    ensures |PlainDigits(n)| <= 19 && |Digits(n)| <= 19
  {
    Pow10Is8();
    Pow10Sum(8, 8);
    Pow10Sum(16, 3);
    assert Pow10(3) == 1000;
    PlainLength(n, 19);
  }

  method Push(temp: array<char>, pos: nat, c: char) returns (next: nat)
    requires pos < temp.Length
    modifies temp
    ensures next == pos + 1 && Reversed(temp[..next]) == [c] + Reversed(old(temp[..pos]))
  {
    temp[pos] := c;
    next := pos + 1;
    assert temp[..next][..pos] == old(temp[..pos]);
  }

  /** The character of the two-digit table: pair `i / 2`, tens at even places and units at odd ones. */
  function TableChar(i: int): char
    requires 0 <= i < 200
  {
    if i % 2 == 0 then Digit(i / 20) else Digit(i / 2 % 10)
  }

  /** Two digits at once, units first. */
  method PushPair(temp: array<char>, pos: nat, pair: nat) returns (next: nat)
    requires pos + 1 < temp.Length && pair < 100
    modifies temp
    ensures next == pos + 2
    ensures Reversed(temp[..next]) == [Digit(pair / 10), Digit(pair % 10)] + Reversed(old(temp[..pos]))
  {
    var i := pair * 2;
    next := Push(temp, pos, TableChar(i + 1));
    next := Push(temp, next, TableChar(i));
  }

  lemma LastTwoFixed(n: nat, width: nat, rest: string)
    requires width >= 2
    ensures FixedDigits(n, width) + rest
         == FixedDigits(n / 100, width - 2) + ([Digit(n % 100 / 10), Digit(n % 100 % 10)] + rest)
  {
    assert n / 10 / 10 == n / 100 && n / 10 % 10 == n % 100 / 10 && n % 10 == n % 100 % 10;
    assert FixedDigits(n, width)
        == FixedDigits(n / 100, width - 2) + [Digit(n / 10 % 10)] + [Digit(n % 10)];
  }

  lemma LastTwoPlain(n: nat, rest: string)
    requires n >= 10
    ensures PlainDigits(n) + rest
         == PlainDigits(n / 100) + ([Digit(n % 100 / 10), Digit(n % 100 % 10)] + rest)
    ensures |PlainDigits(n)| == |PlainDigits(n / 100)| + 2
  {
    assert n / 10 / 10 == n / 100 && n / 10 % 10 == n % 100 / 10 && n % 10 == n % 100 % 10;
    assert PlainDigits(n) == PlainDigits(n / 100) + [Digit(n / 10 % 10)] + [Digit(n % 10)];
  }

  method CountDigits(k: nat) returns (digits: nat)
    ensures digits == k
  {
    var scale := Pow10(k);
    digits := 0;
    while scale > 1
      invariant digits <= k && scale == Pow10(k - digits)
      decreases scale
    {
      scale := scale / 10;
      digits := digits + 1;
    }
  }

  method Trim(part: nat, k: nat) returns (frac: nat, digits: nat)
    ensures (frac, digits) == Trimmed(part, k)
  {
    frac := part;
    digits := CountDigits(k);
    while digits > 0 && frac % 10 == 0
      invariant Trimmed(part, k) == Trimmed(frac, digits)
    {
      frac := frac / 10;
      digits := digits - 1;
    }
  }

  /** One digit at a time. */
  method PushFraction(temp: array<char>, pos: nat, frac: nat, width: nat) returns (next: nat)
    requires pos + width <= temp.Length
    modifies temp
    ensures next == pos + width
    ensures Reversed(temp[..next]) == FixedDigits(frac, width) + Reversed(old(temp[..pos]))
  {
    next := pos;
    var rest := frac;
    for i := 0 to width
      invariant next == pos + i
      invariant FixedDigits(frac, width) + Reversed(old(temp[..pos]))
             == FixedDigits(rest, width - i) + Reversed(temp[..next])
    {
      next := Push(temp, next, Digit(rest % 10));
      rest := rest / 10;
    }
  }

  method PushWhole(temp: array<char>, pos: nat, whole: nat) returns (next: nat)
    requires pos + |Digits(whole)| <= temp.Length
    modifies temp
    ensures next == pos + |Digits(whole)|
    ensures Reversed(temp[..next]) == Digits(whole) + Reversed(old(temp[..pos]))
  {
    if whole == 0 {
      next := Push(temp, pos, '0');
      return;
    }
    next := pos;
    var n := whole;
    while n > 0
      invariant next + |PlainDigits(n)| == pos + |PlainDigits(whole)|
      invariant PlainDigits(whole) + Reversed(old(temp[..pos])) == PlainDigits(n) + Reversed(temp[..next])
    {
      next := Push(temp, next, Digit(n % 10));
      n := n / 10;
    }
  }

  /** Two digits at a time, from the table. */
  method PushFraction2(temp: array<char>, pos: nat, frac: nat, width: nat) returns (next: nat)
    requires pos + width <= temp.Length
    modifies temp
    ensures next == pos + width
    ensures Reversed(temp[..next]) == FixedDigits(frac, width) + Reversed(old(temp[..pos]))
  {
    next := pos;
    var rest, digits := frac, width;
    while digits >= 2
      invariant digits >= 0 && next + digits == pos + width
      invariant FixedDigits(frac, width) + Reversed(old(temp[..pos]))
             == FixedDigits(rest, digits) + Reversed(temp[..next])
    {
      LastTwoFixed(rest, digits, Reversed(temp[..next]));
      next := PushPair(temp, next, rest % 100);
      rest := rest / 100;
      digits := digits - 2;
    }
    if digits == 1 {
      next := Push(temp, next, Digit(rest % 10));
      assert FixedDigits(rest, 1) == [Digit(rest % 10)];
    }
  }

  method PushWhole2(temp: array<char>, pos: nat, whole: nat) returns (next: nat)
    requires pos + |Digits(whole)| <= temp.Length
    modifies temp
    ensures next == pos + |Digits(whole)|
    ensures Reversed(temp[..next]) == Digits(whole) + Reversed(old(temp[..pos]))
  {
    if whole == 0 {
      next := Push(temp, pos, '0');
      return;
    }
    next := pos;
    var n := whole;
    while n >= 100
      invariant n > 0 && next + |PlainDigits(n)| == pos + |PlainDigits(whole)|
      invariant PlainDigits(whole) + Reversed(old(temp[..pos])) == PlainDigits(n) + Reversed(temp[..next])
    {
      LastTwoPlain(n, Reversed(temp[..next]));
      next := PushPair(temp, next, n % 100);
      n := n / 100;
    }
    if n < 10 {
      assert PlainDigits(n) == [Digit(n)];
      next := Push(temp, next, Digit(n));
    } else {
      LastTwoPlain(n, Reversed(temp[..next]));
      next := PushPair(temp, next, n);
    }
  }

  /** What a printer leaves in its buffer: as much of the text as fits before the terminator. */
  ghost predicate Wrote(before: string, after: string, text: string, len: nat) {
    && |after| == |before|
    && (before == [] ==> len == 0)
    && (before != [] ==>
          && len == (if |text| < |before| then |text| else |before| - 1)
          && after[..len] == text[..len] && after[len] == '\0' && after[len + 1..] == before[len + 1..])
  }

  method CopyOut(temp: array<char>, pos: nat, buf: array<char>) returns (len: nat)
    requires pos <= temp.Length && buf.Length > 0 && temp != buf
    modifies buf
    ensures Wrote(old(buf[..]), buf[..], Reversed(temp[..pos]), len)
  {
    len := if pos >= buf.Length then buf.Length - 1 else pos;
    for i := 0 to len
      invariant forall j | 0 <= j < i :: buf[j] == Reversed(temp[..pos])[j]
      invariant forall j | i <= j < buf.Length :: buf[j] == old(buf[j])
    {
      buf[i] := temp[pos - 1 - i];
    }
    buf[len] := '\0';
  }

  lemma PrintParts(raw: int, k: nat)
    ensures var text := Digits(Whole(raw, k)) + FractionText(Part(raw, k), k);
            Print(raw, k) == if raw < 0 then ['-'] + text else text
  {
  }

  /** The fraction and its point, one digit at a time. */
  method PushPart(temp: array<char>, part: nat, k: nat) returns (pos: nat)
    requires k <= 8 && temp.Length == TEMP_SIZE
    modifies temp
    ensures pos <= 9 && Reversed(temp[..pos]) == FractionText(part, k)
  {
    var frac, digits := Trim(part, k);
    pos := 0;
    if digits > 0 {
      pos := PushFraction(temp, pos, frac, digits);
      pos := Push(temp, pos, '.');
      assert ['.'] + (FixedDigits(frac, digits) + []) == "." + FixedDigits(frac, digits);
    }
  }

  /** The whole text, last character first. */
  method PushText(temp: array<char>, raw: int, k: nat) returns (pos: nat)
    requires k <= 8 && Abs(raw) < INT64_LIMIT && temp.Length == TEMP_SIZE
    modifies temp
    ensures pos <= TEMP_SIZE && Reversed(temp[..pos]) == Print(raw, k)
  {
    WholeIsSmaller(raw, k);
    WholeLength(Whole(raw, k));
    pos := PushPart(temp, Part(raw, k), k);
    pos := PushWhole(temp, pos, Whole(raw, k));
    if raw < 0 {
      pos := Push(temp, pos, '-');
    }
    PrintParts(raw, k);
  }

  method ToString(raw: int, k: nat, buf: array<char>) returns (len: nat)
    requires k <= 8 && Abs(raw) < INT64_LIMIT
    modifies buf
    ensures Wrote(old(buf[..]), buf[..], Print(raw, k), len)
  {
    if buf.Length == 0 {
      return 0;
    }
    var temp := new char[TEMP_SIZE];
    var pos := PushText(temp, raw, k);
    len := CopyOut(temp, pos, buf);
  }

  /** The fraction and its point, two digits at a time, from the table. */
  method PushPart2(temp: array<char>, part: nat, k: nat) returns (pos: nat)
    requires k <= 8 && temp.Length == TEMP_SIZE
    modifies temp
    ensures pos <= 9 && Reversed(temp[..pos]) == FractionText(part, k)
  {
    var frac, digits := Trim(part, k);
    pos := 0;
    if digits > 0 {
      pos := PushFraction2(temp, pos, frac, digits);
      pos := Push(temp, pos, '.');
      assert ['.'] + (FixedDigits(frac, digits) + []) == "." + FixedDigits(frac, digits);
    }
  }

  /** The whole text, last character first. */
  method PushText2(temp: array<char>, raw: int, k: nat) returns (pos: nat)
    requires k <= 8 && Abs(raw) < INT64_LIMIT && temp.Length == TEMP_SIZE
    modifies temp
    ensures pos <= TEMP_SIZE && Reversed(temp[..pos]) == Print(raw, k)
  {
    WholeIsSmaller(raw, k);
    WholeLength(Whole(raw, k));
    pos := PushPart2(temp, Part(raw, k), k);
    pos := PushWhole2(temp, pos, Whole(raw, k));
    if raw < 0 {
      pos := Push(temp, pos, '-');
    }
    PrintParts(raw, k);
  }

  method ToString2(raw: int, k: nat, buf: array<char>) returns (len: nat)
    requires k <= 8 && Abs(raw) < INT64_LIMIT
    modifies buf
    ensures Wrote(old(buf[..]), buf[..], Print(raw, k), len)
  {
    if buf.Length == 0 {
      return 0;
    }
    var temp := new char[TEMP_SIZE];
    var pos := PushText2(temp, raw, k);
    len := CopyOut(temp, pos, buf);
  }

  /** A buffer of 32 characters always takes the whole text. */
  lemma PrintFits(raw: int, k: nat)
    requires k <= 8 && Abs(raw) < INT64_LIMIT
    ensures |Print(raw, k)| <= 29
  {
    WholeIsSmaller(raw, k);
    WholeLength(Whole(raw, k));
  }
}

/** The form of the decimal text that is printed, and what the parser makes of any other text. */
module DecimalForm {
  import opened FixedPoint

  predicate IsDigit(c: char) {
    '0' <= c <= '9'
  }

  ghost predicate AllDigits(s: string) {
    forall i | 0 <= i < |s| :: IsDigit(s[i])
  }

  // ----- printing -----

  lemma {:induction false} FixedForm(n: nat, width: nat)
    ensures AllDigits(FixedDigits(n, width))
    ensures width > 0 ==> (FixedDigits(n, width)[width - 1] == '0' <==> n % 10 == 0)
  {
    if width > 0 { FixedForm(n / 10, width - 1); }
  }

  lemma {:induction false} PlainForm(n: nat)
    requires n > 0
    ensures PlainDigits(n) != [] && AllDigits(PlainDigits(n)) && PlainDigits(n)[0] != '0'
  {
    if n >= 10 {
      PlainForm(n / 10);
    } else {
      assert PlainDigits(n / 10) == [];
    }
  }

  lemma DigitsForm(n: nat)
    ensures Digits(n) != [] && AllDigits(Digits(n)) && (Digits(n)[0] == '0' ==> Digits(n) == "0")
  {
    if n > 0 { PlainForm(n); }
  }

  lemma {:induction false} TrimmedEnds(frac: nat, width: nat)
    ensures var r := Trimmed(frac, width); (r.1 > 0 ==> r.0 % 10 != 0) && (frac < Pow10(width) ==> (r.1 == 0 <==> frac == 0))
  {
    if width > 0 && frac % 10 == 0 { TrimmedEnds(frac / 10, width - 1); }
  }

  /**
   * The text of a value: a sign, whole digits without leading zeros and, only when needed, a point and digits without
   * trailing zeros.
   */
  ghost predicate Canonical(text: string, negative: bool, whole: string, frac: string) {
    && text == (if negative then "-" else "") + whole + (if frac == [] then [] else "." + frac)
    && whole != [] && AllDigits(whole) && (whole[0] == '0' ==> whole == "0")
    && AllDigits(frac) && (frac != [] ==> frac[|frac| - 1] != '0')
  }

  /**
   * Every value is printed in canonical form: signed exactly when negative, with a point exactly when it has a
   * fraction, of at most `k` digits.
   */
  lemma PrintIsCanonical(raw: int, k: nat) returns (whole: string, frac: string)
    ensures Canonical(Print(raw, k), raw < 0, whole, frac)
    ensures |frac| <= k && (frac == [] <==> Part(raw, k) == 0)
  {
    var t := Trimmed(Part(raw, k), k);
    whole, frac := Digits(Whole(raw, k)), FixedDigits(t.0, t.1);
    DigitsForm(Whole(raw, k));
    FixedForm(t.0, t.1);
    TrimmedEnds(Part(raw, k), k);
  }

  // ----- parsing -----

  /** The characters the parser looks at. */
  predicate Matters(c: char) {
    c == '-' || c == '.' || IsDigit(c)
  }

  function Kept(text: string): string {
    if text == [] then []
    else Kept(text[..|text| - 1]) + if Matters(text[|text| - 1]) then [text[|text| - 1]] else []
  }

  lemma ScanMore(text: string, c: char)
    ensures ScanText(text + [c]) == ScanChar(ScanText(text), c)
  {
    assert (text + [c])[..|text|] == text;
  }

  lemma {:induction false} ScanKept(text: string)
    ensures ScanText(Kept(text)) == ScanText(text)
  {
    if text != [] {
      var before, c := text[..|text| - 1], text[|text| - 1];
      ScanKept(before);
      if Matters(c) { ScanMore(Kept(before), c); } else { assert Kept(before) + [] == Kept(before); }
    }
  }

  /** Characters other than digits, minus and point are skipped wherever they stand. */
  lemma OtherCharactersAreSkipped(text: string, k: nat)
    ensures Parse(text, k) == Parse(Kept(text), k)
  {
    ScanKept(text);
  }

  /** A minus sign anywhere makes the number negative, and a point anywhere starts the fraction. */
  lemma {:induction false} SignAnywhere(text: string)
    ensures ScanText(text).negative <==> '-' in text
    ensures ScanText(text).inFrac <==> '.' in text
  {
    if text != [] {
      SignAnywhere(text[..|text| - 1]);
      assert text == text[..|text| - 1] + [text[|text| - 1]];
    }
  }
}

/**
 * `atoi` as section 7.22.1.2 of ISO C11 defines it: `strtol(s, NULL, 10)`
 * (section 7.22.1.4) converted to int. Leading white-space is skipped, one
 * optional '+' or '-' is read, then the longest run of decimal digits; a
 * string with no such digits converts to 0. Integers here are unbounded: a
 * value that does not fit an `int` is undefined behaviour in C and is not
 * modelled.
 */
module Decimal {

  /** The characters `isspace` accepts in the "C" locale. */
  predicate IsSpace(c: char) {
    c == ' ' || c == '\t' || c == '\n' || c == '\U{000B}' || c == '\U{000C}' || c == '\r'
  }

  predicate IsDigit(c: char) {
    '0' <= c <= '9'
  }

  predicate AllDigits(s: string) {
    forall j :: 0 <= j < |s| ==> IsDigit(s[j])
  }

  function DigitValue(c: char): (v: nat)
    requires IsDigit(c)
    ensures v < 10
  {
    (c as int) - ('0' as int)
  }

  function DigitChar(v: nat): (c: char)
    requires v < 10
    ensures IsDigit(c) && DigitValue(c) == v
  {
    (('0' as int) + v) as char
  }

  /** Length of the white-space prefix of `s`. */
  function SpanSpace(s: string): (n: nat)
    ensures n <= |s|
    ensures forall j :: 0 <= j < n ==> IsSpace(s[j])
    ensures n < |s| ==> !IsSpace(s[n])
  {
    if |s| == 0 || !IsSpace(s[0]) then 0
    else 1 + SpanSpace(s[1..])
  }

  /** Length of the digit prefix of `s`. */
  function SpanDigits(s: string): (n: nat)
    ensures n <= |s|
    ensures forall j :: 0 <= j < n ==> IsDigit(s[j])
    ensures n < |s| ==> !IsDigit(s[n])
  {
    if |s| == 0 || !IsDigit(s[0]) then 0
    else 1 + SpanDigits(s[1..])
  }

  /** The number a string of decimal digits denotes, most significant digit first. */
  function DecimalValue(ds: string): nat
    requires AllDigits(ds)
  {
    if |ds| == 0 then 0
    else 10 * DecimalValue(ds[..|ds| - 1]) + DigitValue(ds[|ds| - 1])
  }

  /** The digits after the white-space and the optional sign, converted; negated after '-'. */
  function Atoi(s: string): (r: int)
    ensures r < 0 ==> SpanSpace(s) < |s| && s[SpanSpace(s)] == '-'
    ensures (forall j :: 0 <= j < |s| ==> !IsDigit(s[j])) ==> r == 0
  {
    var t := s[SpanSpace(s)..];
    if |t| > 0 && (t[0] == '-' || t[0] == '+') then
      var u := t[1..];
      var m: int := DecimalValue(u[..SpanDigits(u)]);
      if t[0] == '-' then -m else m
    else
      DecimalValue(t[..SpanDigits(t)])
  }

  /** The shortest decimal numeral of `n`, as `printf("%d")` writes it. */
  function NatToDecimal(n: nat): (s: string)
    ensures |s| > 0 && AllDigits(s)
  {
    if n < 10 then [DigitChar(n)]
    else NatToDecimal(n / 10) + [DigitChar(n % 10)]
  }

  /** The numeral of `n` denotes `n`. */
  lemma {:induction false} DecimalValueOfNat(n: nat)
    ensures DecimalValue(NatToDecimal(n)) == n
  {
    var s := NatToDecimal(n);
    if n >= 10 {
      DecimalValueOfNat(n / 10);
      assert s[..|s| - 1] == NatToDecimal(n / 10);
    }
  }

  /** The longest digit prefix of `ds + tail` is `ds` when `tail` does not start with a digit. */
  lemma SpanDigitsOf(ds: string, tail: string)
    requires AllDigits(ds)
    requires |tail| == 0 || !IsDigit(tail[0])
    ensures SpanDigits(ds + tail) == |ds|
    ensures (ds + tail)[..|ds|] == ds
  {
    var u := ds + tail;
    assert forall j :: 0 <= j < |ds| ==> u[j] == ds[j];
    if |tail| > 0 {
      assert u[|ds|] == tail[0];
    }
  }

  /** atoi reads a digit string up to the first character that is not a digit: `atoi("12abc") == 12`. */
  lemma AtoiOfDigits(ds: string, tail: string)
    requires |ds| > 0 && AllDigits(ds)
    requires |tail| == 0 || !IsDigit(tail[0])
    ensures Atoi(ds + tail) == DecimalValue(ds)
  {
    var s := ds + tail;
    assert s[0] == ds[0];
    assert SpanSpace(s) == 0;
    assert s[0..] == s;
    SpanDigitsOf(ds, tail);
  }

  /** After a '-', atoi negates the digits it reads: `atoi("-12,") == -12`. */
  lemma AtoiOfNegativeDigits(ds: string, tail: string)
    requires |ds| > 0 && AllDigits(ds)
    requires |tail| == 0 || !IsDigit(tail[0])
    ensures Atoi("-" + ds + tail) == -(DecimalValue(ds) as int)
  {
    var u := ds + tail;
    var s := "-" + ds + tail;
    assert s == ['-'] + u;
    assert s[0] == '-';
    assert SpanSpace(s) == 0;
    assert s[0..] == s;
    assert s[1..] == u;
    SpanDigitsOf(ds, tail);
    assert u[..SpanDigits(u)] == ds;
  }

  /** The white-space prefix of `ws + t` is `ws` when `t` does not start with white-space. */
  lemma SpanSpaceOf(ws: string, t: string)
    requires forall j :: 0 <= j < |ws| ==> IsSpace(ws[j])
    requires |t| == 0 || !IsSpace(t[0])
    ensures SpanSpace(ws + t) == |ws|
    ensures (ws + t)[|ws|..] == t
  {
    var s := ws + t;
    assert forall j :: 0 <= j < |ws| ==> s[j] == ws[j];
    if |t| > 0 {
      assert s[|ws|] == t[0];
    }
  }

  /** atoi skips leading white-space: `atoi(" \t12") == atoi("12")`. */
  lemma AtoiSkipsSpace(ws: string, t: string)
    requires forall j :: 0 <= j < |ws| ==> IsSpace(ws[j])
    requires |t| == 0 || !IsSpace(t[0])
    ensures Atoi(ws + t) == Atoi(t)
  {
    SpanSpaceOf(ws, t);
    assert SpanSpace(t) == 0;
    assert t[0..] == t;
  }

  /** `AtoiSkipsSpace` for text that is a sign, digits and a tail. */
  lemma AtoiSkipsSpaceBefore(ws: string, sign: string, ds: string, tail: string)
    requires forall j :: 0 <= j < |ws| ==> IsSpace(ws[j])
    requires |sign + ds| > 0 && !IsSpace((sign + ds)[0])
    ensures Atoi(ws + sign + ds + tail) == Atoi(sign + ds + tail)
  {
    var head := sign + ds;
    var t := head + tail;
    assert ws + sign + ds == ws + head;
    assert ws + head + tail == ws + t;
    assert t[0] == head[0];
    AtoiSkipsSpace(ws, t);
  }

  /** After a '+', atoi reads the digits unchanged: `atoi("+12,") == 12`. */
  lemma AtoiOfPositiveDigits(ds: string, tail: string)
    requires |ds| > 0 && AllDigits(ds)
    requires |tail| == 0 || !IsDigit(tail[0])
    ensures Atoi("+" + ds + tail) == DecimalValue(ds)
  {
    var u := ds + tail;
    var s := "+" + ds + tail;
    assert s == ['+'] + u;
    assert s[0] == '+';
    assert SpanSpace(s) == 0;
    assert s[0..] == s;
    assert s[1..] == u;
    SpanDigitsOf(ds, tail);
    assert u[..SpanDigits(u)] == ds;
  }

  /** atoi reads one optional sign before the digits. */
  lemma AtoiOfSignedDigits(sign: string, ds: string, tail: string)
    requires sign == "" || sign == "+" || sign == "-"
    requires |ds| > 0 && AllDigits(ds)
    requires |tail| == 0 || !IsDigit(tail[0])
    ensures Atoi(sign + ds + tail) == if sign == "-" then -(DecimalValue(ds) as int) else DecimalValue(ds)
  {
    if sign == "" {
      assert sign + ds == ds;
      AtoiOfDigits(ds, tail);
    } else if sign == "+" {
      AtoiOfPositiveDigits(ds, tail);
    } else {
      AtoiOfNegativeDigits(ds, tail);
    }
  }

  /**
   * atoi skips leading white-space and reads one optional sign before the
   * digits: `atoi("\t+12,") == 12` and `atoi(" -12") == -12`.
   */
  lemma AtoiAfterSpaceAndSign(ws: string, sign: string, ds: string, tail: string)
    requires forall j :: 0 <= j < |ws| ==> IsSpace(ws[j])
    requires sign == "" || sign == "+" || sign == "-"
    requires |ds| > 0 && AllDigits(ds)
    requires |tail| == 0 || !IsDigit(tail[0])
    ensures Atoi(ws + sign + ds + tail) == if sign == "-" then -(DecimalValue(ds) as int) else DecimalValue(ds)
  {
    AtoiOfSignedDigits(sign, ds, tail);
    assert (sign + ds)[0] == if sign == "" then ds[0] else sign[0];
    AtoiSkipsSpaceBefore(ws, sign, ds, tail);
  }

  /** With no sign and no digit up front, atoi converts nothing. */
  lemma AtoiOfNoDigits(sign: string, tail: string)
    requires sign == "" || sign == "+" || sign == "-"
    requires |tail| == 0 || !IsDigit(tail[0])
    requires sign == "" && |tail| > 0 ==> !IsSpace(tail[0]) && tail[0] != '+' && tail[0] != '-'
    ensures Atoi(sign + tail) == 0
  {
    var t := sign + tail;
    if sign == "" {
      assert t == tail;
      assert SpanSpace(t) == 0;
      assert t[0..] == t;
      assert SpanDigits(t) == 0;
    } else {
      assert t[0] == sign[0] && t[1..] == tail;
      assert SpanSpace(t) == 0;
      assert t[0..] == t;
      assert SpanDigits(tail) == 0;
    }
  }

  /**
   * When the character after the white-space and the optional sign is not a
   * digit, atoi converts nothing and returns 0, whatever digits come later:
   * `atoi("n01440764") == 0`.
   */
  lemma AtoiWithoutLeadingDigits(ws: string, sign: string, tail: string)
    requires forall j :: 0 <= j < |ws| ==> IsSpace(ws[j])
    requires sign == "" || sign == "+" || sign == "-"
    requires |tail| == 0 || !IsDigit(tail[0])
    requires sign == "" && |tail| > 0 ==> !IsSpace(tail[0]) && tail[0] != '+' && tail[0] != '-'
    ensures Atoi(ws + sign + tail) == 0
  {
    var t := sign + tail;
    assert ws + sign + tail == ws + t;
    assert |t| > 0 ==> t[0] == if sign == "" then tail[0] else sign[0];
    AtoiOfNoDigits(sign, tail);
    AtoiSkipsSpace(ws, t);
  }

  /** A WordNet synset id written where a numeric class id belongs reads as 0. */
  lemma AtoiOfSynsetId()
    ensures Atoi("n01440764") == 0
  {
    AtoiWithoutLeadingDigits("", "", "n01440764");
    assert "" + "" + "n01440764" == "n01440764";
  }

  /** atoi inverts the decimal numeral of a natural number. */
  lemma AtoiOfNat(n: nat)
    ensures Atoi(NatToDecimal(n)) == n
    ensures Atoi("-" + NatToDecimal(n)) == -(n as int)
  {
    DecimalValueOfNat(n);
    AtoiOfDigits(NatToDecimal(n), []);
    assert NatToDecimal(n) + [] == NatToDecimal(n);
    AtoiOfNegativeDigits(NatToDecimal(n), []);
    assert "-" + NatToDecimal(n) + [] == "-" + NatToDecimal(n);
  }
}

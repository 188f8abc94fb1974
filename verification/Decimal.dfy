/** Decimal text: the unsigned conversions between integers and strings, their padding
    to a fixed width, and the order of the texts. */
module Decimal {

  predicate IsDigit(c: char) {
    '0' <= c <= '9'
  }

  predicate AllDigits(s: string) {
    forall i :: 0 <= i < |s| ==> IsDigit(s[i])
  }

  function DigitChar(d: int): char
    requires 0 <= d < 10
  {
    ('0' as int + d) as char
  }

  /** The number an all-digit text stands for. */
  function Value(s: string): (n: int)
  {
    if s == "" then 0 else 10 * Value(s[..|s|-1]) + (s[|s|-1] as int - '0' as int)
  }

  /** The shortest decimal text of n. */
  function Digits(n: nat): (s: string)
    ensures AllDigits(s) && s != "" && Value(s) == n
    ensures s[0] == '0' <==> n == 0
    ensures n < 10 ==> |s| == 1
  {
    if n < 10 then [DigitChar(n)] else Digits(n / 10) + [DigitChar(n % 10)]
  }

  lemma DigitsSnoc(n: nat, d: int)
    requires n > 0 && 0 <= d < 10
    ensures Digits(10 * n + d) == Digits(n) + [DigitChar(d)]
  {
    assert (10 * n + d) / 10 == n && (10 * n + d) % 10 == d;
  }

  /** The digits still to be put in front when m is left. */
  function Front(m: nat): string {
    if m > 0 then Digits(m) else ""
  }

  lemma FrontStep(m: nat, rest: string)
    requires m > 0
    ensures Front(m) + rest == Front(m / 10) + ([DigitChar(m % 10)] + rest)
  {
    hide Digits;
    FrontSplit(m);
    assert Front(m / 10) + ([DigitChar(m % 10)] + rest) == (Front(m / 10) + [DigitChar(m % 10)]) + rest;
  }

  lemma FrontSplit(m: nat)
    requires m > 0
    ensures Front(m) == Front(m / 10) + [DigitChar(m % 10)]
  {
    if m >= 10 {
      DigitsSnoc(m / 10, m % 10);
    }
  }

  lemma FrontDigits(n: nat)
    ensures Digits(n) == Front(n / 10) + [DigitChar(n % 10)]
  {
    if n >= 10 {
      DigitsSnoc(n / 10, n % 10);
    }
  }

  /** UnsignedIntegerConversion::itostr: digits are put in front, last one first. */
  method Itostr(n: nat) returns (retval: string)
    ensures retval == Digits(n)
  {
    hide Digits;
    FrontDigits(n);
    var m := n / 10;
    retval := [DigitChar(n % 10)];
    while m > 0
      invariant m >= 0 && Digits(n) == Front(m) + retval
    {
      FrontStep(m, retval);
      retval := [DigitChar(m % 10)] + retval;
      m := m / 10;
    }
    assert Front(0) + retval == retval;
  }

  /** rec_strtoi: every level is truncated to the unsigned result type. */
  function RecStrtoi(s: string, modulus: nat): nat
    requires modulus > 0
  {
    if s == "" then 0
    else (10 * RecStrtoi(s[..|s|-1], modulus) + (s[|s|-1] as int - '0' as int)) % modulus
  }

  function Strtoi(s: string, modulus: nat): nat
    requires modulus > 0
  {
    if |s| > 0 && s[0] == '-' then (0 - RecStrtoi(s[1..], modulus)) % modulus
    else RecStrtoi(s, modulus)
  }

  const USHORT := 0x1_0000
  const ULONG := 0x1_0000_0000_0000_0000

  lemma {:induction false} ValueNonNegative(s: string)
    requires AllDigits(s)
    ensures Value(s) >= 0
  {
    if s != "" {
      ValueNonNegative(s[..|s|-1]);
    }
  }

  lemma ModSmall(x: nat, m: nat)
    requires x < m
    ensures x % m == x
  {}

  /** The conversion gives the number back when the type can hold it. */
  lemma {:induction false} StrtoiValue(s: string, modulus: nat)
    requires modulus > 0 && AllDigits(s) && Value(s) < modulus
    ensures RecStrtoi(s, modulus) == Value(s) && Strtoi(s, modulus) == Value(s)
  {
    if s != "" {
      ValueNonNegative(s[..|s|-1]);
      StrtoiValue(s[..|s|-1], modulus);
      ModSmall(Value(s), modulus);
      assert IsDigit(s[0]);
    }
  }

  // ---- Fixed width

  /** Leading zeros up to width w. */
  function Padded(s: string, w: nat): (r: string)
    ensures |r| == if |s| < w then w else |s|
    ensures AllDigits(s) ==> AllDigits(r)
    decreases w - |s|
  {
    if |s| < w then Padded("0" + s, w) else s
  }

  method Pad(s: string, w: nat) returns (r: string)
    ensures r == Padded(s, w)
  {
    r := s;
    while |r| < w
      invariant Padded(r, w) == Padded(s, w)
      decreases w - |r|
    {
      r := "0" + r;
    }
  }

  lemma {:induction false} LeadingZero(s: string)
    ensures Value("0" + s) == Value(s)
  {
    if s != "" {
      LeadingZero(s[..|s|-1]);
      assert ("0" + s)[..|s|] == "0" + s[..|s|-1];
    }
  }

  lemma {:induction false} PaddedValue(s: string, w: nat)
    ensures Value(Padded(s, w)) == Value(s)
    decreases w - |s|
  {
    if |s| < w {
      LeadingZero(s);
      PaddedValue("0" + s, w);
    }
  }

  function Pow10(w: nat): nat {
    if w == 0 then 1 else 10 * Pow10(w - 1)
  }

  lemma {:induction false} DigitsWidth(n: nat, w: nat)
    requires 1 <= w && n < Pow10(w)
    ensures |Digits(n)| <= w
  {
    if n >= 10 {
      DigitsWidth(n / 10, w - 1);
    }
  }

  /** A field of a fixed-width text. */
  function Field(n: nat, w: nat): string {
    Padded(Digits(n), w)
  }

  lemma FieldProperties(n: nat, w: nat)
    requires 1 <= w && n < Pow10(w)
    ensures |Field(n, w)| == w && AllDigits(Field(n, w)) && Value(Field(n, w)) == n
  {
    DigitsWidth(n, w);
    PaddedValue(Digits(n), w);
  }

  // ---- Order

  /** The order of strings. */
  predicate Before(a: string, b: string) {
    b != "" && (a == "" || a[0] < b[0] || (a[0] == b[0] && Before(a[1..], b[1..])))
  }

  lemma {:induction false} BeforeConcat(a: string, x: string, b: string, y: string)
    requires |a| == |b|
    ensures Before(a + x, b + y) <==> Before(a, b) || (a == b && Before(x, y))
  {
    if a == "" {
      assert a + x == x && b + y == y;
    } else {
      BeforeConcat(a[1..], x, b[1..], y);
      assert (a + x)[1..] == a[1..] + x && (b + y)[1..] == b[1..] + y;
      assert a == [a[0]] + a[1..] && b == [b[0]] + b[1..];
    }
  }

  /** Texts of digits of one length are ordered like the numbers. */
  lemma {:induction false} DigitsOrder(a: string, b: string)
    requires |a| == |b| && AllDigits(a) && AllDigits(b)
    ensures Before(a, b) <==> Value(a) < Value(b)
    ensures a == b <==> Value(a) == Value(b)
  {
    if a != "" {
      var n := |a| - 1;
      DigitsOrder(a[..n], b[..n]);
      assert a == a[..n] + [a[n]] && b == b[..n] + [b[n]];
      BeforeConcat(a[..n], [a[n]], b[..n], [b[n]]);
      assert Before([a[n]], [b[n]]) <==> a[n] < b[n];
    }
  }

  lemma FieldOrder(m: nat, x: string, n: nat, y: string, w: nat)
    requires 1 <= w && m < Pow10(w) && n < Pow10(w)
    ensures Before(Field(m, w) + x, Field(n, w) + y) <==> m < n || (m == n && Before(x, y))
  {
    FieldProperties(m, w);
    FieldProperties(n, w);
    DigitsOrder(Field(m, w), Field(n, w));
    BeforeConcat(Field(m, w), x, Field(n, w), y);
  }
}

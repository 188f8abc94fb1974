/** Signed decimal text as the C and C++ libraries print and read it. */
module CText {
  import opened Decimal

  const LONG_MIN := -0x8000_0000_0000_0000
  const LONG_MAX := 0x7fff_ffff_ffff_ffff

  /** What an output stream prints for an integer. */
  function Printed(n: int): string {
    if n < 0 then "-" + Digits(-n) else Digits(n)
  }

  predicate IsSpace(c: char) {
    c == ' ' || '\t' <= c <= '\r'
  }

  function SkipSpace(s: string): string {
    if s != "" && IsSpace(s[0]) then SkipSpace(s[1..]) else s
  }

  function DigitRun(s: string): string {
    if s != "" && IsDigit(s[0]) then [s[0]] + DigitRun(s[1..]) else ""
  }

  function Clamped(n: int): int {
    if n < LONG_MIN then LONG_MIN else if n > LONG_MAX then LONG_MAX else n
  }

  /** atol and atoll: leading space, a sign, digits up to the first other character. */
  function Atol(s: string): (n: int)
    ensures LONG_MIN <= n <= LONG_MAX
  {
    var t := SkipSpace(s);
    if t != "" && t[0] == '-' then Clamped(-Value(DigitRun(t[1..])))
    else if t != "" && t[0] == '+' then Clamped(Value(DigitRun(t[1..])))
    else Clamped(Value(DigitRun(t)))
  }

  lemma {:induction false} DigitRunAll(s: string)
    requires AllDigits(s)
    ensures DigitRun(s) == s
  {
    if s != "" {
      assert IsDigit(s[0]);
      DigitRunAll(s[1..]);
    }
  }

  lemma AtolDigits(d: string)
    requires AllDigits(d) && d != ""
    ensures Atol(d) == Clamped(Value(d))
    ensures Atol("-" + d) == Clamped(-Value(d))
  {
    hide Value, Clamped;
    DigitRunAll(d);
    assert IsDigit(d[0]);
    assert ("-" + d)[1..] == d;
  }

  /** Reading a printed number gives it back. */
  lemma AtolPrinted(n: int)
    requires LONG_MIN <= n <= LONG_MAX
    ensures Atol(Printed(n)) == n
  {
    hide Atol, Digits;
    AtolDigits(Digits(if n < 0 then -n else n));
  }

  // ---- Texts passed as pointers

  /** What is left of a text that passes through a pointer to characters. */
  function UpToNul(s: string): string {
    if s == "" || s[0] == '\0' then "" else [s[0]] + UpToNul(s[1..])
  }

  predicate NoNul(s: string) {
    '\0' !in s
  }

  lemma {:induction false} UpToNulExactly(s: string)
    ensures UpToNul(s) == s <==> NoNul(s)
    ensures NoNul(UpToNul(s))
  {
    if s != "" {
      UpToNulExactly(s[1..]);
      assert s == [s[0]] + s[1..];
    }
  }

  // ---- Canonical texts

  /** Signed value of the low `w` bytes. */
  function Signed(n: int, bits: nat): int
    requires bits in {16, 32, 64}
  {
    var m := if bits == 16 then 0x1_0000 else if bits == 32 then 0x1_0000_0000 else 0x1_0000_0000_0000_0000;
    if n % m < m / 2 then n % m else n % m - m
  }

  predicate FitsBits(n: int, bits: nat)
    requires bits in {16, 32, 64}
  {
    if bits == 16 then -0x8000 <= n < 0x8000
    else if bits == 32 then -0x8000_0000 <= n < 0x8000_0000
    else LONG_MIN <= n <= LONG_MAX
  }

  /** An optional minus, no leading zero, a value the type can hold. */
  predicate Canonical(s: string, bits: nat)
    requires bits in {16, 32, 64}
  {
    var minus := s != "" && s[0] == '-';
    var d := if minus then s[1..] else s;
    && d != "" && AllDigits(d)
    && (d[0] == '0' ==> s == "0")
    && FitsBits(if minus then -Value(d) else Value(d), bits)
  }

  lemma SignedFits(n: int, bits: nat)
    requires bits in {16, 32, 64}
    ensures FitsBits(Signed(n, bits), bits)
    ensures FitsBits(n, bits) ==> Signed(n, bits) == n
  {}

  lemma {:induction false} DigitsOfValue(d: string)
    requires d != "" && AllDigits(d) && (d[0] == '0' ==> |d| == 1)
    ensures Value(d) >= 0 && Digits(Value(d)) == d
    ensures d[0] != '0' ==> Value(d) > 0
  {
    var front, c := d[..|d|-1], d[|d|-1];
    assert IsDigit(c) && d == front + [c];
    ValueSnoc(d);
    if front == "" {
      SingleDigit(c as int - '0' as int);
    } else {
      hide Value, Digits;
      DigitsOfValue(front);
      DigitsSnoc(Value(front), c as int - '0' as int);
    }
  }

  lemma ValueSnoc(d: string)
    requires d != ""
    ensures Value(d) == 10 * Value(d[..|d|-1]) + (d[|d|-1] as int - '0' as int)
    ensures d[..|d|-1] == "" ==> Value(d[..|d|-1]) == 0
  {}

  lemma SingleDigit(n: nat)
    requires n < 10
    ensures Digits(n) == [DigitChar(n)]
  {}

  lemma PrintedIsCanonical(n: int, bits: nat)
    requires bits in {16, 32, 64} && FitsBits(n, bits)
    ensures Canonical(Printed(n), bits)
  {
    if n < 0 {
      assert Printed(n)[1..] == Digits(-n);
    } else {
      assert IsDigit(Digits(n)[0]);
      assert n == 0 ==> Digits(n) == "0";
    }
  }

  lemma CanonicalIsPrinted(s: string, bits: nat)
    requires bits in {16, 32, 64} && Canonical(s, bits)
    ensures s == Printed(Atol(s)) && FitsBits(Atol(s), bits)
  {
    if s[0] == '-' {
      var d := s[1..];
      assert s == "-" + d;
      assert d[0] != '0';
      DigitsOfValue(d);
      AtolPrinted(-Value(d));
    } else {
      DigitsOfValue(s);
      AtolPrinted(Value(s));
    }
  }

  /** Reading a text into a word of the given width and printing the word gives the text
      back exactly when the text is canonical and in range. */
  lemma {:induction false} RereadExactlyCanonical(s: string, bits: nat)
    requires bits in {16, 32, 64}
    ensures Printed(Signed(Atol(s), bits)) == s <==> Canonical(s, bits)
  {
    SignedFits(Atol(s), bits);
    if Canonical(s, bits) {
      CanonicalIsPrinted(s, bits);
    }
    PrintedIsCanonical(Signed(Atol(s), bits), bits);
  }
}

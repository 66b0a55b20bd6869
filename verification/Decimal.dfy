/** Decimal numerals: strconv.Atoi and the zero-padded %0Nd of fmt. */
module Decimal {
  import opened Options

  predicate IsDigit(c: char) {
    '0' <= c <= '9'
  }

  predicate AllDigits(s: string) {
    forall i :: 0 <= i < |s| ==> IsDigit(s[i])
  }

  function DigitOf(d: nat): (c: char)
    requires d < 10
    ensures IsDigit(c) && c as int - '0' as int == d
  {
    (d + '0' as int) as char
  }

  /** The number a run of digits stands for. */
  function Value(s: string): nat
    requires AllDigits(s)
  {
    if s == "" then 0 else 10 * Value(s[..|s| - 1]) + (s[|s| - 1] as int - '0' as int)
  }

  /** The digits of `n`, without leading zeros; none for zero. */
  function Digits(n: nat): (s: string)
    ensures AllDigits(s) && Value(s) == n
  {
    if n == 0 then ""
    else
      var s := Digits(n / 10) + [DigitOf(n % 10)];
      assert s[..|s| - 1] == Digits(n / 10);
      s
  }

  function Dec(n: nat): (s: string)
    ensures s != "" && AllDigits(s) && Value(s) == n
  {
    if n == 0 then "0" else Digits(n)
  }

  /** %0{width}d: at least `width` digits, zeros in front. */
  function Padded(n: nat, width: nat): (s: string)
    ensures |s| >= width && AllDigits(s) && Value(s) == n
  {
    Pad(Digits(n), width)
  }

  function Pad(s: string, width: nat): (t: string)
    requires AllDigits(s)
    ensures |t| >= width && AllDigits(t) && Value(t) == Value(s)
    decreases width - |s|
  {
    if |s| >= width then s
    else
      ZeroInFront(s);
      Pad("0" + s, width)
  }

  lemma {:induction false} ZeroInFront(s: string)
    requires AllDigits(s)
    ensures AllDigits("0" + s) && Value("0" + s) == Value(s)
  {
    var t := "0" + s;
    if s != "" {
      ZeroInFront(s[..|s| - 1]);
      assert t[..|t| - 1] == "0" + s[..|s| - 1];
    } else {
      assert t[..0] == "";
    }
  }

  function Pow10(w: nat): nat {
    if w == 0 then 1 else 10 * Pow10(w - 1)
  }

  lemma {:induction false} DigitsFit(n: nat, w: nat)
    requires n < Pow10(w)
    ensures |Digits(n)| <= w
    decreases w
  {
    if n > 0 {
      TenthFits(n, Pow10(w - 1));
      DigitsFit(n / 10, w - 1);
    }
  }

  lemma TenthFits(n: nat, p: nat)
    requires n < 10 * p
    ensures n / 10 < p
  {
  }

  lemma {:induction false} PadFits(s: string, width: nat)
    requires AllDigits(s) && |s| <= width
    ensures |Pad(s, width)| == width
    decreases width - |s|
  {
    if |s| < width {
      ZeroInFront(s);
      PadFits("0" + s, width);
    }
  }

  /** A number that fits is padded to exactly the width. */
  lemma PaddedFits(n: nat, width: nat)
    requires n < Pow10(width)
    ensures |Padded(n, width)| == width
  {
    DigitsFit(n, width);
    PadFits(Digits(n), width);
  }

  /** strconv.Atoi: an optional sign and at least one digit. Numbers too large for an int are
      errors there; here they are just large, which no array index is. */
  function Atoi(s: string): Option<int> {
    if s != "" && (s[0] == '+' || s[0] == '-') then
      if |s| > 1 && AllDigits(s[1..])
      then Some(if s[0] == '-' then 0 - Value(s[1..]) else Value(s[1..]) as int)
      else None
    else if s != "" && AllDigits(s) then Some(Value(s))
    else None
  }

  lemma AtoiOfDec(n: nat)
    ensures Atoi(Dec(n)) == Some(n)
  {
    assert IsDigit(Dec(n)[0]);
  }

  /** A sign in front is read as strconv.Atoi does. */
  lemma AtoiOfSigned(n: nat)
    ensures Atoi("-" + Dec(n)) == Some(0 - n) && Atoi("+" + Dec(n)) == Some(n)
  {
    assert ("-" + Dec(n))[1..] == Dec(n) && ("+" + Dec(n))[1..] == Dec(n);
  }
}

/** Decimal text of integers: how the program prints them and how it reads them back. */
module Decimal {
  import opened Wrappers

  predicate IsDigit(c: char) {
    '0' <= c <= '9'
  }

  predicate AllDigits(s: string) {
    forall i :: 0 <= i < |s| ==> IsDigit(s[i])
  }

  function DigitChar(d: nat): (c: char)
    requires d < 10
    ensures IsDigit(c) && DigitValue(c) == d
  {
    '0' + d as char
  }

  function DigitValue(c: char): (d: nat)
    requires IsDigit(c)
    ensures d < 10
  {
    (c - '0') as nat
  }

  /** The shortest decimal text: no leading zero except for zero itself. */
  function OfNat(n: nat): (s: string)
    ensures s != [] && AllDigits(s)
    ensures s[0] == '0' <==> n == 0
    ensures n < 10 <==> |s| == 1
  {
    if n < 10 then [DigitChar(n)] else OfNat(n / 10) + [DigitChar(n % 10)]
  }

  function ToNat(s: string): nat
    requires AllDigits(s)
  {
    if s == [] then 0 else ToNat(s[..|s| - 1]) * 10 + DigitValue(s[|s| - 1])
  }

  lemma {:induction false} ToNatOfNat(n: nat)
    ensures ToNat(OfNat(n)) == n
  {
    if n < 10 {
      assert ToNat([DigitChar(n)][..0]) == 0;
    } else {
      ToNatOfNat(n / 10);
      var s := OfNat(n);
      assert s[..|s| - 1] == OfNat(n / 10);
    }
  }

  lemma OfNatInjective(m: nat, n: nat)
    requires OfNat(m) == OfNat(n)
    ensures m == n
  {
    ToNatOfNat(m);
    ToNatOfNat(n);
  }

  /** Zeros in front do not change what digits stand for. */
  lemma {:induction false} LeadingZeros(zeros: nat, s: string)
    requires AllDigits(s)
    ensures AllDigits(seq(zeros, _ => '0') + s)
    ensures ToNat(seq(zeros, _ => '0') + s) == ToNat(s)
  {
    var padded := seq(zeros, _ => '0') + s;
    if s != [] {
      LeadingZeros(zeros, s[..|s| - 1]);
      assert padded[..|padded| - 1] == seq(zeros, _ => '0') + s[..|s| - 1];
    } else if zeros > 0 {
      LeadingZeros(zeros - 1, s);
      assert padded[..|padded| - 1] == seq(zeros - 1, _ => '0') + s;
    }
  }

  /** Digits without a leading zero are the only way to spell their number like this. */
  lemma {:induction false} OfNatToNat(s: string)
    requires s != [] && AllDigits(s) && (s[0] == '0' ==> |s| == 1)
    ensures OfNat(ToNat(s)) == s
    ensures ToNat(s) == 0 <==> s[0] == '0'
  {
    if |s| == 1 {
      assert ToNat(s[..0]) == 0;
    } else {
      var init := s[..|s| - 1];
      OfNatToNat(init);
      assert s == init + [s[|s| - 1]];
    }
  }

  function OfInt(n: int): (s: string)
    ensures s != []
    ensures forall i :: 0 <= i < |s| ==> IsDigit(s[i]) || s[i] == '-'
  {
    if n < 0 then "-" + OfNat(-n) else OfNat(n)
  }

  /** Rust's `str::parse` for integers: an optional sign and at least one digit. */
  function ParseInt(s: string): Option<int> {
    if s != [] && s[0] == '-' then
      if s[1..] != [] && AllDigits(s[1..]) then Some(-(ToNat(s[1..]) as int)) else None
    else if s != [] && s[0] == '+' then
      if s[1..] != [] && AllDigits(s[1..]) then Some(ToNat(s[1..])) else None
    else if s != [] && AllDigits(s) then Some(ToNat(s))
    else None
  }

  lemma ParseIntOfInt(n: int)
    ensures ParseInt(OfInt(n)) == Some(n)
  {
    if n < 0 {
      ToNatOfNat(-n);
      assert OfInt(n)[1..] == OfNat(-n);
    } else {
      ToNatOfNat(n);
    }
  }
}

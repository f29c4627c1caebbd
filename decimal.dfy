/** Decimal text for integers: the digit string that the generator's
    formatInt builds and the optional-sign-plus-digits grammar that Go's
    strconv.Atoi accepts (integer overflow is not modelled: values are
    unbounded). */
module Decimal {
  import opened Common

  predicate IsDigit(c: char) { '0' <= c <= '9' }

  predicate AllDigits(s: string) {
    forall i :: 0 <= i < |s| ==> IsDigit(s[i])
  }

  function DigitChar(d: int): (c: char)
    requires 0 <= d < 10
    ensures IsDigit(c) && c as int - '0' as int == d
  {
    ('0' as int + d) as char
  }

  function DigitValue(c: char): (d: int)
    requires IsDigit(c)
    ensures 0 <= d < 10 && DigitChar(d) == c
  {
    c as int - '0' as int
  }

  /** The decimal digits of `n`, most significant first, with no leading
      zero; empty for 0. */
  function Digits(n: nat): (s: string)
    ensures AllDigits(s)
    ensures (s == []) <==> (n == 0)
    ensures s != [] ==> s[0] != '0'
  {
    if n == 0 then [] else Digits(n / 10) + [DigitChar(n % 10)]
  }

  /** The value of a digit string, by Horner's rule; leading zeros are
      allowed and the empty string is 0. */
  function DigitsValue(s: string): (n: nat)
    requires AllDigits(s)
    ensures |s| > 0 && s[0] != '0' ==> n > 0
  {
    if s == [] then 0
    else
      assert AllDigits(s[..|s| - 1]);
      DigitsValue(s[..|s| - 1]) * 10 + DigitValue(s[|s| - 1])
  }

  /** The canonical decimal form of `n`: "0" for zero, a '-' before the
      digits of |n| for a negative, and never a leading zero. */
  function DecimalString(n: int): (s: string)
    ensures |s| > 0
  {
    if n == 0 then "0"
    else if n < 0 then "-" + Digits(-n)
    else Digits(n)
  }

  /** The shape of the canonical form: digits, after a '-' for a negative,
      and no leading zero unless the number is 0. */
  lemma DecimalStringForm(n: int)
    ensures var s := DecimalString(n);
      && (n >= 0 ==> AllDigits(s))
      && (n < 0 ==> s[0] == '-' && |s| >= 2 && AllDigits(s[1..]))
      && (n != 0 ==> s[0] != '0')
      && (n >= 0 && |s| > 1 ==> s[0] != '0')
  {
    if n < 0 {
      assert ("-" + Digits(-n))[1..] == Digits(-n);
    }
  }

  /** Go's strconv.Atoi in base 10: an optional '+' or '-' followed by at
      least one digit; anything else is an error. */
  function Atoi(s: string): (r: Option<int>)
    ensures r.Some? <==> (s != [] && AllDigits(if s[0] == '+' || s[0] == '-' then s[1..] else s)
                                  && (s[0] == '+' || s[0] == '-' ==> |s| >= 2))
  {
    if s == [] then None
    else if s[0] == '+' || s[0] == '-' then
      var body := s[1..];
      if body != [] && AllDigits(body) then
        var v: int := DigitsValue(body);
        Some(if s[0] == '-' then -v else v)
      else None
    else if AllDigits(s) then Some(DigitsValue(s))
    else None
  }

  lemma {:induction false} DigitsRoundTrip(n: nat)
    ensures DigitsValue(Digits(n)) == n
  {
    if n > 0 {
      var s := Digits(n);
      assert s[..|s| - 1] == Digits(n / 10);
      DigitsRoundTrip(n / 10);
    }
  }

  /** The other direction: a digit string without a leading zero is the
      canonical form of its value. */
  lemma {:induction false} DigitsCanonical(s: string)
    requires AllDigits(s) && s != [] && s[0] != '0'
    ensures Digits(DigitsValue(s)) == s
  {
    var init := s[..|s| - 1];
    var c := s[|s| - 1];
    assert AllDigits(init);
    var d := DigitValue(c);
    var w := DigitsValue(init);
    var v := DigitsValue(s);
    assert v == w * 10 + d;
    DivModUnique(v, w, d, 10);
    assert v > 0;
    assert Digits(v) == Digits(w) + [DigitChar(d)];
    if init != [] {
      DigitsCanonical(init);
    }
    assert s == init + [c];
  }

  /** Parsing the canonical form gives the number back. */
  lemma DecimalRoundTrip(n: int)
    ensures Atoi(DecimalString(n)) == Some(n)
  {
    var s := DecimalString(n);
    if n > 0 {
      DigitsRoundTrip(n);
      AtoiUnsigned(s);
    } else if n < 0 {
      DigitsRoundTrip(-n);
      assert s[1..] == Digits(-n);
      AtoiNegative(s);
    } else {
      assert DigitsValue("0") == 0 by {
        assert "0"[..0] == [];
      }
      AtoiUnsigned(s);
    }
  }

  /** Digits alone parse as their value. */
  lemma AtoiUnsigned(s: string)
    requires s != [] && AllDigits(s)
    ensures Atoi(s) == Some(DigitsValue(s))
  {
    assert IsDigit(s[0]);
  }

  /** A '-' before digits parses as the negated value of the digits. */
  lemma AtoiNegative(s: string)
    requires |s| >= 2 && s[0] == '-' && AllDigits(s[1..])
    ensures Atoi(s) == Some(-(DigitsValue(s[1..]) as int))
  {
  }

  /** Distinct numbers have distinct decimal forms. */
  lemma DecimalStringInjective(a: int, b: int)
    requires DecimalString(a) == DecimalString(b)
    ensures a == b
  {
    DecimalRoundTrip(a);
    DecimalRoundTrip(b);
  }
}

/** UTF-8 as RFC 3629 (section 4, the UTF8-octets grammar) defines it: the
    validity test that Go's utf8.Valid performs, and the encoding of a string
    of Unicode scalar values that Go's []byte(string) conversion performs on
    a string literal. */
module Utf8 {
  import opened Common

  predicate IsTail(b: byte) { 0x80 <= b <= 0xBF }

  /** Length of the well-formed character that starts `s` (1 to 4 bytes), or
      0 when `s` does not start with one. The cases are the alternatives of
      UTF8-1 to UTF8-4 in RFC 3629, section 4; they exclude overlong forms,
      surrogates and code points above U+10FFFF. */
  function FirstCharLen(s: seq<byte>): (n: nat)
    ensures n <= 4 && n <= |s|
    ensures s == [] ==> n == 0
  {
    if s == [] then 0
    else if s[0] <= 0x7F then 1
    else if 0xC2 <= s[0] <= 0xDF then
      (if |s| >= 2 && IsTail(s[1]) then 2 else 0)
    else if 0xE0 <= s[0] <= 0xEF then
      var lo := if s[0] == 0xE0 then 0xA0 else 0x80;
      var hi := if s[0] == 0xED then 0x9F else 0xBF;
      (if |s| >= 3 && lo <= s[1] <= hi && IsTail(s[2]) then 3 else 0)
    else if 0xF0 <= s[0] <= 0xF4 then
      var lo := if s[0] == 0xF0 then 0x90 else 0x80;
      var hi := if s[0] == 0xF4 then 0x8F else 0xBF;
      (if |s| >= 4 && lo <= s[1] <= hi && IsTail(s[2]) && IsTail(s[3]) then 4 else 0)
    else 0
  }

  /** `s` is a sequence of well-formed UTF-8 characters. */
  predicate Valid(s: seq<byte>)
    decreases |s|
  {
    s == [] || (FirstCharLen(s) > 0 && Valid(s[FirstCharLen(s)..]))
  }

  /** The UTF-8 encoding of one Unicode scalar value. */
  function EncodeChar(c: char): (r: seq<byte>)
    ensures 1 <= |r| <= 4
  {
    var v := c as int;
    if v < 0x80 then [v]
    else if v < 0x800 then [0xC0 + v / 0x40, 0x80 + v % 0x40]
    else if v < 0x10000 then [0xE0 + v / 0x1000, 0x80 + (v / 0x40) % 0x40, 0x80 + v % 0x40]
    else [0xF0 + v / 0x40000, 0x80 + (v / 0x1000) % 0x40, 0x80 + (v / 0x40) % 0x40, 0x80 + v % 0x40]
  }

  /** The UTF-8 encoding of a string: Go's []byte(s). */
  function Encode(s: string): (r: seq<byte>)
    ensures |r| >= |s|
  {
    if s == [] then [] else EncodeChar(s[0]) + Encode(s[1..])
  }

  /** ASCII characters encode as themselves, one byte each. */
  lemma {:induction false} EncodeAscii(s: string)
    requires forall i :: 0 <= i < |s| ==> s[i] as int < 0x80
    ensures |Encode(s)| == |s|
    ensures forall i :: 0 <= i < |s| ==> Encode(s)[i] == s[i] as int
  {
    if s != [] {
      EncodeAscii(s[1..]);
    }
  }

  lemma {:induction false} EncodeAppend(a: string, b: string)
    ensures Encode(a + b) == Encode(a) + Encode(b)
  {
    if a == [] {
      assert a + b == b;
    } else {
      assert (a + b)[1..] == a[1..] + b;
      EncodeAppend(a[1..], b);
    }
  }

  /** Each encoded character is recognised, with its full length, by the
      RFC 3629 grammar, whatever follows it. */
  lemma EncodeCharWellFormed(c: char, rest: seq<byte>)
    ensures FirstCharLen(EncodeChar(c) + rest) == |EncodeChar(c)|
  {
    var v := c as int;
    var s := EncodeChar(c) + rest;
    if v < 0x80 {
    } else if v < 0x800 {
      assert 2 <= v / 0x40 < 0x20;
    } else if v < 0x10000 {
      var top := v / 0x1000;
      var mid := (v / 0x40) % 0x40;
      assert top < 0x10;
      assert top == 0 ==> mid >= 0x20;
      assert top == 0xD ==> mid < 0x20 by {
        if top == 0xD {
          // Surrogates (U+D800..U+DFFF) are not scalar values.
          assert v < 0xD800;
          assert v / 0x40 < 0xD800 / 0x40;
        }
      }
    } else {
      var top := v / 0x40000;
      var mid := (v / 0x1000) % 0x40;
      assert top <= 4;
      assert top == 0 ==> mid >= 0x10;
      assert top == 4 ==> mid < 0x10;
    }
  }

  /** Two valid sequences concatenate into a valid one. */
  lemma {:induction false} ValidAppend(a: seq<byte>, b: seq<byte>)
    requires Valid(a) && Valid(b)
    ensures Valid(a + b)
    decreases |a|
  {
    if a == [] {
      assert a + b == b;
    } else {
      var n := FirstCharLen(a);
      FirstCharLenPrefix(a, a + b);
      assert (a + b)[n..] == a[n..] + b;
      ValidAppend(a[n..], b);
    }
  }

  /** The first character's length depends only on the bytes it covers. */
  lemma FirstCharLenPrefix(s: seq<byte>, t: seq<byte>)
    requires FirstCharLen(s) > 0
    requires |t| >= FirstCharLen(s) && t[..FirstCharLen(s)] == s[..FirstCharLen(s)]
    ensures FirstCharLen(t) == FirstCharLen(s)
  {
    var n := FirstCharLen(s);
    assert forall i :: 0 <= i < n ==> t[i] == t[..n][i] == s[..n][i] == s[i];
  }

  /** Every encoded string is valid UTF-8. */
  lemma {:induction false} EncodeValid(s: string)
    ensures Valid(Encode(s))
  {
    if s != [] {
      EncodeValid(s[1..]);
      EncodeCharValid(s[0]);
      ValidAppend(EncodeChar(s[0]), Encode(s[1..]));
    }
  }

  lemma EncodeCharValid(c: char)
    ensures Valid(EncodeChar(c))
  {
    EncodeCharWellFormed(c, []);
    assert EncodeChar(c) + [] == EncodeChar(c);
    assert EncodeChar(c)[|EncodeChar(c)|..] == [];
  }

  /** Cutting an encoded string at a character boundary keeps it valid, and
      such boundaries lie at most 3 bytes apart: below any length `n` there is
      a valid prefix of length more than `n - 4`. */
  lemma {:induction false} EncodeHasNearBoundary(s: string, n: nat)
    requires n <= |Encode(s)|
    ensures exists m :: 0 <= m <= n < m + 4 && Valid(Encode(s)[..m])
  {
    if n < 4 {
      assert Encode(s)[..0] == [];
    } else {
      var c := EncodeChar(s[0]);
      var rest := Encode(s[1..]);
      assert Encode(s) == c + rest;
      EncodeHasNearBoundary(s[1..], n - |c|);
      var m :| 0 <= m <= n - |c| < m + 4 && Valid(rest[..m]);
      EncodeCharValid(s[0]);
      ValidAppend(c, rest[..m]);
      assert Encode(s)[..|c| + m] == c + rest[..m];
    }
  }
}

/** The test corpus: deterministic payloads of the four content types, the
    decimal formatting and the test-case names built from it, and the
    cross-product grids of data size x pixel size x content type x error
    correction level that make up the standard test matrices. */
module Corpus {
  import opened Common
  import Utf8
  import opened Decimal

  /** The character set of a payload; a Go int-based enumeration. */
  type ContentType = int

  const ContentNumeric: ContentType := 0
  const ContentAlphanumeric: ContentType := 1
  const ContentBinary: ContentType := 2
  const ContentUTF8: ContentType := 3

  /** One payload with its metadata. For UTF-8 content the data can be a
      few bytes shorter than the requested `dataSize`. */
  datatype TestCase = TestCase(
    name: string,
    data: seq<byte>,
    dataSize: int,
    pixelSize: int,
    contentType: ContentType,
    errorCorrectionLevel: string)

  // ---------------------------------------------------------------------
  // Character tables
  // ---------------------------------------------------------------------

  const NumericText: string := "01234" + "56789"

  /** The 45 characters of the QR alphanumeric mode, in the order of their
      values (ISO/IEC 18004:2015, section 7.4.4, Table 5); one Go literal,
      written here in three pieces. */
  const AlphanumericText: string := "0123456789" + "ABCDEFGHIJKLMNOPQRSTUVWXYZ" + " $%*+-./:"

  /** Mixed-script text whose characters are outside the alphanumeric set. */
  const Utf8PatternText: string := "Hello" + "世界" + "Café" + "你好" + "Москва"

  const NumericChars: seq<byte> := Utf8.Encode(NumericText)
  const AlphanumericChars: seq<byte> := Utf8.Encode(AlphanumericText)
  const Utf8Pattern: seq<byte> := Utf8.Encode(Utf8PatternText)

  predicate IsAsciiDigit(b: int) { 0x30 <= b <= 0x39 }

  /** The value of a byte in the QR alphanumeric mode (Table 5 of
      ISO/IEC 18004:2015), or -1 for a byte outside the set. */
  function AlphanumericValue(b: int): (v: int)
    ensures -1 <= v < 45
    ensures v >= 0 ==> b < 0x80
  {
    if 0x30 <= b <= 0x39 then b - 0x30
    else if 0x41 <= b <= 0x5A then b - 0x41 + 10
    else if b == 0x20 then 36
    else if b == 0x24 then 37
    else if b == 0x25 then 38
    else if b == 0x2A then 39
    else if b == 0x2B then 40
    else if b == 0x2D then 41
    else if b == 0x2E then 42
    else if b == 0x2F then 43
    else if b == 0x3A then 44
    else -1
  }

  predicate IsQRAlphanumeric(b: int) { AlphanumericValue(b) >= 0 }

  lemma NumericTable()
    ensures |NumericChars| == 10
    ensures forall i :: 0 <= i < 10 ==> NumericChars[i] == 0x30 + i
  {
    var t := NumericText;
    assert |t| == 10;
    assert forall i :: 0 <= i < 10 ==> t[i] as int == 0x30 + i;
    Utf8.EncodeAscii(t);
  }

  /** The alphanumeric pattern lists Table 5 in order: its i-th byte has
      value i. */
  lemma AlphanumericTable()
    ensures |AlphanumericChars| == 45
    ensures forall i :: 0 <= i < 45 ==> AlphanumericValue(AlphanumericChars[i]) == i
  {
    var t := AlphanumericText;
    AlphanumericDigits();
    AlphanumericLettersLow();
    AlphanumericLettersHigh();
    AlphanumericSymbols();
    assert forall i :: 0 <= i < 45 ==> AlphanumericValue(t[i] as int) == i;
    Utf8.EncodeAscii(t);
  }

  lemma AlphanumericDigits()
    ensures forall i :: 0 <= i < 10 ==> AlphanumericValue(AlphanumericText[i] as int) == i
  {
    var t := AlphanumericText;
    assert AlphanumericValue(t[0] as int) == 0 && AlphanumericValue(t[1] as int) == 1;
    assert AlphanumericValue(t[2] as int) == 2 && AlphanumericValue(t[3] as int) == 3;
    assert AlphanumericValue(t[4] as int) == 4 && AlphanumericValue(t[5] as int) == 5;
    assert AlphanumericValue(t[6] as int) == 6 && AlphanumericValue(t[7] as int) == 7;
    assert AlphanumericValue(t[8] as int) == 8 && AlphanumericValue(t[9] as int) == 9;
  }

  lemma AlphanumericLettersLow()
    ensures forall i :: 10 <= i < 23 ==> AlphanumericValue(AlphanumericText[i] as int) == i
  {
    AlphanumericLettersFirst();
    AlphanumericLettersSecond();
  }

  lemma AlphanumericLettersFirst()
    ensures forall i :: 10 <= i < 16 ==> AlphanumericValue(AlphanumericText[i] as int) == i
  {
    var t := AlphanumericText;
    assert AlphanumericValue(t[10] as int) == 10 && AlphanumericValue(t[11] as int) == 11;
    assert AlphanumericValue(t[12] as int) == 12 && AlphanumericValue(t[13] as int) == 13;
    assert AlphanumericValue(t[14] as int) == 14 && AlphanumericValue(t[15] as int) == 15;
  }

  lemma AlphanumericLettersSecond()
    ensures forall i :: 16 <= i < 23 ==> AlphanumericValue(AlphanumericText[i] as int) == i
  {
    var t := AlphanumericText;
    assert AlphanumericValue(t[16] as int) == 16 && AlphanumericValue(t[17] as int) == 17;
    assert AlphanumericValue(t[18] as int) == 18 && AlphanumericValue(t[19] as int) == 19;
    assert AlphanumericValue(t[20] as int) == 20 && AlphanumericValue(t[21] as int) == 21;
    assert AlphanumericValue(t[22] as int) == 22;
  }

  lemma AlphanumericLettersHigh()
    ensures forall i :: 23 <= i < 36 ==> AlphanumericValue(AlphanumericText[i] as int) == i
  {
    var t := AlphanumericText;
    assert AlphanumericValue(t[23] as int) == 23 && AlphanumericValue(t[24] as int) == 24;
    assert AlphanumericValue(t[25] as int) == 25 && AlphanumericValue(t[26] as int) == 26;
    assert AlphanumericValue(t[27] as int) == 27 && AlphanumericValue(t[28] as int) == 28;
    assert AlphanumericValue(t[29] as int) == 29 && AlphanumericValue(t[30] as int) == 30;
    assert AlphanumericValue(t[31] as int) == 31 && AlphanumericValue(t[32] as int) == 32;
    assert AlphanumericValue(t[33] as int) == 33 && AlphanumericValue(t[34] as int) == 34;
    assert AlphanumericValue(t[35] as int) == 35;
  }

  lemma AlphanumericSymbols()
    ensures |AlphanumericText| == 45
    ensures forall i :: 36 <= i < 45 ==> AlphanumericValue(AlphanumericText[i] as int) == i
  {
    var t := AlphanumericText;
    assert AlphanumericValue(t[36] as int) == 36 && AlphanumericValue(t[37] as int) == 37;
    assert AlphanumericValue(t[38] as int) == 38 && AlphanumericValue(t[39] as int) == 39;
    assert AlphanumericValue(t[40] as int) == 40 && AlphanumericValue(t[41] as int) == 41;
    assert AlphanumericValue(t[42] as int) == 42 && AlphanumericValue(t[43] as int) == 43;
    assert AlphanumericValue(t[44] as int) == 44;
  }

  // ---------------------------------------------------------------------
  // Payloads
  // ---------------------------------------------------------------------

  /** `n` bytes of the digit pattern "0123456789" repeated; empty for n <= 0. */
  function NumericData(n: int): (r: seq<byte>)
    ensures |r| == if n <= 0 then 0 else n
    ensures forall i :: 0 <= i < |r| ==> r[i] == 0x30 + i % 10 && IsAsciiDigit(r[i])
  {
    if n <= 0 then []
    else
      NumericTable();
      Periodic(NumericChars, n)
  }

  /** `n` bytes of the alphanumeric pattern repeated; empty for n <= 0. */
  function AlphanumericData(n: int): (r: seq<byte>)
    ensures |r| == if n <= 0 then 0 else n
    ensures forall i :: 0 <= i < |r| ==> AlphanumericValue(r[i]) == i % 45 && IsQRAlphanumeric(r[i])
  {
    if n <= 0 then []
    else
      AlphanumericTable();
      Periodic(AlphanumericChars, n)
  }

  /** The first `n` bytes of the endless repetition of `p`. */
  function Periodic(p: seq<byte>, n: nat): (r: seq<byte>)
    requires |p| > 0
    ensures |r| == n
  {
    seq(n, i requires 0 <= i < n => p[i % |p|])
  }

  /** The longest prefix of `s` that is valid UTF-8. */
  function LongestValidPrefix(s: seq<byte>): (r: seq<byte>)
    ensures Utf8.Valid(r) && |r| <= |s| && r == s[..|r|]
    ensures forall m :: |r| < m <= |s| ==> !Utf8.Valid(s[..m])
    decreases |s|
  {
    if Utf8.Valid(s) then s
    else
      var r := LongestValidPrefix(s[..|s| - 1]);
      assert forall m :: |r| < m < |s| ==> s[..|s| - 1][..m] == s[..m];
      assert s[..|s|] == s;
      r
  }

  lemma LongestValidPrefixUnique(s: seq<byte>, t: seq<byte>)
    requires |t| <= |s| && t == s[..|t|] && Utf8.Valid(t)
    requires forall m :: |t| < m <= |s| ==> !Utf8.Valid(s[..m])
    ensures LongestValidPrefix(s) == t
  {
    var r := LongestValidPrefix(s);
    assert s[..|t|] == t && s[..|r|] == r;
  }

  /** `n` bytes of the multi-script pattern, cut back to the last complete
      character; empty for n <= 0. */
  function Utf8Data(n: int): (r: seq<byte>)
    ensures n <= 0 ==> r == []
    ensures n > 0 ==> LongestValidPrefix(Periodic(Utf8Pattern, n)) == r
  {
    if n <= 0 then [] else LongestValidPrefix(Periodic(Utf8Pattern, n))
  }

  /** The repeated pattern is the encoding of the repeated pattern text. */
  function RepeatText(t: string, k: nat): string {
    if k == 0 then [] else RepeatText(t, k - 1) + t
  }

  /** One more period appended to whole periods is one more period. */
  lemma PeriodicAppend(p: seq<byte>, k: nat)
    requires |p| > 0
    ensures Periodic(p, k * |p|) + p == Periodic(p, (k + 1) * |p|)
  {
    var len := |p|;
    assert (k + 1) * len == k * len + len;
    var lhs := Periodic(p, k * len) + p;
    forall i | k * len <= i < (k + 1) * len ensures lhs[i] == p[i % len] {
      DivModUnique(i, k, i - k * len, len);
    }
  }

  lemma {:induction false} EncodedRepeat(t: string, k: nat)
    requires |t| > 0
    ensures Utf8.Encode(RepeatText(t, k)) == Periodic(Utf8.Encode(t), k * |Utf8.Encode(t)|)
  {
    if k > 0 {
      EncodedRepeat(t, k - 1);
      Utf8.EncodeAppend(RepeatText(t, k - 1), t);
      PeriodicAppend(Utf8.Encode(t), k - 1);
    }
  }

  lemma LeMul(k: nat, d: int)
    requires d >= 1
    ensures k <= k * d
  {
    assert k * d == k + k * (d - 1);
  }

  /** Cutting the repetition of any encoded text back to its longest valid
      prefix loses at most three bytes. */
  lemma RepeatedTruncation(t: string, n: nat)
    requires |t| > 0
    ensures n - 4 < |LongestValidPrefix(Periodic(Utf8.Encode(t), n))|
  {
    var p := Utf8.Encode(t);
    var full := Periodic(p, n);
    var text := RepeatText(t, n);
    LeMul(n, |p|);
    EncodedRepeat(t, n);
    var e := Utf8.Encode(text);
    assert full == e[..n];
    Utf8.EncodeHasNearBoundary(text, n);
    var m :| 0 <= m <= n < m + 4 && Utf8.Valid(e[..m]);
    assert full[..m] == e[..m];
  }

  /** What the UTF-8 generator promises: valid UTF-8, a prefix of the
      repeated pattern, never longer than requested and short by at most
      three bytes (a UTF-8 character is at most four bytes long). */
  lemma Utf8DataProperties(n: int)
    requires n > 0
    ensures Utf8.Valid(Utf8Data(n))
    ensures n - 4 < |Utf8Data(n)| <= n
    ensures forall i :: 0 <= i < |Utf8Data(n)| ==> Utf8Data(n)[i] == Utf8Pattern[i % |Utf8Pattern|]
  {
    RepeatedTruncation(Utf8PatternText, n);
    var r := Utf8Data(n);
    assert r == Periodic(Utf8Pattern, n)[..|r|];
  }

  /** `n` bytes of the fixed-seed random stream; empty for n <= 0. The
      pseudo-random generator seeded with 42 is the parameter `stream`. */
  function GenerateBinary(n: int, stream: nat -> byte): (r: seq<byte>)
    ensures |r| == if n <= 0 then 0 else n
  {
    if n <= 0 then [] else seq(n, i requires 0 <= i < n => stream(i as nat))
  }

  /** Deterministic and prefix-consistent: a shorter request yields a
      prefix of a longer one, so every size draws from the same stream. */
  lemma BinaryPrefix(m: int, n: int, stream: nat -> byte)
    requires 0 <= m <= n
    ensures GenerateBinary(m, stream) == GenerateBinary(n, stream)[..m]
  {
  }

  // ---------------------------------------------------------------------
  // Payload generators (the loops of the Go code)
  // ---------------------------------------------------------------------

  /** Fills a fresh buffer of `size` bytes with `pattern` repeated, one
      index at a time. */
  method FillPeriodic(pattern: seq<byte>, size: nat) returns (r: seq<byte>)
    requires |pattern| > 0
    ensures r == Periodic(pattern, size)
  {
    var result := new byte[size];
    for i := 0 to size
      invariant forall k :: 0 <= k < i ==> result[k] == pattern[k % |pattern|]
    {
      result[i] := pattern[i % |pattern|];
    }
    r := result[..];
  }

  /** The digit payload of `size` bytes. */
  method GenerateNumeric(size: int) returns (r: seq<byte>)
    ensures r == NumericData(size)
  {
    if size <= 0 {
      return [];
    }
    NumericTable();
    r := FillPeriodic(NumericChars, size);
  }

  /** The alphanumeric payload of `size` bytes. */
  method GenerateAlphanumeric(size: int) returns (r: seq<byte>)
    ensures r == AlphanumericData(size)
  {
    if size <= 0 {
      return [];
    }
    AlphanumericTable();
    r := FillPeriodic(AlphanumericChars, size);
  }

  /** The multi-script payload of `size` bytes. */
  method GenerateUTF8(size: int) returns (r: seq<byte>)
    ensures r == Utf8Data(size)
  {
    if size <= 0 {
      return [];
    }
    r := RepeatToBoundary(Utf8Pattern, size);
  }

  /** Appends whole copies of `pattern` until `size` bytes are reached,
      cuts to `size`, then drops bytes from the end until what is left is
      valid UTF-8. */
  method RepeatToBoundary(pattern: seq<byte>, size: nat) returns (r: seq<byte>)
    requires |pattern| > 0
    ensures r == LongestValidPrefix(Periodic(pattern, size))
  {
    var result: seq<byte> := [];
    ghost var copies := 0;
    while |result| < size
      invariant |result| == copies * |pattern|
      invariant result == Periodic(pattern, |result|)
      decreases size - |result|
    {
      PeriodicAppend(pattern, copies);
      result := result + pattern;
      copies := copies + 1;
      assert copies * |pattern| == (copies - 1) * |pattern| + |pattern|;
    }
    ghost var full := Periodic(pattern, size);
    var truncated := result[..size];
    assert truncated == full;
    while !Utf8.Valid(truncated) && |truncated| > 0
      invariant |truncated| <= size && truncated == full[..|truncated|]
      invariant forall m :: |truncated| < m <= size ==> !Utf8.Valid(full[..m])
    {
      truncated := truncated[..|truncated| - 1];
    }
    LongestValidPrefixUnique(full, truncated);
    r := truncated;
  }

  // ---------------------------------------------------------------------
  // Decimal formatting and test names
  // ---------------------------------------------------------------------

  /** Counts the digits of |n|, then fills a buffer of that length from the
      end, one remainder at a time. */
  method FormatInt(n: int) returns (s: string)
    ensures s == DecimalString(n)
  {
    if n == 0 {
      return "0";
    }
    var negative := n < 0;
    var magnitude := if negative then -n else n;

    var digits := 0;
    var temp := magnitude;
    while temp > 0
      invariant temp >= 0 && digits + |Digits(temp)| == |Digits(magnitude)|
    {
      digits := digits + 1;
      temp := temp / 10;
    }

    var result := new char[digits];
    var rest := magnitude;
    var i := digits - 1;
    while i >= 0
      invariant -1 <= i < digits && rest >= 0
      invariant Digits(rest) == Digits(magnitude)[..i + 1]
      invariant forall k :: i < k < digits ==> result[k] == Digits(magnitude)[k]
    {
      ghost var d := Digits(rest);
      DigitsStep(rest);
      assert d[i] == DigitChar(rest % 10) && Digits(rest / 10) == d[..i];
      result[i] := DigitChar(rest % 10);
      rest := rest / 10;
      i := i - 1;
    }
    assert result[..] == Digits(magnitude);
    if negative {
      return "-" + result[..];
    }
    return result[..];
  }

  lemma DigitsStep(n: nat)
    requires n > 0
    ensures Digits(n) == Digits(n / 10) + [DigitChar(n % 10)]
    ensures |Digits(n)| == |Digits(n / 10)| + 1
  {
  }

  /** "<content>-<size>b-<pixels>px". */
  function TestName(contentType: string, dataSize: int, pixelSize: int): string {
    contentType + "-" + DecimalString(dataSize) + "b-" + DecimalString(pixelSize) + "px"
  }

  /** "<content>-<size>b-<pixels>px-ec<level>". */
  function TestNameWithEC(contentType: string, dataSize: int, pixelSize: int, ecLevel: string): string {
    TestName(contentType, dataSize, pixelSize) + "-ec" + ecLevel
  }

  method FormatTestName(contentType: string, dataSize: int, pixelSize: int) returns (r: string)
    ensures r == TestName(contentType, dataSize, pixelSize)
  {
    var size := FormatInt(dataSize);
    var pixels := FormatInt(pixelSize);
    r := contentType + "-" + size + "b-" + pixels + "px";
  }

  method FormatTestNameWithEC(contentType: string, dataSize: int, pixelSize: int, ecLevel: string)
    returns (r: string)
    ensures r == TestNameWithEC(contentType, dataSize, pixelSize, ecLevel)
  {
    var size := FormatInt(dataSize);
    var pixels := FormatInt(pixelSize);
    r := contentType + "-" + size + "b-" + pixels + "px-ec" + ecLevel;
  }

  predicate NoDash(s: string) {
    forall i :: 0 <= i < |s| ==> s[i] != '-'
  }

  /** Two splits of one string, each at the first character satisfying
      `stop`, are the same split. */
  lemma SplitAtStop(a1: string, b1: string, a2: string, b2: string, stop: char -> bool)
    requires a1 + b1 == a2 + b2
    requires forall i :: 0 <= i < |a1| ==> !stop(a1[i])
    requires forall i :: 0 <= i < |a2| ==> !stop(a2[i])
    requires b1 != [] && stop(b1[0]) && b2 != [] && stop(b2[0])
    ensures a1 == a2 && b1 == b2
  {
    var s := a1 + b1;
    assert forall i :: 0 <= i < |a1| ==> s[i] == a1[i];
    assert s[|a1|] == b1[0];
    assert forall i :: 0 <= i < |a2| ==> s[i] == a2[i];
    assert s[|a2|] == b2[0];
    assert |a1| == |a2|;
    assert a1 == s[..|a1|] && a2 == s[..|a2|];
    assert b1 == s[|a1|..] && b2 == s[|a2|..];
  }

  lemma CancelPrefix(x: string, a: string, b: string)
    requires x + a == x + b
    ensures a == b
  {
    assert a == (x + a)[|x|..];
    assert b == (x + b)[|x|..];
  }

  /** A test name, split into the pieces it is read back by. */
  lemma TestNameShape(c: string, d: int, p: int, e: string)
    ensures TestNameWithEC(c, d, p, e)
         == c + ("-" + (DecimalString(d) + ("b-" + (DecimalString(p) + ("px-ec" + e)))))
  {
    var dd, pp := DecimalString(d), DecimalString(p);
    calc {
      TestNameWithEC(c, d, p, e);
      c + "-" + dd + "b-" + pp + "px" + "-ec" + e;
      { assert "px" + "-ec" == "px-ec"; }
      c + ("-" + (dd + ("b-" + (pp + ("px-ec" + e)))));
    }
  }

  /** Two decimal forms of non-negative numbers, each followed by text that
      starts with a non-digit, split the same way. */
  lemma SplitNumber(d1: int, t1: string, d2: int, t2: string)
    requires d1 >= 0 && d2 >= 0
    requires DecimalString(d1) + t1 == DecimalString(d2) + t2
    requires t1 != [] && !IsDigit(t1[0]) && t2 != [] && !IsDigit(t2[0])
    ensures d1 == d2 && t1 == t2
  {
    SplitAtStop(DecimalString(d1), t1, DecimalString(d2), t2, c => !IsDigit(c));
    DecimalStringInjective(d1, d2);
  }

  /** A test name determines its parts: the content label (which holds no
      '-'), both sizes (when not negative) and the error correction level. */
  lemma TestNameWithECInjective(c1: string, d1: int, p1: int, e1: string,
                                c2: string, d2: int, p2: int, e2: string)
    requires NoDash(c1) && NoDash(c2)
    requires d1 >= 0 && d2 >= 0 && p1 >= 0 && p2 >= 0
    requires TestNameWithEC(c1, d1, p1, e1) == TestNameWithEC(c2, d2, p2, e2)
    ensures c1 == c2 && d1 == d2 && p1 == p2 && e1 == e2
  {
    var t1, t2 := "px-ec" + e1, "px-ec" + e2;
    var q1, q2 := DecimalString(p1) + t1, DecimalString(p2) + t2;
    var r1, r2 := DecimalString(d1) + ("b-" + q1), DecimalString(d2) + ("b-" + q2);
    TestNameShape(c1, d1, p1, e1);
    TestNameShape(c2, d2, p2, e2);
    SplitAtStop(c1, "-" + r1, c2, "-" + r2, c => c == '-');
    CancelPrefix("-", r1, r2);
    SplitNumber(d1, "b-" + q1, d2, "b-" + q2);
    CancelPrefix("b-", q1, q2);
    SplitNumber(p1, t1, p2, t2);
    CancelPrefix("px-ec", e1, e2);
  }

  // ---------------------------------------------------------------------
  // Test cases and matrices
  // ---------------------------------------------------------------------

  /** The payload of each content type; a value outside the four gets no
      data, as Go's switch leaves the slice nil. */
  function Payload(ct: ContentType, size: int, stream: nat -> byte): seq<byte> {
    if ct == ContentNumeric then NumericData(size)
    else if ct == ContentAlphanumeric then AlphanumericData(size)
    else if ct == ContentBinary then GenerateBinary(size, stream)
    else if ct == ContentUTF8 then Utf8Data(size)
    else []
  }

  /** The label a content type gets in test names. */
  function ContentLabel(ct: ContentType): (r: string)
    ensures NoDash(r)
  {
    if ct == ContentNumeric then "numeric"
    else if ct == ContentAlphanumeric then "alphanumeric"
    else if ct == ContentBinary then "binary"
    else if ct == ContentUTF8 then "utf8"
    else ""
  }

  /** Reads a content label back; the inverse of `ContentLabel` on the
      four content types. */
  function ContentFromLabel(s: string): (r: Option<ContentType>)
    ensures r.Some? ==> ContentLabel(r.value) == s
  {
    if s == "numeric" then Some(ContentNumeric)
    else if s == "alphanumeric" then Some(ContentAlphanumeric)
    else if s == "binary" then Some(ContentBinary)
    else if s == "utf8" then Some(ContentUTF8)
    else None
  }

  lemma ContentLabelRoundTrip(ct: ContentType)
    requires ContentNumeric <= ct <= ContentUTF8
    ensures ContentFromLabel(ContentLabel(ct)) == Some(ct)
  {
  }

  /** Distinct content types get distinct labels. */
  lemma ContentLabelInjective(a: ContentType, b: ContentType)
    requires ContentNumeric <= a <= ContentUTF8 && ContentNumeric <= b <= ContentUTF8
    requires ContentLabel(a) == ContentLabel(b)
    ensures a == b
  {
    ContentLabelRoundTrip(a);
    ContentLabelRoundTrip(b);
  }

  /** The data of a case fits its content type: digits only, alphanumeric
      characters only, well-formed UTF-8, or anything for binary. */
  predicate Conforms(ct: ContentType, data: seq<byte>) {
    if ct == ContentNumeric then forall i :: 0 <= i < |data| ==> IsAsciiDigit(data[i])
    else if ct == ContentAlphanumeric then forall i :: 0 <= i < |data| ==> IsQRAlphanumeric(data[i])
    else if ct == ContentUTF8 then Utf8.Valid(data)
    else true
  }

  lemma PayloadConforms(ct: ContentType, size: int, stream: nat -> byte)
    ensures Conforms(ct, Payload(ct, size, stream))
  {
    var d := Payload(ct, size, stream);
    if ct == ContentNumeric {
      assert d == NumericData(size);
      assert forall i :: 0 <= i < |d| ==> IsAsciiDigit(d[i]);
    } else if ct == ContentAlphanumeric {
      assert d == AlphanumericData(size);
      assert forall i :: 0 <= i < |d| ==> IsQRAlphanumeric(d[i]);
    } else if ct == ContentUTF8 {
      assert d == Utf8Data(size);
      if size > 0 {
        Utf8DataProperties(size);
      }
      assert Utf8.Valid(d);
    }
  }

  /** Every payload has the requested length, except UTF-8, which may be
      up to three bytes short. */
  lemma PayloadLength(ct: ContentType, size: int, stream: nat -> byte)
    requires size > 0 && ContentNumeric <= ct <= ContentUTF8
    ensures ct != ContentUTF8 ==> |Payload(ct, size, stream)| == size
    ensures ct == ContentUTF8 ==> size - 4 < |Payload(ct, size, stream)| <= size
  {
    var d := Payload(ct, size, stream);
    if ct == ContentNumeric {
      assert d == NumericData(size);
    } else if ct == ContentAlphanumeric {
      assert d == AlphanumericData(size);
    } else if ct == ContentBinary {
      assert d == GenerateBinary(size, stream);
    } else {
      assert d == Utf8Data(size);
      Utf8DataProperties(size);
    }
  }

  function MatrixCase(dataSize: int, pixelSize: int, ct: ContentType, ecLevel: string,
                      stream: nat -> byte): TestCase
  {
    TestCase(TestNameWithEC(ContentLabel(ct), dataSize, pixelSize, ecLevel),
             Payload(ct, dataSize, stream), dataSize, pixelSize, ct, ecLevel)
  }

  /** Case `k` of the grid, where the nesting is data size, then pixel
      size, then content type, then error correction level (the
      innermost); None past the end of the grid. */
  function GridCase(dataSizes: seq<int>, pixelSizes: seq<int>, contentTypes: seq<ContentType>,
                    errorLevels: seq<string>, stream: nat -> byte, k: nat): Option<TestCase>
  {
    if |pixelSizes| == 0 || |contentTypes| == 0 || |errorLevels| == 0 then None
    else
      var t := Unflatten4(k, |pixelSizes|, |contentTypes|, |errorLevels|);
      if t.0 < |dataSizes| then
        Some(MatrixCase(dataSizes[t.0], pixelSizes[t.1], contentTypes[t.2], errorLevels[t.3], stream))
      else None
  }

  /** The grid has exactly one case per combination of its axes. */
  lemma GridCaseDefined(dataSizes: seq<int>, pixelSizes: seq<int>, contentTypes: seq<ContentType>,
                        errorLevels: seq<string>, stream: nat -> byte, k: nat)
    ensures GridCase(dataSizes, pixelSizes, contentTypes, errorLevels, stream, k).Some?
        <==> k < |dataSizes| * |pixelSizes| * |contentTypes| * |errorLevels|
  {
    var d, p, c, l := |dataSizes|, |pixelSizes|, |contentTypes|, |errorLevels|;
    if p > 0 && c > 0 && l > 0 {
      Unflatten4Range(k, d, p, c, l);
    } else {
      ZeroFactor(d, p, c, l);
    }
  }

  /** Builds the payload and label of one content type. */
  method GeneratePayload(ct: ContentType, size: int, stream: nat -> byte)
    returns (data: seq<byte>, tag: string)
    ensures data == Payload(ct, size, stream) && tag == ContentLabel(ct)
  {
    if ct == ContentNumeric {
      data := GenerateNumeric(size);
      tag := "numeric";
    } else if ct == ContentAlphanumeric {
      data := GenerateAlphanumeric(size);
      tag := "alphanumeric";
    } else if ct == ContentBinary {
      data := GenerateBinary(size, stream);
      tag := "binary";
    } else if ct == ContentUTF8 {
      data := GenerateUTF8(size);
      tag := "utf8";
    } else {
      data := [];
      tag := "";
    }
  }

  /** `cases` holds the first |cases| cases of the grid, in order. */
  predicate GridPrefix(cases: seq<TestCase>, dataSizes: seq<int>, pixelSizes: seq<int>,
                       contentTypes: seq<ContentType>, errorLevels: seq<string>, stream: nat -> byte)
  {
    forall k :: 0 <= k < |cases| ==>
      GridCase(dataSizes, pixelSizes, contentTypes, errorLevels, stream, k) == Some(cases[k])
  }

  /** The case at a position whose coordinates are (a, b, c, e). */
  lemma GridCaseAt(dataSizes: seq<int>, pixelSizes: seq<int>, contentTypes: seq<ContentType>,
                   errorLevels: seq<string>, stream: nat -> byte, k: nat, a: nat, b: nat, c: nat, e: nat)
    requires a < |dataSizes| && b < |pixelSizes| && c < |contentTypes| && e < |errorLevels|
    requires Unflatten4(k, |pixelSizes|, |contentTypes|, |errorLevels|) == (a, b, c, e)
    ensures GridCase(dataSizes, pixelSizes, contentTypes, errorLevels, stream, k)
         == Some(MatrixCase(dataSizes[a], pixelSizes[b], contentTypes[c], errorLevels[e], stream))
  {
  }

  lemma GridPrefixAppend(cases: seq<TestCase>, dataSizes: seq<int>, pixelSizes: seq<int>,
                         contentTypes: seq<ContentType>, errorLevels: seq<string>,
                         stream: nat -> byte, a: nat, b: nat, c: nat, e: nat)
    requires GridPrefix(cases, dataSizes, pixelSizes, contentTypes, errorLevels, stream)
    requires a < |dataSizes| && b < |pixelSizes| && c < |contentTypes| && e < |errorLevels|
    requires |cases| == a * (|pixelSizes| * |contentTypes| * |errorLevels|)
                        + b * (|contentTypes| * |errorLevels|) + c * |errorLevels| + e
    ensures GridPrefix(cases + [MatrixCase(dataSizes[a], pixelSizes[b], contentTypes[c], errorLevels[e], stream)],
                       dataSizes, pixelSizes, contentTypes, errorLevels, stream)
  {
    Flat4Index(a, b, c, e, |dataSizes|, |pixelSizes|, |contentTypes|, |errorLevels|, |cases|);
    GridCaseAt(dataSizes, pixelSizes, contentTypes, errorLevels, stream, |cases|, a, b, c, e);
    GridPrefixExtend(cases, dataSizes, pixelSizes, contentTypes, errorLevels, stream,
                     MatrixCase(dataSizes[a], pixelSizes[b], contentTypes[c], errorLevels[e], stream));
  }

  lemma GridPrefixExtend(cases: seq<TestCase>, dataSizes: seq<int>, pixelSizes: seq<int>,
                         contentTypes: seq<ContentType>, errorLevels: seq<string>,
                         stream: nat -> byte, tc: TestCase)
    requires GridPrefix(cases, dataSizes, pixelSizes, contentTypes, errorLevels, stream)
    requires GridCase(dataSizes, pixelSizes, contentTypes, errorLevels, stream, |cases|) == Some(tc)
    ensures GridPrefix(cases + [tc], dataSizes, pixelSizes, contentTypes, errorLevels, stream)
  {
    var next := cases + [tc];
    forall k | 0 <= k < |next|
      ensures GridCase(dataSizes, pixelSizes, contentTypes, errorLevels, stream, k) == Some(next[k])
    {
      if k < |cases| {
        assert next[k] == cases[k];
      }
    }
  }

  /** The body of the innermost loop: the payload, the name and the case. */
  method MakeCase(dataSize: int, pixelSize: int, contentType: ContentType, ecLevel: string,
                  stream: nat -> byte) returns (tc: TestCase)
    ensures tc == MatrixCase(dataSize, pixelSize, contentType, ecLevel, stream)
  {
    var data, tag := GeneratePayload(contentType, dataSize, stream);
    var name := FormatTestNameWithEC(tag, dataSize, pixelSize, ecLevel);
    tc := TestCase(name, data, dataSize, pixelSize, contentType, ecLevel);
  }

  /** The innermost loop: one case per error correction level, for the
      data size, pixel size and content type at (a, b, c). */
  method AppendErrorLevels(cases0: seq<TestCase>, dataSizes: seq<int>, pixelSizes: seq<int>,
                           contentTypes: seq<ContentType>, errorLevels: seq<string>,
                           stream: nat -> byte, a: nat, b: nat, c: nat)
    returns (cases: seq<TestCase>)
    requires a < |dataSizes| && b < |pixelSizes| && c < |contentTypes|
    requires GridPrefix(cases0, dataSizes, pixelSizes, contentTypes, errorLevels, stream)
    requires |cases0| == a * (|pixelSizes| * |contentTypes| * |errorLevels|)
                         + b * (|contentTypes| * |errorLevels|) + c * |errorLevels|
    ensures |cases| == |cases0| + |errorLevels|
    ensures GridPrefix(cases, dataSizes, pixelSizes, contentTypes, errorLevels, stream)
  {
    cases := cases0;
    var dataSize, pixelSize, contentType := dataSizes[a], pixelSizes[b], contentTypes[c];
    for e := 0 to |errorLevels|
      invariant |cases| == |cases0| + e
      invariant GridPrefix(cases, dataSizes, pixelSizes, contentTypes, errorLevels, stream)
    {
      var tc := MakeCase(dataSize, pixelSize, contentType, errorLevels[e], stream);
      GridPrefixAppend(cases, dataSizes, pixelSizes, contentTypes, errorLevels, stream, a, b, c, e);
      cases := cases + [tc];
    }
  }

  /** The four nested loops shared by the pixel-size and comprehensive
      matrices: one case per combination, appended in nesting order. */
  method BuildMatrix(dataSizes: seq<int>, pixelSizes: seq<int>, contentTypes: seq<ContentType>,
                     errorLevels: seq<string>, stream: nat -> byte)
    returns (cases: seq<TestCase>)
    ensures |cases| == |dataSizes| * |pixelSizes| * |contentTypes| * |errorLevels|
    ensures GridPrefix(cases, dataSizes, pixelSizes, contentTypes, errorLevels, stream)
  {
    ghost var l := |errorLevels|;
    ghost var s2 := |contentTypes| * l;
    ghost var s1 := |pixelSizes| * |contentTypes| * l;
    cases := [];
    for ia := 0 to |dataSizes|
      invariant |cases| == ia * s1
      invariant GridPrefix(cases, dataSizes, pixelSizes, contentTypes, errorLevels, stream)
    {
      for ib := 0 to |pixelSizes|
        invariant |cases| == ia * s1 + ib * s2
        invariant GridPrefix(cases, dataSizes, pixelSizes, contentTypes, errorLevels, stream)
      {
        for ic := 0 to |contentTypes|
          invariant |cases| == ia * s1 + ib * s2 + ic * l
          invariant GridPrefix(cases, dataSizes, pixelSizes, contentTypes, errorLevels, stream)
        {
          cases := AppendErrorLevels(cases, dataSizes, pixelSizes, contentTypes, errorLevels, stream, ia, ib, ic);
          MulSucc(ic, l);
        }
        MulSucc(ib, s2);
      }
      MulSucc(ia, s1);
    }
    assert |dataSizes| * s1 == |dataSizes| * |pixelSizes| * |contentTypes| * |errorLevels|;
  }

  /** Grid axes that the name of a case identifies: no value repeats on an
      axis, sizes are not negative and the content types are the four. */
  ghost predicate NameableAxes(dataSizes: seq<int>, pixelSizes: seq<int>, contentTypes: seq<ContentType>,
                               errorLevels: seq<string>)
  {
    NoDuplicates(dataSizes) && NoDuplicates(pixelSizes) &&
    NoDuplicates(contentTypes) && NoDuplicates(errorLevels) &&
    (forall i :: 0 <= i < |dataSizes| ==> dataSizes[i] >= 0) &&
    (forall i :: 0 <= i < |pixelSizes| ==> pixelSizes[i] >= 0) &&
    (forall i :: 0 <= i < |contentTypes| ==> ContentNumeric <= contentTypes[i] <= ContentUTF8)
  }

  /** Over nameable axes, the name of a case gives back its coordinates. */
  lemma MatrixNameDetermines(dataSizes: seq<int>, pixelSizes: seq<int>, contentTypes: seq<ContentType>,
                             errorLevels: seq<string>, stream: nat -> byte,
                             a: nat, b: nat, c: nat, e: nat, a2: nat, b2: nat, c2: nat, e2: nat)
    requires NameableAxes(dataSizes, pixelSizes, contentTypes, errorLevels)
    requires a < |dataSizes| && b < |pixelSizes| && c < |contentTypes| && e < |errorLevels|
    requires a2 < |dataSizes| && b2 < |pixelSizes| && c2 < |contentTypes| && e2 < |errorLevels|
    requires MatrixCase(dataSizes[a], pixelSizes[b], contentTypes[c], errorLevels[e], stream).name
          == MatrixCase(dataSizes[a2], pixelSizes[b2], contentTypes[c2], errorLevels[e2], stream).name
    ensures a == a2 && b == b2 && c == c2 && e == e2
  {
    TestNameWithECInjective(ContentLabel(contentTypes[c]), dataSizes[a], pixelSizes[b], errorLevels[e],
                            ContentLabel(contentTypes[c2]), dataSizes[a2], pixelSizes[b2], errorLevels[e2]);
    ContentLabelInjective(contentTypes[c], contentTypes[c2]);
    NoDuplicatesIndex(dataSizes, a, a2);
    NoDuplicatesIndex(pixelSizes, b, b2);
    NoDuplicatesIndex(contentTypes, c, c2);
    NoDuplicatesIndex(errorLevels, e, e2);
  }

  /** The coordinates of a position inside the grid: in range, determining
      the position, and giving the case found there. */
  lemma GridCoords(dataSizes: seq<int>, pixelSizes: seq<int>, contentTypes: seq<ContentType>,
                   errorLevels: seq<string>, stream: nat -> byte, k: nat)
    returns (u: (nat, nat, nat, nat))
    requires GridCase(dataSizes, pixelSizes, contentTypes, errorLevels, stream, k).Some?
    ensures |pixelSizes| > 0 && |contentTypes| > 0 && |errorLevels| > 0
    ensures u == Unflatten4(k, |pixelSizes|, |contentTypes|, |errorLevels|)
    ensures u.0 < |dataSizes| && u.1 < |pixelSizes| && u.2 < |contentTypes| && u.3 < |errorLevels|
    ensures GridCase(dataSizes, pixelSizes, contentTypes, errorLevels, stream, k)
         == Some(MatrixCase(dataSizes[u.0], pixelSizes[u.1], contentTypes[u.2], errorLevels[u.3], stream))
  {
    u := Unflatten4(k, |pixelSizes|, |contentTypes|, |errorLevels|);
  }

  /** Two positions of a grid over nameable axes that carry the same name
      are one position. */
  lemma GridNameDetermines(dataSizes: seq<int>, pixelSizes: seq<int>, contentTypes: seq<ContentType>,
                           errorLevels: seq<string>, stream: nat -> byte, j: nat, k: nat)
    requires NameableAxes(dataSizes, pixelSizes, contentTypes, errorLevels)
    requires GridCase(dataSizes, pixelSizes, contentTypes, errorLevels, stream, j).Some?
    requires GridCase(dataSizes, pixelSizes, contentTypes, errorLevels, stream, k).Some?
    requires GridCase(dataSizes, pixelSizes, contentTypes, errorLevels, stream, j).value.name
          == GridCase(dataSizes, pixelSizes, contentTypes, errorLevels, stream, k).value.name
    ensures j == k
  {
    var u := GridCoords(dataSizes, pixelSizes, contentTypes, errorLevels, stream, j);
    var v := GridCoords(dataSizes, pixelSizes, contentTypes, errorLevels, stream, k);
    MatrixNameDetermines(dataSizes, pixelSizes, contentTypes, errorLevels, stream,
                         u.0, u.1, u.2, u.3, v.0, v.1, v.2, v.3);
    Unflatten4Injective(j, k, |pixelSizes|, |contentTypes|, |errorLevels|);
  }

  /** The names of a grid over nameable axes are pairwise distinct. */
  lemma GridNamesDistinct(dataSizes: seq<int>, pixelSizes: seq<int>, contentTypes: seq<ContentType>,
                          errorLevels: seq<string>, stream: nat -> byte, cases: seq<TestCase>)
    requires NameableAxes(dataSizes, pixelSizes, contentTypes, errorLevels)
    requires GridPrefix(cases, dataSizes, pixelSizes, contentTypes, errorLevels, stream)
    ensures forall j, k :: 0 <= j < |cases| && 0 <= k < |cases| && cases[j].name == cases[k].name ==> j == k
  {
    forall j, k | 0 <= j < |cases| && 0 <= k < |cases| && cases[j].name == cases[k].name
      ensures j == k
    {
      GridNameDetermines(dataSizes, pixelSizes, contentTypes, errorLevels, stream, j, k);
    }
  }

  /** The axes of the pixel-size matrix. */
  const PixelMatrixDataSizes: seq<int> := [100, 300, 500, 750]
  const PixelMatrixPixelSizes: seq<int> := [264, 270, 360, 392, 445, 462]
  const PixelMatrixContentTypes: seq<ContentType> := [ContentAlphanumeric, ContentUTF8]
  const PixelMatrixErrorLevels: seq<string> := ["L", "H"]

  /** The axes of the comprehensive matrix. */
  const ComprehensiveDataSizes: seq<int> := [10, 25, 50, 100, 300, 500, 1000, 2000, 2500]
  const ComprehensivePixelSizes: seq<int> := [128, 200, 264, 270, 360, 392, 445, 480, 512, 720, 1024]
  const ComprehensiveContentTypes: seq<ContentType> :=
    [ContentNumeric, ContentAlphanumeric, ContentBinary, ContentUTF8]
  const ComprehensiveErrorLevels: seq<string> := ["L", "M", "H"]

  /** The pixel-size matrix draws no random bytes (it has no binary cases);
      the stream it passes along is never read. */
  const UnusedStream: nat -> byte := (i: nat) => 0

  /** The focused matrix: 4 data sizes by 6 pixel sizes by 2 content types
      by 2 error correction levels, 96 cases with distinct names. */
  method GeneratePixelSizeMatrix() returns (cases: seq<TestCase>)
    ensures |cases| == 96
    ensures GridPrefix(cases, PixelMatrixDataSizes, PixelMatrixPixelSizes, PixelMatrixContentTypes,
                       PixelMatrixErrorLevels, UnusedStream)
    ensures forall j, k :: 0 <= j < |cases| && 0 <= k < |cases| && cases[j].name == cases[k].name ==> j == k
  {
    cases := BuildMatrix(PixelMatrixDataSizes, PixelMatrixPixelSizes, PixelMatrixContentTypes,
                         PixelMatrixErrorLevels, UnusedStream);
    PixelMatrixAxes();
    GridNamesDistinct(PixelMatrixDataSizes, PixelMatrixPixelSizes, PixelMatrixContentTypes,
                      PixelMatrixErrorLevels, UnusedStream, cases);
  }

  lemma PixelMatrixAxes()
    ensures NameableAxes(PixelMatrixDataSizes, PixelMatrixPixelSizes, PixelMatrixContentTypes, PixelMatrixErrorLevels)
  {
    IncreasingNoDuplicates(PixelMatrixDataSizes, 0);
    IncreasingNoDuplicates(PixelMatrixPixelSizes, 0);
    IncreasingNoDuplicates(PixelMatrixContentTypes, 0);
    assert PixelMatrixErrorLevels[0] != PixelMatrixErrorLevels[1];
  }

  /** The comprehensive matrix: 9 data sizes by 11 pixel sizes by the 4
      content types by 3 error correction levels, 1188 cases with distinct
      names. */
  method GenerateComprehensiveMatrix(stream: nat -> byte) returns (cases: seq<TestCase>)
    ensures |cases| == 1188
    ensures GridPrefix(cases, ComprehensiveDataSizes, ComprehensivePixelSizes, ComprehensiveContentTypes,
                       ComprehensiveErrorLevels, stream)
    ensures forall j, k :: 0 <= j < |cases| && 0 <= k < |cases| && cases[j].name == cases[k].name ==> j == k
  {
    cases := BuildMatrix(ComprehensiveDataSizes, ComprehensivePixelSizes, ComprehensiveContentTypes,
                         ComprehensiveErrorLevels, stream);
    ComprehensiveAxes();
    GridNamesDistinct(ComprehensiveDataSizes, ComprehensivePixelSizes, ComprehensiveContentTypes,
                      ComprehensiveErrorLevels, stream, cases);
  }

  lemma ComprehensiveAxes()
    ensures NameableAxes(ComprehensiveDataSizes, ComprehensivePixelSizes, ComprehensiveContentTypes, ComprehensiveErrorLevels)
  {
    IncreasingNoDuplicates(ComprehensiveDataSizes, 0);
    var ps := ComprehensivePixelSizes;
    assert IncreasingFrom(ps, 8) && IncreasingFrom(ps, 6) && IncreasingFrom(ps, 4);
    assert IncreasingFrom(ps, 2) && IncreasingFrom(ps, 0);
    IncreasingNoDuplicates(ps, 0);
    var cts := ComprehensiveContentTypes;
    assert cts[0] == 0 && cts[1] == 1 && cts[2] == 2 && cts[3] == 3;
    assert IncreasingFrom(cts, 2);
    assert IncreasingFrom(cts, 1);
    assert IncreasingFrom(cts, 0);
    IncreasingNoDuplicates(cts, 0);
    var e := ComprehensiveErrorLevels;
    assert e[0] != e[1] && e[0] != e[2] && e[1] != e[2];
  }

  /** The texts of the two UTF-8 edge cases. */
  const MultilingualText: string := "Hello World " + "你好世界 " + "Привет мир " + "こんにちは世界"
  const EmojiText: string := "QR Code Testing " + "🔍📱✅❌🎉"

  /** An edge case at 480 px and error correction level M that records the
      exact length of its data. */
  function EdgeCase(name: string, data: seq<byte>, ct: ContentType): (tc: TestCase)
    ensures tc.pixelSize == 480 && tc.errorCorrectionLevel == "M" && tc.dataSize == |tc.data|
  {
    TestCase(name, data, |data|, 480, ct, "M")
  }

  /** The eight edge cases: empty and one-byte binary data, small and large
      numeric and alphanumeric payloads and two multi-script texts, all at
      480 px and error correction level M, each recording its exact data
      length and holding data that fits its content type. */
  method GenerateEdgeCases() returns (r: seq<TestCase>)
    ensures |r| == 8
    ensures forall i :: 0 <= i < |r| ==>
              r[i].pixelSize == 480 && r[i].errorCorrectionLevel == "M" && r[i].dataSize == |r[i].data|
    ensures forall i :: 0 <= i < |r| ==> Conforms(r[i].contentType, r[i].data)
    ensures r[0].data == [] && r[1].data == [0x42]
    ensures r[2].data == NumericData(50) && r[3].data == NumericData(500)
    ensures r[4].data == AlphanumericData(50) && r[5].data == AlphanumericData(1000)
    ensures r[6].data == Utf8.Encode(MultilingualText) && r[7].data == Utf8.Encode(EmojiText)
    ensures r[0].contentType == ContentBinary && r[1].contentType == ContentBinary
    ensures r[2].contentType == ContentNumeric && r[3].contentType == ContentNumeric
    ensures r[4].contentType == ContentAlphanumeric && r[5].contentType == ContentAlphanumeric
    ensures r[6].contentType == ContentUTF8 && r[7].contentType == ContentUTF8
    ensures r[0].name == "empty-ecM" && r[1].name == "single-byte-ecM"
    ensures r[2].name == "numeric-small-ecM" && r[3].name == "numeric-large-ecM"
    ensures r[4].name == "alphanumeric-url-ecM" && r[5].name == "alphanumeric-large-ecM"
    ensures r[6].name == "utf8-multilingual-ecM" && r[7].name == "utf8-emoji-ecM"
  {
    var numericSmall := GenerateNumeric(50);
    var numericLarge := GenerateNumeric(500);
    var alphanumericUrl := GenerateAlphanumeric(50);
    var alphanumericLarge := GenerateAlphanumeric(1000);
    var multilingual := Utf8.Encode(MultilingualText);
    var emoji := Utf8.Encode(EmojiText);
    Utf8.EncodeValid(MultilingualText);
    Utf8.EncodeValid(EmojiText);
    r := [EdgeCase("empty-ecM", [], ContentBinary),
          EdgeCase("single-byte-ecM", [0x42], ContentBinary),
          EdgeCase("numeric-small-ecM", numericSmall, ContentNumeric),
          EdgeCase("numeric-large-ecM", numericLarge, ContentNumeric),
          EdgeCase("alphanumeric-url-ecM", alphanumericUrl, ContentAlphanumeric),
          EdgeCase("alphanumeric-large-ecM", alphanumericLarge, ContentAlphanumeric),
          EdgeCase("utf8-multilingual-ecM", multilingual, ContentUTF8),
          EdgeCase("utf8-emoji-ecM", emoji, ContentUTF8)];
  }
}

/** The Markdown report of one encoder and decoder pair's results: the
    numbers and classifications of its summary, matrix, failure and module
    size sections. The timing, data type and decoder limitation sections
    are not part of this model, numbers included; nor are the text layout,
    the number formatting and the prose. */
module MarkdownReport {
  import opened Common
  import opened Decimal
  import Corpus
  import opened Matrix

  // ---------------------------------------------------------------------
  // Outcomes

  /** Results without an error. */
  function Passed(): TestResult -> bool {
    (r: TestResult) => r.error.None?
  }

  /** Results with an error. */
  function Failed(): TestResult -> bool {
    (r: TestResult) => r.error.Some?
  }

  function EncodeFailed(): TestResult -> bool {
    (r: TestResult) => r.error.Some? && r.error.value.EncodeErr?
  }

  function DecodeFailed(): TestResult -> bool {
    (r: TestResult) => r.error.Some? && r.error.value.DecodeErr?
  }

  function Mismatched(): TestResult -> bool {
    (r: TestResult) => r.error.Some? && r.error.value.Mismatch?
  }

  /** Results whose error is of none of the three known kinds. */
  function OtherFailed(): TestResult -> bool {
    (r: TestResult) => r.error.Some? && r.error.value.OtherErr?
  }

  /** Every result passes or fails, and every failure is of exactly one
      kind: the known kinds and the unknown ones add up to the failures. */
  lemma OutcomesAddUp(rs: seq<TestResult>)
    ensures CountIf(rs, Passed()) + CountIf(rs, Failed()) == |rs|
    ensures CountIf(rs, EncodeFailed()) + CountIf(rs, DecodeFailed()) + CountIf(rs, Mismatched())
            + CountIf(rs, OtherFailed()) == CountIf(rs, Failed())
  {
    CountIfUnion(rs, Passed(), Failed());
    CountIfAll(rs, Or(Passed(), Failed()));
    var e, d, m, o := EncodeFailed(), DecodeFailed(), Mismatched(), OtherFailed();
    CountIfUnion(rs, e, d);
    CountIfUnion(rs, Or(e, d), m);
    CountIfUnion(rs, Or(Or(e, d), m), o);
    CountIfExt(rs, Or(Or(Or(e, d), m), o), Failed());
  }

  // ---------------------------------------------------------------------
  // Summary

  function SumEncodeTime(rs: seq<TestResult>): nat {
    if rs == [] then 0 else SumEncodeTime(rs[..|rs| - 1]) + rs[|rs| - 1].encodeTime
  }

  function SumDecodeTime(rs: seq<TestResult>): nat {
    if rs == [] then 0 else SumDecodeTime(rs[..|rs| - 1]) + rs[|rs| - 1].decodeTime
  }

  /** A share in percent, 0 when there is nothing to share. */
  function Percent(part: int, whole: int): (rate: real)
    ensures whole <= 0 ==> rate == 0.0
    ensures whole > 0 ==> rate * whole as real == part as real * 100.0
    ensures whole > 0 && 0 <= part <= whole ==> 0.0 <= rate <= 100.0
  {
    if whole > 0 then part as real * 100.0 / whole as real else 0.0
  }

  /** A mean rounded down as integer division does, 0 for no values. */
  function Mean(sum: nat, n: nat): (m: nat)
    ensures n == 0 ==> m == 0
    ensures n > 0 ==> m * n <= sum < m * n + n
  {
    if n > 0 then sum / n else 0
  }

  datatype SummaryCounts = SummaryCounts(
    total: nat,
    successful: nat,
    failed: int,
    encodeFailures: nat,
    decodeFailures: nat,
    dataMismatches: nat,
    successRate: real,
    avgEncodeTime: nat,
    avgDecodeTime: nat)

  /** How one more result changes each count and sum of the summary. */
  lemma SummaryStep(rs: seq<TestResult>, i: nat)
    requires i < |rs|
    ensures CountIf(rs[..i + 1], Passed()) == CountIf(rs[..i], Passed()) + (if rs[i].error.None? then 1 else 0)
    ensures CountIf(rs[..i + 1], EncodeFailed()) == CountIf(rs[..i], EncodeFailed()) + (if EncodeFailed()(rs[i]) then 1 else 0)
    ensures CountIf(rs[..i + 1], DecodeFailed()) == CountIf(rs[..i], DecodeFailed()) + (if DecodeFailed()(rs[i]) then 1 else 0)
    ensures CountIf(rs[..i + 1], Mismatched()) == CountIf(rs[..i], Mismatched()) + (if Mismatched()(rs[i]) then 1 else 0)
    ensures SumEncodeTime(rs[..i + 1]) == SumEncodeTime(rs[..i]) + rs[i].encodeTime
    ensures SumDecodeTime(rs[..i + 1]) == SumDecodeTime(rs[..i]) + rs[i].decodeTime
  {
    assert rs[..i + 1][..i] == rs[..i];
  }

  /** The numbers of the summary section: the results, those without an
      error, the rest as failures, the failures of each known kind, the
      success rate and the mean times in whole nanoseconds (all 0 when
      there are no results). */
  method BuildSummary(rs: seq<TestResult>) returns (s: SummaryCounts)
    ensures s.total == |rs|
    ensures s.successful == CountIf(rs, Passed())
    ensures s.failed == s.total - s.successful == CountIf(rs, Failed())
    ensures s.encodeFailures == CountIf(rs, EncodeFailed())
    ensures s.decodeFailures == CountIf(rs, DecodeFailed())
    ensures s.dataMismatches == CountIf(rs, Mismatched())
    ensures s.encodeFailures + s.decodeFailures + s.dataMismatches <= s.failed
    ensures s.successRate == Percent(s.successful, s.total)
    ensures s.avgEncodeTime == Mean(SumEncodeTime(rs), s.total)
    ensures s.avgDecodeTime == Mean(SumDecodeTime(rs), s.total)
  {
    var total := |rs|;
    var successful, encodeFailures, decodeFailures, dataMismatchFails := 0, 0, 0, 0;
    var totalEncodeTime, totalDecodeTime := 0, 0;
    for i := 0 to |rs|
      invariant successful == CountIf(rs[..i], Passed())
      invariant encodeFailures == CountIf(rs[..i], EncodeFailed())
      invariant decodeFailures == CountIf(rs[..i], DecodeFailed())
      invariant dataMismatchFails == CountIf(rs[..i], Mismatched())
      invariant totalEncodeTime == SumEncodeTime(rs[..i]) && totalDecodeTime == SumDecodeTime(rs[..i])
    {
      var result := rs[i];
      SummaryStep(rs, i);
      totalEncodeTime := totalEncodeTime + result.encodeTime;
      totalDecodeTime := totalDecodeTime + result.decodeTime;
      if result.error.None? {
        successful := successful + 1;
        continue;
      }
      if result.error.value.EncodeErr? {
        encodeFailures := encodeFailures + 1;
        continue;
      }
      if result.error.value.DecodeErr? {
        decodeFailures := decodeFailures + 1;
        continue;
      }
      if result.error.value.Mismatch? {
        dataMismatchFails := dataMismatchFails + 1;
        continue;
      }
    }
    assert rs[..|rs|] == rs;
    OutcomesAddUp(rs);
    var successRate := 0.0;
    if total > 0 {
      successRate := successful as real * 100.0 / total as real;
    }
    var avgEncodeTime, avgDecodeTime := Mean(totalEncodeTime, total), Mean(totalDecodeTime, total);
    s := SummaryCounts(total, successful, total - successful, encodeFailures, decodeFailures,
                       dataMismatchFails, successRate, avgEncodeTime, avgDecodeTime);
  }

  /** The known kinds make up all failures exactly when no error is of an
      unknown kind. */
  lemma KnownKindsCoverFailures(rs: seq<TestResult>)
    ensures CountIf(rs, EncodeFailed()) + CountIf(rs, DecodeFailed()) + CountIf(rs, Mismatched())
              == CountIf(rs, Failed())
            <==> forall i :: 0 <= i < |rs| ==> !OtherFailed()(rs[i])
  {
    OutcomesAddUp(rs);
    CountIfPositive(rs, OtherFailed());
  }

  // ---------------------------------------------------------------------
  // File names

  /** strings.ReplaceAll for one character by another. */
  function ReplaceAll(s: string, from: char, to: char): (r: string)
    ensures |r| == |s|
    ensures forall i :: 0 <= i < |s| && s[i] != from ==> r[i] == s[i]
    ensures forall i :: 0 <= i < |s| && s[i] == from ==> r[i] == to
    ensures from != to ==> forall i :: 0 <= i < |r| ==> r[i] != from
  {
    seq(|s|, i requires 0 <= i < |s| => if s[i] == from then to else s[i])
  }

  /** What each character becomes. */
  function SafeChar(c: char): char {
    if c == '/' || c == '\\' then '-' else if c == ' ' then '_' else c
  }

  /** The Markdown file name of a library: three replacements in turn,
      which act character by character: '/' and '\\' become '-', ' '
      becomes '_', everything else stays. */
  function SanitizeFilename(name: string): (r: string)
    ensures |r| == |name|
    ensures forall i :: 0 <= i < |name| ==> r[i] == SafeChar(name[i])
  {
    var r1 := ReplaceAll(name, '/', '-');
    var r2 := ReplaceAll(r1, '\\', '-');
    assert forall i :: 0 <= i < |name| ==> r2[i] == (if name[i] == '/' || name[i] == '\\' then '-' else name[i]);
    ReplaceAll(r2, ' ', '_')
  }

  /** None of the three characters is left, so sanitizing again changes
      nothing. */
  lemma SanitizeFilenameIdempotent(name: string)
    ensures forall i :: 0 <= i < |name| ==>
              SanitizeFilename(name)[i] != '/' && SanitizeFilename(name)[i] != '\\' && SanitizeFilename(name)[i] != ' '
    ensures SanitizeFilename(SanitizeFilename(name)) == SanitizeFilename(name)
  {
    var r := SanitizeFilename(name);
    var rr := SanitizeFilename(r);
    assert |rr| == |r|;
    forall i | 0 <= i < |r| ensures rr[i] == r[i] {
      assert r[i] == SafeChar(name[i]);
    }
  }

  // ---------------------------------------------------------------------
  // The pixel size by data size matrix

  /** The values a size field takes in the results. */
  function SizesIn(rs: seq<TestResult>, size: TestResult -> int): set<int> {
    set i | 0 <= i < |rs| :: size(rs[i])
  }

  function DataSizeOf(r: TestResult): int { r.dataSize }
  function PixelSizeOf(r: TestResult): int { r.pixelSize }

  predicate IntLe(a: int, b: int) { a <= b }

  lemma IntLeTotal()
    ensures TotalPreorder(IntLe)
  {
  }

  /** A sorted duplicate-free list is strictly increasing. */
  lemma SortedDistinctIncreasing(s: seq<int>)
    requires SortedBy(s, IntLe) && NoDuplicates(s)
    ensures forall i, j :: 0 <= i < j < |s| ==> s[i] < s[j]
  {
    forall i, j | 0 <= i < j < |s| ensures s[i] < s[j] {
      assert IntLe(s[i], s[j]) && s[i] != s[j];
    }
  }

  /** A set as an increasing list: the map keys, then sort.Ints. */
  method SortedKeys(keys: set<int>) returns (sorted: seq<int>)
    ensures forall i, j :: 0 <= i < j < |sorted| ==> sorted[i] < sorted[j]
    ensures forall x :: x in sorted <==> x in keys
  {
    var unsorted := MapKeys(keys);
    sorted := SortBy(unsorted, IntLe);
    IntLeTotal();
    SortBySorted(unsorted, IntLe);
    SortByElements(unsorted, IntLe);
    NoDuplicatesPermutation(unsorted, sorted);
    SortedDistinctIncreasing(sorted);
  }

  /** One axis of the matrix: the values of a size field, increasing and
      each once. */
  method Axis(rs: seq<TestResult>, size: TestResult -> int) returns (axis: seq<int>)
    ensures forall i, j :: 0 <= i < j < |axis| ==> axis[i] < axis[j]
    ensures forall x :: x in axis <==> x in SizesIn(rs, size)
  {
    var seen: set<int> := {};
    for i := 0 to |rs|
      invariant seen == SizesIn(rs[..i], size)
    {
      assert SizesIn(rs[..i + 1], size) == SizesIn(rs[..i], size) + {size(rs[i])} by {
        assert forall j :: 0 <= j < i ==> rs[..i + 1][j] == rs[..i][j];
      }
      seen := seen + {size(rs[i])};
    }
    assert rs[..|rs|] == rs;
    axis := SortedKeys(seen);
  }

  /** The lookup key of a cell: both sizes in decimal, joined by '_'. */
  function CellKey(d: int, p: int): string {
    DecimalString(d) + ("_" + DecimalString(p))
  }

  lemma DecimalNoUnderscore(n: int)
    ensures forall i :: 0 <= i < |DecimalString(n)| ==> DecimalString(n)[i] != '_'
  {
    var s := DecimalString(n);
    if n < 0 {
      forall i | 0 <= i < |s| ensures s[i] != '_' {
        if i > 0 {
          assert s[i] == s[1..][i - 1];
        }
      }
    }
  }

  /** Different cells have different keys. */
  lemma CellKeyInjective(d1: int, p1: int, d2: int, p2: int)
    requires CellKey(d1, p1) == CellKey(d2, p2)
    ensures d1 == d2 && p1 == p2
  {
    DecimalNoUnderscore(d1);
    DecimalNoUnderscore(d2);
    Corpus.SplitAtStop(DecimalString(d1), "_" + DecimalString(p1), DecimalString(d2), "_" + DecimalString(p2),
                       c => c == '_');
    Corpus.CancelPrefix("_", DecimalString(p1), DecimalString(p2));
    DecimalStringInjective(d1, d2);
    DecimalStringInjective(p1, p2);
  }

  /** The lookup map after the loop has seen `rs`: a later result with the
      same sizes replaces an earlier one. */
  function Lookup(rs: seq<TestResult>): map<string, TestResult> {
    if rs == [] then map[]
    else
      var x := rs[|rs| - 1];
      Lookup(rs[..|rs| - 1])[CellKey(x.dataSize, x.pixelSize) := x]
  }

  /** The results with the given sizes. */
  function SizesAre(d: int, p: int): TestResult -> bool {
    (r: TestResult) => r.dataSize == d && r.pixelSize == p
  }

  /** The last element meeting `p`, if any. */
  function LastWhere<T>(s: seq<T>, p: T -> bool): (r: Option<T>)
    ensures r.Some? <==> exists i :: 0 <= i < |s| && p(s[i])
  {
    if s == [] then None
    else
      var init := s[..|s| - 1];
      assert forall i :: 0 <= i < |init| ==> init[i] == s[i];
      if p(s[|s| - 1]) then Some(s[|s| - 1]) else LastWhere(init, p)
  }

  /** What LastWhere finds is an element meeting `p` after which no element
      does. */
  lemma {:induction false} LastWhereIsLast<T>(s: seq<T>, p: T -> bool)
    requires LastWhere(s, p).Some?
    ensures exists i :: 0 <= i < |s| && s[i] == LastWhere(s, p).value && p(s[i])
                        && forall j :: i < j < |s| ==> !p(s[j])
  {
    var last := |s| - 1;
    if p(s[last]) {
      assert s[last] == LastWhere(s, p).value;
    } else {
      var init := s[..last];
      LastWhereIsLast(init, p);
      var i :| 0 <= i < |init| && init[i] == LastWhere(init, p).value && p(init[i])
               && forall j :: i < j < |init| ==> !p(init[j]);
      assert s[i] == init[i];
      forall j | i < j < |s| ensures !p(s[j]) {
        if j < last {
          assert s[j] == init[j];
        }
      }
    }
  }

  /** The cell of a size pair holds the last result with those sizes. */
  lemma {:induction false} LookupMeaning(rs: seq<TestResult>, d: int, p: int)
    ensures CellKey(d, p) in Lookup(rs) <==> LastWhere(rs, SizesAre(d, p)).Some?
    ensures CellKey(d, p) in Lookup(rs) ==> Lookup(rs)[CellKey(d, p)] == LastWhere(rs, SizesAre(d, p)).value
  {
    if rs != [] {
      var x := rs[|rs| - 1];
      LookupMeaning(rs[..|rs| - 1], d, p);
      if CellKey(x.dataSize, x.pixelSize) == CellKey(d, p) {
        CellKeyInjective(x.dataSize, x.pixelSize, d, p);
      }
    }
  }

  /** The loop that fills the lookup map. */
  method BuildLookup(rs: seq<TestResult>) returns (lookup: map<string, TestResult>)
    ensures lookup == Lookup(rs)
  {
    lookup := map[];
    for i := 0 to |rs|
      invariant lookup == Lookup(rs[..i])
    {
      assert rs[..i + 1][..i] == rs[..i];
      lookup := lookup[CellKey(rs[i].dataSize, rs[i].pixelSize) := rs[i]];
    }
    assert rs[..|rs|] == rs;
  }

  /** What a cell shows: nothing, a pass or a failure. */
  datatype Cell = Blank | Pass | Fail

  /** The cell of a size pair, from the last result with those sizes. */
  function CellOf(rs: seq<TestResult>, d: int, p: int): (c: Cell)
    ensures c == Blank <==> forall i :: 0 <= i < |rs| ==> !(rs[i].dataSize == d && rs[i].pixelSize == p)
  {
    match LastWhere(rs, SizesAre(d, p))
    case None => Blank
    case Some(r) => if r.error.None? then Pass else Fail
  }

  /** When a size pair occurs once, its cell shows that result. */
  lemma CellOfUnique(rs: seq<TestResult>, i: nat)
    requires i < |rs|
    requires forall j :: 0 <= j < |rs| && j != i ==> !SizesAre(rs[i].dataSize, rs[i].pixelSize)(rs[j])
    ensures CellOf(rs, rs[i].dataSize, rs[i].pixelSize) == if rs[i].error.None? then Pass else Fail
  {
    var p := SizesAre(rs[i].dataSize, rs[i].pixelSize);
    assert p(rs[i]);
    LastWhereIsLast(rs, p);
    var k :| 0 <= k < |rs| && rs[k] == LastWhere(rs, p).value && p(rs[k])
             && forall j :: k < j < |rs| ==> !p(rs[j]);
    assert k == i;
  }

  /** The matrix: the sorted axes and one cell per pair of sizes. */
  method Build2DMatrix(rs: seq<TestResult>) returns (dataSizes: seq<int>, pixelSizes: seq<int>, cells: seq<seq<Cell>>)
    ensures forall i, j :: 0 <= i < j < |dataSizes| ==> dataSizes[i] < dataSizes[j]
    ensures forall x :: x in dataSizes <==> x in SizesIn(rs, DataSizeOf)
    ensures forall i, j :: 0 <= i < j < |pixelSizes| ==> pixelSizes[i] < pixelSizes[j]
    ensures forall x :: x in pixelSizes <==> x in SizesIn(rs, PixelSizeOf)
    ensures |cells| == |dataSizes|
    ensures forall i :: 0 <= i < |cells| ==> |cells[i]| == |pixelSizes|
    ensures forall i, j :: 0 <= i < |cells| && 0 <= j < |pixelSizes| ==>
              cells[i][j] == CellOf(rs, dataSizes[i], pixelSizes[j])
  {
    dataSizes := Axis(rs, DataSizeOf);
    pixelSizes := Axis(rs, PixelSizeOf);
    var lookup := BuildLookup(rs);
    cells := BuildCells(lookup, dataSizes, pixelSizes);
    CellsFromLookup(rs, lookup, dataSizes, pixelSizes, cells);
  }

  /** The rows of the matrix, one per data size, read from the lookup map. */
  method BuildCells(lookup: map<string, TestResult>, dataSizes: seq<int>, pixelSizes: seq<int>)
    returns (cells: seq<seq<Cell>>)
    ensures |cells| == |dataSizes|
    ensures forall i :: 0 <= i < |cells| ==> cells[i] == RowIn(lookup, dataSizes[i], pixelSizes)
  {
    cells := [];
    for i := 0 to |dataSizes|
      invariant |cells| == i
      invariant forall k :: 0 <= k < i ==> cells[k] == RowIn(lookup, dataSizes[k], pixelSizes)
    {
      var row := BuildRow(lookup, dataSizes[i], pixelSizes);
      cells := cells + [row];
    }
  }

  /** The cells `f` gives along a sequence of sizes, in order. */
  function CellsAlong(f: int -> Cell, sizes: seq<int>): (row: seq<Cell>)
    ensures |row| == |sizes|
  {
    if sizes == [] then []
    else
      var last := |sizes| - 1;
      CellsAlong(f, sizes[..last]) + [f(sizes[last])]
  }

  lemma CellsAlongStep(f: int -> Cell, sizes: seq<int>, j: nat)
    requires j < |sizes|
    ensures CellsAlong(f, sizes[..j + 1]) == CellsAlong(f, sizes[..j]) + [f(sizes[j])]
  {
    assert sizes[..j + 1][..j] == sizes[..j];
  }

  /** Cell `j` along the sizes is the cell of size `j`. */
  lemma {:induction false} CellsAlongAt(f: int -> Cell, sizes: seq<int>, j: nat)
    requires j < |sizes|
    ensures CellsAlong(f, sizes)[j] == f(sizes[j])
  {
    var last := |sizes| - 1;
    if j < last {
      var init := sizes[..last];
      CellsAlongAt(f, init, j);
      assert init[j] == sizes[j];
    }
  }

  /** The lookup map's cell for data size `d` and a pixel size. */
  function CellFn(lookup: map<string, TestResult>, d: int): int -> Cell {
    p => CellIn(lookup, CellKey(d, p))
  }

  /** The row of data size `d` as the lookup map gives it. */
  function RowIn(lookup: map<string, TestResult>, d: int, pixelSizes: seq<int>): (row: seq<Cell>)
    ensures |row| == |pixelSizes|
  {
    CellsAlong(CellFn(lookup, d), pixelSizes)
  }

  lemma RowInStep(lookup: map<string, TestResult>, d: int, pixelSizes: seq<int>, j: nat)
    requires j < |pixelSizes|
    ensures RowIn(lookup, d, pixelSizes[..j + 1])
            == RowIn(lookup, d, pixelSizes[..j]) + [CellIn(lookup, CellKey(d, pixelSizes[j]))]
  {
    CellsAlongStep(CellFn(lookup, d), pixelSizes, j);
  }

  /** Cell `j` of the row is the lookup map's cell for pixel size `j`. */
  lemma RowInMeaning(lookup: map<string, TestResult>, d: int, pixelSizes: seq<int>, j: nat)
    requires j < |pixelSizes|
    ensures RowIn(lookup, d, pixelSizes)[j] == CellIn(lookup, CellKey(d, pixelSizes[j]))
  {
    CellsAlongAt(CellFn(lookup, d), pixelSizes, j);
  }

  /** Cells read from the lookup map are the cells of the matrix. */
  lemma CellsFromLookup(rs: seq<TestResult>, lookup: map<string, TestResult>, dataSizes: seq<int>,
                        pixelSizes: seq<int>, cells: seq<seq<Cell>>)
    requires lookup == Lookup(rs)
    requires |cells| == |dataSizes|
    requires forall i :: 0 <= i < |cells| ==> cells[i] == RowIn(lookup, dataSizes[i], pixelSizes)
    ensures forall i :: 0 <= i < |cells| ==> |cells[i]| == |pixelSizes|
    ensures forall i, j :: 0 <= i < |cells| && 0 <= j < |pixelSizes| ==>
              cells[i][j] == CellOf(rs, dataSizes[i], pixelSizes[j])
  {
    forall i | 0 <= i < |cells| {
      RowFromLookup(rs, lookup, dataSizes[i], pixelSizes, cells[i]);
    }
  }

  /** The cell the lookup map gives for a key. */
  function CellIn(lookup: map<string, TestResult>, key: string): Cell {
    if key !in lookup then Blank else if lookup[key].error.None? then Pass else Fail
  }

  /** The lookup map gives every cell its value. */
  lemma CellFromLookup(rs: seq<TestResult>, lookup: map<string, TestResult>, d: int, p: int)
    requires lookup == Lookup(rs)
    ensures CellOf(rs, d, p) == CellIn(lookup, CellKey(d, p))
  {
    LookupMeaning(rs, d, p);
  }

  /** A row read from the lookup map is the row of the matrix. */
  lemma RowFromLookup(rs: seq<TestResult>, lookup: map<string, TestResult>, d: int, pixelSizes: seq<int>,
                      row: seq<Cell>)
    requires lookup == Lookup(rs)
    requires row == RowIn(lookup, d, pixelSizes)
    ensures |row| == |pixelSizes|
    ensures forall j :: 0 <= j < |pixelSizes| ==> row[j] == CellOf(rs, d, pixelSizes[j])
  {
    forall j | 0 <= j < |pixelSizes| ensures row[j] == CellOf(rs, d, pixelSizes[j]) {
      RowInMeaning(lookup, d, pixelSizes, j);
      CellFromLookup(rs, lookup, d, pixelSizes[j]);
    }
  }

  /** One row of the matrix. */
  method BuildRow(lookup: map<string, TestResult>, d: int, pixelSizes: seq<int>)
    returns (row: seq<Cell>)
    ensures row == RowIn(lookup, d, pixelSizes)
  {
    row := [];
    for j := 0 to |pixelSizes|
      invariant row == RowIn(lookup, d, pixelSizes[..j])
    {
      var cell := ReadCell(lookup, CellKey(d, pixelSizes[j]));
      RowInStep(lookup, d, pixelSizes, j);
      row := row + [cell];
    }
    assert pixelSizes[..|pixelSizes|] == pixelSizes;
  }

  /** One cell: blank without a result, pass or fail by the result's error. */
  method ReadCell(lookup: map<string, TestResult>, key: string) returns (cell: Cell)
    ensures cell == CellIn(lookup, key)
  {
    if key !in lookup {
      cell := Blank;
    } else if lookup[key].error.None? {
      cell := Pass;
    } else {
      cell := Fail;
    }
  }

  // ---------------------------------------------------------------------
  // Failure analysis

  /** The order of the failure lists: by data size, then by pixel size. */
  predicate SizeLe(a: TestResult, b: TestResult) {
    a.dataSize < b.dataSize || (a.dataSize == b.dataSize && a.pixelSize <= b.pixelSize)
  }

  lemma SizeLeTotal()
    ensures TotalPreorder(SizeLe)
  {
  }

  /** How one more result changes each failure list. */
  lemma FilterStep(rs: seq<TestResult>, i: nat, p: TestResult -> bool)
    requires i < |rs|
    ensures Filter(rs[..i + 1], p) == Filter(rs[..i], p) + (if p(rs[i]) then [rs[i]] else [])
  {
    assert rs[..i + 1][..i] == rs[..i];
  }

  /** The loop that sorts the failed results into one list per known kind,
      each in the order of the results. */
  method PartitionFailures(rs: seq<TestResult>)
    returns (encodeFailures: seq<TestResult>, decodeFailures: seq<TestResult>, dataMismatches: seq<TestResult>)
    ensures encodeFailures == Filter(rs, EncodeFailed())
    ensures decodeFailures == Filter(rs, DecodeFailed())
    ensures dataMismatches == Filter(rs, Mismatched())
  {
    encodeFailures, decodeFailures, dataMismatches := [], [], [];
    for i := 0 to |rs|
      invariant encodeFailures == Filter(rs[..i], EncodeFailed())
      invariant decodeFailures == Filter(rs[..i], DecodeFailed())
      invariant dataMismatches == Filter(rs[..i], Mismatched())
    {
      var result := rs[i];
      FilterStep(rs, i, EncodeFailed());
      FilterStep(rs, i, DecodeFailed());
      FilterStep(rs, i, Mismatched());
      if result.error.None? {
        continue;
      }
      if result.error.value.EncodeErr? {
        encodeFailures := encodeFailures + [result];
        continue;
      }
      if result.error.value.DecodeErr? {
        decodeFailures := decodeFailures + [result];
        continue;
      }
      if result.error.value.Mismatch? {
        dataMismatches := dataMismatches + [result];
        continue;
      }
    }
    assert rs[..|rs|] == rs;
  }

  /** The results at one pixel size, and those of them that failed. */
  function AtPixel(px: int): TestResult -> bool {
    (r: TestResult) => r.pixelSize == px
  }

  function FailedAtPixel(px: int): TestResult -> bool {
    (r: TestResult) => r.pixelSize == px && r.error.Some?
  }

  /** A count kept in a map, 0 for a missing key as in Go. */
  function CountAt(m: map<int, nat>, k: int): nat {
    if k in m then m[k] else 0
  }

  /** pixelTotal and pixelFailures after the loop has seen `rs`. */
  function PixelTotals(rs: seq<TestResult>): map<int, nat> {
    if rs == [] then map[]
    else
      var m := PixelTotals(rs[..|rs| - 1]);
      var px := rs[|rs| - 1].pixelSize;
      m[px := CountAt(m, px) + 1]
  }

  function PixelFailures(rs: seq<TestResult>): map<int, nat> {
    if rs == [] then map[]
    else
      var m := PixelFailures(rs[..|rs| - 1]);
      var r := rs[|rs| - 1];
      if r.error.Some? then m[r.pixelSize := CountAt(m, r.pixelSize) + 1] else m
  }

  /** Each pixel size is in the totals exactly when a result has it, and
      in the failures exactly when one of those failed, and the counts are
      the numbers of such results. */
  lemma {:induction false} PixelCountsMeaning(rs: seq<TestResult>, px: int)
    ensures px in PixelTotals(rs) <==> CountIf(rs, AtPixel(px)) > 0
    ensures CountAt(PixelTotals(rs), px) == CountIf(rs, AtPixel(px))
    ensures px in PixelFailures(rs) <==> CountIf(rs, FailedAtPixel(px)) > 0
    ensures CountAt(PixelFailures(rs), px) == CountIf(rs, FailedAtPixel(px))
  {
    if rs != [] {
      PixelCountsMeaning(rs[..|rs| - 1], px);
    }
  }

  /** No pixel size has more failures than results. */
  lemma PixelFailuresWithinTotals(rs: seq<TestResult>, px: int)
    ensures CountAt(PixelFailures(rs), px) <= CountAt(PixelTotals(rs), px)
  {
    PixelCountsMeaning(rs, px);
    CountIfMono(rs, FailedAtPixel(px), AtPixel(px));
  }

  /** The loop that counts results and failures per pixel size. */
  method CountPixels(rs: seq<TestResult>) returns (pixelTotal: map<int, nat>, pixelFailures: map<int, nat>)
    ensures pixelTotal == PixelTotals(rs) && pixelFailures == PixelFailures(rs)
  {
    pixelTotal, pixelFailures := map[], map[];
    for i := 0 to |rs|
      invariant pixelTotal == PixelTotals(rs[..i]) && pixelFailures == PixelFailures(rs[..i])
    {
      assert rs[..i + 1][..i] == rs[..i];
      var result := rs[i];
      pixelTotal := pixelTotal[result.pixelSize := CountAt(pixelTotal, result.pixelSize) + 1];
      if result.error.Some? {
        pixelFailures := pixelFailures[result.pixelSize := CountAt(pixelFailures, result.pixelSize) + 1];
      }
    }
    assert rs[..|rs|] == rs;
  }

  /** One line of the patterns list: a pixel size with failures. */
  datatype PixelPattern = PixelPattern(pixelSize: int, failures: nat, total: nat, rate: real)

  /** The pattern line a pixel size gets from the results. */
  function PatternOf(rs: seq<TestResult>, px: int): (p: PixelPattern)
    ensures p.pixelSize == px
    ensures p.failures <= p.total
    ensures p.total > 0 ==> 0.0 <= p.rate <= 100.0
  {
    var f := CountIf(rs, FailedAtPixel(px));
    var t := CountIf(rs, AtPixel(px));
    CountIfMono(rs, FailedAtPixel(px), AtPixel(px));
    PixelPattern(px, f, t, Percent(f, t))
  }

  /** The pixel sizes with at least one failure. */
  function HasFailureAt(rs: seq<TestResult>): int -> bool {
    px => CountIf(rs, FailedAtPixel(px)) > 0
  }

  /** The pixel size of each line or row, in their order. */
  function PixelsOf<T>(s: seq<T>, pixel: T -> int): (r: seq<int>)
    ensures |r| == |s| && forall k :: 0 <= k < |s| ==> r[k] == pixel(s[k])
  {
    seq(|s|, k requires 0 <= k < |s| => pixel(s[k]))
  }

  lemma PixelsOfSnoc<T>(s: seq<T>, pixel: T -> int, x: T)
    ensures PixelsOf(s + [x], pixel) == PixelsOf(s, pixel) + [pixel(x)]
  {
  }

  function PatternPixel(p: PixelPattern): int { p.pixelSize }

  /** The pattern lines for the pixel sizes `ps`, in their order. */
  function PatternsOver(rs: seq<TestResult>, ps: seq<int>): seq<PixelPattern> {
    if ps == [] then []
    else
      var px := ps[|ps| - 1];
      PatternsOver(rs, ps[..|ps| - 1]) + (if HasFailureAt(rs)(px) then [PatternOf(rs, px)] else [])
  }

  /** Each line is the line of its pixel size, which has a failure. */
  lemma {:induction false} PatternsOverLines(rs: seq<TestResult>, ps: seq<int>)
    ensures forall k :: 0 <= k < |PatternsOver(rs, ps)| ==>
              PatternsOver(rs, ps)[k] == PatternOf(rs, PatternsOver(rs, ps)[k].pixelSize)
              && PatternsOver(rs, ps)[k].failures > 0
  {
    if ps != [] {
      PatternsOverLines(rs, ps[..|ps| - 1]);
    }
  }

  /** The lines are those of the pixel sizes of `ps` with a failure. */
  lemma {:induction false} PatternsOverPixels(rs: seq<TestResult>, ps: seq<int>)
    ensures PixelsOf(PatternsOver(rs, ps), PatternPixel) == Filter(ps, HasFailureAt(rs))
  {
    if ps != [] {
      var px := ps[|ps| - 1];
      PatternsOverPixels(rs, ps[..|ps| - 1]);
      if HasFailureAt(rs)(px) {
        PixelsOfSnoc(PatternsOver(rs, ps[..|ps| - 1]), PatternPixel, PatternOf(rs, px));
      }
    }
  }

  /** Filtering keeps every element that passes. */
  lemma {:induction false} FilterKeeps<T>(s: seq<T>, p: T -> bool, x: T)
    requires x in s && p(x)
    ensures x in Filter(s, p)
  {
    var init := s[..|s| - 1];
    if x != s[|s| - 1] {
      assert x in init by {
        var i :| 0 <= i < |s| && s[i] == x;
        assert init[i] == x;
      }
      FilterKeeps(init, p, x);
    }
  }

  /** Filtering an increasing list leaves an increasing list. */
  lemma {:induction false} FilterIncreasing(s: seq<int>, p: int -> bool)
    requires forall i, j :: 0 <= i < j < |s| ==> s[i] < s[j]
    ensures forall i, j :: 0 <= i < j < |Filter(s, p)| ==> Filter(s, p)[i] < Filter(s, p)[j]
  {
    if s != [] {
      var init, x := s[..|s| - 1], s[|s| - 1];
      assert forall i :: 0 <= i < |init| ==> init[i] == s[i];
      FilterIncreasing(init, p);
      var f := Filter(init, p);
      forall i | 0 <= i < |f| ensures f[i] < x {
        assert f[i] in init;
      }
      var r := Filter(s, p);
      assert r == f + (if p(x) then [x] else []);
      forall i, j | 0 <= i < j < |r| ensures r[i] < r[j] {
        if j == |f| {
          assert r[j] == x && r[i] == f[i];
        } else {
          assert r[i] == f[i] && r[j] == f[j];
        }
      }
    }
  }

  /** The counts the loop leaves, for every pixel size. */
  lemma PixelCountsAll(rs: seq<TestResult>, pixelTotal: map<int, nat>, pixelFailures: map<int, nat>)
    requires pixelTotal == PixelTotals(rs) && pixelFailures == PixelFailures(rs)
    ensures forall px :: CountAt(pixelTotal, px) == CountIf(rs, AtPixel(px))
    ensures forall px :: CountAt(pixelFailures, px) == CountIf(rs, FailedAtPixel(px))
  {
    forall px
      ensures CountAt(pixelTotal, px) == CountIf(rs, AtPixel(px))
      ensures CountAt(pixelFailures, px) == CountIf(rs, FailedAtPixel(px))
    {
      PixelCountsMeaning(rs, px);
    }
  }

  /** The patterns list: one line per pixel size with at least one failure,
      in increasing pixel size, with its failures, its results and the share
      of failures. */
  method BuildPatterns(rs: seq<TestResult>) returns (patterns: seq<PixelPattern>)
    ensures forall a, b :: 0 <= a < b < |patterns| ==> patterns[a].pixelSize < patterns[b].pixelSize
    ensures forall k :: 0 <= k < |patterns| ==> patterns[k] == PatternOf(rs, patterns[k].pixelSize)
    ensures forall k :: 0 <= k < |patterns| ==> patterns[k].failures > 0
    ensures forall px :: px in PixelsOf(patterns, PatternPixel) <==> CountIf(rs, FailedAtPixel(px)) > 0
  {
    var pixelTotal, pixelFailures := CountPixels(rs);
    PixelCountsAll(rs, pixelTotal, pixelFailures);
    var pixelSizes := SortedKeys(pixelTotal.Keys);
    patterns := ListPatterns(rs, pixelTotal, pixelFailures, pixelSizes);
    PatternsOverLines(rs, pixelSizes);
    PatternsOverPixels(rs, pixelSizes);
    FilterIncreasing(pixelSizes, HasFailureAt(rs));
    forall px | CountIf(rs, FailedAtPixel(px)) > 0 ensures px in PixelsOf(patterns, PatternPixel) {
      CountIfMono(rs, FailedAtPixel(px), AtPixel(px));
      FilterKeeps(pixelSizes, HasFailureAt(rs), px);
    }
  }

  /** The loop over the sorted pixel sizes that writes the pattern lines. */
  method ListPatterns(rs: seq<TestResult>, pixelTotal: map<int, nat>, pixelFailures: map<int, nat>,
                      pixelSizes: seq<int>)
    returns (patterns: seq<PixelPattern>)
    requires forall px :: CountAt(pixelTotal, px) == CountIf(rs, AtPixel(px))
    requires forall px :: CountAt(pixelFailures, px) == CountIf(rs, FailedAtPixel(px))
    requires forall px :: px in pixelSizes ==> px in pixelTotal
    ensures patterns == PatternsOver(rs, pixelSizes)
  {
    patterns := [];
    for j := 0 to |pixelSizes|
      invariant patterns == PatternsOver(rs, pixelSizes[..j])
    {
      var px := pixelSizes[j];
      var fails := CountAt(pixelFailures, px);
      var total := pixelTotal[px];
      assert pixelSizes[..j + 1][..j] == pixelSizes[..j];
      if fails > 0 {
        var rate := Percent(fails, total);
        patterns := patterns + [PixelPattern(px, fails, total, rate)];
      }
    }
    assert pixelSizes[..|pixelSizes|] == pixelSizes;
  }

  /** What the failure analysis section reports. */
  datatype FailureAnalysis = FailureAnalysis(
    encodeFailures: seq<TestResult>,
    decodeFailures: seq<TestResult>,
    dataMismatches: seq<TestResult>,
    totalFailures: nat,
    patterns: seq<PixelPattern>,
    nonMonotonic: bool)

  /** The failure analysis: the failures of each known kind sorted by data
      size and pixel size, their number, and, only when there is at least
      one, the pattern lines and the non-monotonic flag. */
  method BuildFailureAnalysis(rs: seq<TestResult>, arrange: seq<TestResult> -> seq<TestResult>)
    returns (fa: FailureAnalysis)
    ensures SortedBy(fa.encodeFailures, SizeLe) && multiset(fa.encodeFailures) == multiset(Filter(rs, EncodeFailed()))
    ensures SortedBy(fa.decodeFailures, SizeLe) && multiset(fa.decodeFailures) == multiset(Filter(rs, DecodeFailed()))
    ensures SortedBy(fa.dataMismatches, SizeLe) && multiset(fa.dataMismatches) == multiset(Filter(rs, Mismatched()))
    ensures fa.totalFailures == CountIf(rs, EncodeFailed()) + CountIf(rs, DecodeFailed()) + CountIf(rs, Mismatched())
    ensures fa.totalFailures == 0 ==> fa.patterns == [] && !fa.nonMonotonic
    ensures fa.totalFailures > 0 ==>
              && (forall a, b :: 0 <= a < b < |fa.patterns| ==> fa.patterns[a].pixelSize < fa.patterns[b].pixelSize)
              && (forall k :: 0 <= k < |fa.patterns| ==> fa.patterns[k] == PatternOf(rs, fa.patterns[k].pixelSize))
              && (forall px :: px in PixelsOf(fa.patterns, PatternPixel) <==> CountIf(rs, FailedAtPixel(px)) > 0)
              && (fa.nonMonotonic <==> NonMonotonic(rs, arrange))
  {
    var encodeFailures, decodeFailures, dataMismatches := PartitionFailures(rs);
    var totalFailures := |encodeFailures| + |decodeFailures| + |dataMismatches|;
    SizeLeTotal();
    if totalFailures == 0 {
      fa := FailureAnalysis(encodeFailures, decodeFailures, dataMismatches, 0, [], false);
      return;
    }
    SortBySorted(encodeFailures, SizeLe);
    SortBySorted(decodeFailures, SizeLe);
    SortBySorted(dataMismatches, SizeLe);
    encodeFailures := SortBy(encodeFailures, SizeLe);
    decodeFailures := SortBy(decodeFailures, SizeLe);
    dataMismatches := SortBy(dataMismatches, SizeLe);
    var patterns := BuildPatterns(rs);
    var nonMonotonic := HasNonMonotonicFailures(rs, arrange);
    fa := FailureAnalysis(encodeFailures, decodeFailures, dataMismatches, totalFailures, patterns, nonMonotonic);
  }

  // ---------------------------------------------------------------------
  // Non-monotonic failures

  function DataSizeIs(d: int): TestResult -> bool {
    (r: TestResult) => r.dataSize == d
  }

  /** A group kept in a map, empty for a missing key as in Go. */
  function GroupAt(m: map<int, seq<TestResult>>, d: int): seq<TestResult> {
    if d in m then m[d] else []
  }

  /** byDataSize after the loop has seen `rs`. */
  function Groups(rs: seq<TestResult>): map<int, seq<TestResult>> {
    if rs == [] then map[]
    else
      var m := Groups(rs[..|rs| - 1]);
      var r := rs[|rs| - 1];
      m[r.dataSize := GroupAt(m, r.dataSize) + [r]]
  }

  /** A data size has a group exactly when a result has it, and the group
      holds those results in their order. */
  lemma {:induction false} GroupsMeaning(rs: seq<TestResult>, d: int)
    ensures d in Groups(rs) <==> CountIf(rs, DataSizeIs(d)) > 0
    ensures GroupAt(Groups(rs), d) == Filter(rs, DataSizeIs(d))
  {
    if rs != [] {
      GroupsMeaning(rs[..|rs| - 1], d);
    }
  }

  /** The loop that groups the results by data size. */
  method GroupByDataSize(rs: seq<TestResult>) returns (byDataSize: map<int, seq<TestResult>>)
    ensures byDataSize == Groups(rs)
  {
    byDataSize := map[];
    for i := 0 to |rs|
      invariant byDataSize == Groups(rs[..i])
    {
      assert rs[..i + 1][..i] == rs[..i];
      byDataSize := byDataSize[rs[i].dataSize := GroupAt(byDataSize, rs[i].dataSize) + [rs[i]]];
    }
    assert rs[..|rs|] == rs;
  }

  /** The order a group is scanned in. */
  predicate PixelLe(a: TestResult, b: TestResult) {
    a.pixelSize <= b.pixelSize
  }

  /** A failure between two neighbours without an error. */
  predicate DipAt(g: seq<TestResult>, i: int)
    requires 1 <= i < |g| - 1
  {
    g[i - 1].error.None? && g[i].error.Some? && g[i + 1].error.None?
  }

  predicate HasDip(g: seq<TestResult>) {
    exists i :: 1 <= i < |g| - 1 && DipAt(g, i)
  }

  lemma PixelLeTotal()
    ensures TotalPreorder(PixelLe)
  {
  }

  /** sort.Slice by pixel size, as `arrange` stands for it: every group
      comes back sorted by pixel size and as a permutation of itself; the
      order of results with the same pixel size is left open, as sort.Slice
      is not stable. */
  ghost predicate PixelSorts(arrange: seq<TestResult> -> seq<TestResult>) {
    forall g :: SortedBy(arrange(g), PixelLe) && multiset(arrange(g)) == multiset(g)
  }

  /** The stable sort is one such arrangement. */
  lemma StableSortPixelSorts()
    ensures PixelSorts(g => SortBy(g, PixelLe))
  {
    PixelLeTotal();
    forall g: seq<TestResult> ensures SortedBy(SortBy(g, PixelLe), PixelLe) {
      SortBySorted(g, PixelLe);
    }
  }

  /** The reference definition: some data size that has results, and
      whose results, as `arrange` orders them, have a failure between two
      passes. */
  ghost predicate NonMonotonic(rs: seq<TestResult>, arrange: seq<TestResult> -> seq<TestResult>) {
    exists d :: CountIf(rs, DataSizeIs(d)) > 0 && HasDip(arrange(Filter(rs, DataSizeIs(d))))
  }

  /** Ties decide the answer: two orders of one group, both sorted by pixel
      size and permutations of each other, the first with a dip and the
      second without, so the source's answer depends on how sort.Slice
      orders equal pixel sizes. */
  lemma TiesDecideDip(a: TestResult, b: TestResult, c: TestResult)
    requires a.pixelSize < b.pixelSize == c.pixelSize
    requires a.error.None? && b.error.Some? && c.error.None?
    ensures SortedBy([a, b, c], PixelLe) && SortedBy([a, c, b], PixelLe)
    ensures multiset([a, b, c]) == multiset([a, c, b])
    ensures HasDip([a, b, c]) && !HasDip([a, c, b])
  {
    assert DipAt([a, b, c], 1);
  }

  /** The scan of one sorted group. */
  method ScanForDip(group: seq<TestResult>) returns (found: bool)
    ensures found <==> HasDip(group)
  {
    var i := 1;
    while i < |group| - 1
      invariant 1 <= i
      invariant forall k :: 1 <= k < i && k < |group| - 1 ==> !DipAt(group, k)
    {
      var prevSuccess := group[i - 1].error.None?;
      var currFail := group[i].error.Some?;
      var nextSuccess := group[i + 1].error.None?;
      if prevSuccess && currFail && nextSuccess {
        assert DipAt(group, i);
        return true;
      }
      i := i + 1;
    }
    return false;
  }

  /** Some group of the map, as `arrange` orders it, has a dip. */
  ghost predicate SomeGroupDips(byDataSize: map<int, seq<TestResult>>, arrange: seq<TestResult> -> seq<TestResult>) {
    exists d :: d in byDataSize && GroupDips(byDataSize, d, arrange)
  }

  predicate GroupDips(byDataSize: map<int, seq<TestResult>>, d: int, arrange: seq<TestResult> -> seq<TestResult>)
    requires d in byDataSize
  {
    HasDip(arrange(byDataSize[d]))
  }

  /** Scanning the grouping of the results is scanning every data size. */
  lemma GroupsDip(rs: seq<TestResult>, byDataSize: map<int, seq<TestResult>>, arrange: seq<TestResult> -> seq<TestResult>)
    requires byDataSize == Groups(rs)
    ensures SomeGroupDips(byDataSize, arrange) <==> NonMonotonic(rs, arrange)
  {
    if SomeGroupDips(byDataSize, arrange) {
      var d :| d in byDataSize && GroupDips(byDataSize, d, arrange);
      GroupsMeaning(rs, d);
      assert CountIf(rs, DataSizeIs(d)) > 0 && HasDip(arrange(Filter(rs, DataSizeIs(d))));
    }
    if NonMonotonic(rs, arrange) {
      var d :| CountIf(rs, DataSizeIs(d)) > 0 && HasDip(arrange(Filter(rs, DataSizeIs(d))));
      GroupsMeaning(rs, d);
      assert d in byDataSize && GroupDips(byDataSize, d, arrange);
    }
  }

  /** The loop over the groups, in the map's arbitrary order, each group
      put in order by `arrange`. */
  method ScanGroups(byDataSize: map<int, seq<TestResult>>, arrange: seq<TestResult> -> seq<TestResult>)
    returns (found: bool)
    ensures found <==> SomeGroupDips(byDataSize, arrange)
  {
    var keys := MapKeys(byDataSize.Keys);
    for j := 0 to |keys|
      invariant forall k :: 0 <= k < j ==> !GroupDips(byDataSize, keys[k], arrange)
    {
      var group := arrange(byDataSize[keys[j]]);
      var dip := ScanForDip(group);
      if dip {
        assert GroupDips(byDataSize, keys[j], arrange);
        return true;
      }
    }
    forall d | d in byDataSize ensures !GroupDips(byDataSize, d, arrange) {
      var k :| 0 <= k < |keys| && keys[k] == d;
    }
    return false;
  }

  /** hasNonMonotonicFailures, with `arrange` for its sort.Slice: true
      exactly for the reference definition under that arrangement, whatever
      order the groups are visited in. */
  method HasNonMonotonicFailures(rs: seq<TestResult>, arrange: seq<TestResult> -> seq<TestResult>)
    returns (found: bool)
    ensures found <==> NonMonotonic(rs, arrange)
  {
    var byDataSize := GroupByDataSize(rs);
    found := ScanGroups(byDataSize, arrange);
    GroupsDip(rs, byDataSize, arrange);
  }

  /** Without errors there is nothing non-monotonic, however ties are
      ordered. */
  lemma NoErrorsMonotonic(rs: seq<TestResult>, arrange: seq<TestResult> -> seq<TestResult>)
    requires PixelSorts(arrange)
    requires forall i :: 0 <= i < |rs| ==> rs[i].error.None?
    ensures !NonMonotonic(rs, arrange)
  {
    forall d ensures !HasDip(arrange(Filter(rs, DataSizeIs(d)))) {
      var g := Filter(rs, DataSizeIs(d));
      var sorted := arrange(g);
      SameElements(sorted, g);
      forall k | 0 <= k < |sorted| ensures sorted[k].error.None? {
        assert sorted[k] in g;
      }
    }
  }

  /** A data size needs at least three results to show a dip, however ties
      are ordered. */
  lemma SmallGroupsMonotonic(rs: seq<TestResult>, arrange: seq<TestResult> -> seq<TestResult>)
    requires PixelSorts(arrange)
    requires forall d :: CountIf(rs, DataSizeIs(d)) < 3
    ensures !NonMonotonic(rs, arrange)
  {
    forall d ensures !HasDip(arrange(Filter(rs, DataSizeIs(d)))) {
      var g := Filter(rs, DataSizeIs(d));
      assert |arrange(g)| == |multiset(arrange(g))| == |multiset(g)| == |g|;
      assert |g| < 3;
    }
  }

  // ---------------------------------------------------------------------
  // Module size analysis

  /** What the loop keeps per pixel size: the module size and the
      fractional flag of the last result seen, and whether any failed or
      passed. */
  datatype PixelInfo = PixelInfo(modulePixelSize: real, isFractional: bool, hasFailure: bool, hasSuccess: bool)

  /** Go's zero value for a missing entry. */
  const NoInfo := PixelInfo(0.0, false, false, false)

  function InfoAt(m: map<int, PixelInfo>, px: int): PixelInfo {
    if px in m then m[px] else NoInfo
  }

  function InfoStep(info: PixelInfo, r: TestResult): PixelInfo {
    PixelInfo(r.modulePixelSize, r.isFractionalModule,
              info.hasFailure || r.error.Some?, info.hasSuccess || r.error.None?)
  }

  /** pixelInfo after the loop has seen `rs`; results without a detected
      version are skipped. */
  function InfoOf(rs: seq<TestResult>): map<int, PixelInfo> {
    if rs == [] then map[]
    else
      var m := InfoOf(rs[..|rs| - 1]);
      var r := rs[|rs| - 1];
      if r.qrVersion <= 0 then m else m[r.pixelSize := InfoStep(InfoAt(m, r.pixelSize), r)]
  }

  /** Results with a detected version at a pixel size, and those of them
      that failed or passed. */
  function Probed(px: int): TestResult -> bool {
    (r: TestResult) => r.qrVersion > 0 && r.pixelSize == px
  }

  function ProbedFailed(px: int): TestResult -> bool {
    (r: TestResult) => r.qrVersion > 0 && r.pixelSize == px && r.error.Some?
  }

  function ProbedPassed(px: int): TestResult -> bool {
    (r: TestResult) => r.qrVersion > 0 && r.pixelSize == px && r.error.None?
  }

  /** A pixel size has an entry exactly when a result with a detected
      version has it; the flags say whether one of those failed or passed;
      the module size and the fractional flag are those of the last. */
  lemma {:induction false} InfoOfMeaning(rs: seq<TestResult>, px: int)
    ensures px in InfoOf(rs) <==> CountIf(rs, Probed(px)) > 0
    ensures InfoAt(InfoOf(rs), px).hasFailure <==> CountIf(rs, ProbedFailed(px)) > 0
    ensures InfoAt(InfoOf(rs), px).hasSuccess <==> CountIf(rs, ProbedPassed(px)) > 0
    ensures px in InfoOf(rs) ==>
              && LastWhere(rs, Probed(px)).Some?
              && InfoOf(rs)[px].modulePixelSize == LastWhere(rs, Probed(px)).value.modulePixelSize
              && InfoOf(rs)[px].isFractional == LastWhere(rs, Probed(px)).value.isFractionalModule
  {
    if rs != [] {
      InfoOfMeaning(rs[..|rs| - 1], px);
    }
  }

  /** The status column. */
  datatype Status = Mixed | Problematic | Working | NoStatus

  function StatusOf(info: PixelInfo): Status {
    if info.hasFailure && info.hasSuccess then Mixed
    else if info.hasFailure then Problematic
    else if info.hasSuccess then Working
    else NoStatus
  }

  /** A listed pixel size is Mixed when its results with a detected version
      both failed and passed, Problematic when they only failed, Working
      when they only passed, and never without a status. */
  lemma StatusMeaning(rs: seq<TestResult>, px: int)
    requires px in InfoOf(rs)
    ensures var st, failed, passed := StatusOf(InfoOf(rs)[px]), CountIf(rs, ProbedFailed(px)), CountIf(rs, ProbedPassed(px));
            && (st == Mixed <==> failed > 0 && passed > 0)
            && (st == Problematic <==> failed > 0 && passed == 0)
            && (st == Working <==> failed == 0 && passed > 0)
            && st != NoStatus
  {
    InfoOfMeaning(rs, px);
    CountIfUnion(rs, ProbedFailed(px), ProbedPassed(px));
    CountIfExt(rs, Or(ProbedFailed(px), ProbedPassed(px)), Probed(px));
  }

  /** The loop that collects the per-pixel information. */
  method CollectPixelInfo(rs: seq<TestResult>) returns (pixelInfo: map<int, PixelInfo>)
    ensures pixelInfo == InfoOf(rs)
  {
    pixelInfo := map[];
    for i := 0 to |rs|
      invariant pixelInfo == InfoOf(rs[..i])
    {
      assert rs[..i + 1][..i] == rs[..i];
      var result := rs[i];
      if result.qrVersion <= 0 {
        continue;
      }
      var info := InfoAt(pixelInfo, result.pixelSize);
      info := info.(modulePixelSize := result.modulePixelSize, isFractional := result.isFractionalModule);
      if result.error.None? {
        info := info.(hasSuccess := true);
      } else {
        info := info.(hasFailure := true);
      }
      pixelInfo := pixelInfo[result.pixelSize := info];
    }
    assert rs[..|rs|] == rs;
  }

  /** One row of the module size table. */
  datatype ModuleRow = ModuleRow(pixelSize: int, modulePixelSize: real, isFractional: bool, status: Status)

  function RowOf(pixelInfo: map<int, PixelInfo>, px: int): ModuleRow {
    var info := InfoAt(pixelInfo, px);
    ModuleRow(px, info.modulePixelSize, info.isFractional, StatusOf(info))
  }

  /** The rows for the pixel sizes `ps`, in their order. */
  function RowsOver(pixelInfo: map<int, PixelInfo>, ps: seq<int>): (rows: seq<ModuleRow>)
    ensures |rows| == |ps|
  {
    if ps == [] then [] else RowsOver(pixelInfo, ps[..|ps| - 1]) + [RowOf(pixelInfo, ps[|ps| - 1])]
  }

  lemma {:induction false} RowsOverMeaning(pixelInfo: map<int, PixelInfo>, ps: seq<int>)
    ensures forall k :: 0 <= k < |ps| ==> RowsOver(pixelInfo, ps)[k] == RowOf(pixelInfo, ps[k])
  {
    if ps != [] {
      var init := ps[..|ps| - 1];
      RowsOverMeaning(pixelInfo, init);
      assert forall k :: 0 <= k < |init| ==> init[k] == ps[k];
    }
  }

  function FractionalRow(): ModuleRow -> bool {
    (row: ModuleRow) => row.isFractional
  }

  /** The closing note: all sizes fractional, some, or none. */
  datatype Note = AllFractional | SomeFractional(count: nat, of: nat) | NoNote

  function NoteOf(fractionalCount: nat, sizes: nat): (n: Note)
    ensures fractionalCount == 0 && sizes > 0 ==> n == NoNote
    ensures 0 < fractionalCount < sizes ==> n == SomeFractional(fractionalCount, sizes)
    ensures fractionalCount == sizes ==> n == AllFractional
  {
    if fractionalCount == sizes then AllFractional
    else if fractionalCount > 0 then SomeFractional(fractionalCount, sizes)
    else NoNote
  }

  /** The loop over the sorted pixel sizes that writes the table. */
  method ListRows(pixelInfo: map<int, PixelInfo>, pixelSizes: seq<int>)
    returns (rows: seq<ModuleRow>, fractionalCount: nat)
    requires forall px :: px in pixelSizes ==> px in pixelInfo
    ensures rows == RowsOver(pixelInfo, pixelSizes)
    ensures fractionalCount == CountIf(rows, FractionalRow())
  {
    rows, fractionalCount := [], 0;
    for j := 0 to |pixelSizes|
      invariant rows == RowsOver(pixelInfo, pixelSizes[..j])
      invariant fractionalCount == CountIf(rows, FractionalRow())
    {
      var px := pixelSizes[j];
      var info := pixelInfo[px];
      assert pixelSizes[..j + 1][..j] == pixelSizes[..j];
      if info.isFractional {
        fractionalCount := fractionalCount + 1;
      }
      var status := NoStatus;
      if info.hasFailure && info.hasSuccess {
        status := Mixed;
      } else if info.hasFailure {
        status := Problematic;
      } else if info.hasSuccess {
        status := Working;
      }
      var row := ModuleRow(px, info.modulePixelSize, info.isFractional, status);
      assert (rows + [row])[..|rows|] == rows;
      rows := rows + [row];
    }
    assert pixelSizes[..|pixelSizes|] == pixelSizes;
  }

  /** What the module size section reports. */
  datatype ModuleInfo = ModuleInfo(available: bool, rows: seq<ModuleRow>, fractionalCount: nat, note: Note)

  function RowPixel(row: ModuleRow): int { row.pixelSize }

  /** buildModuleInfo: available exactly when some result has a detected
      version; then one row per pixel size with such a result, in increasing
      order, each from the collected information, the number of fractional
      rows and the note that follows from it. */
  method BuildModuleInfo(rs: seq<TestResult>) returns (mi: ModuleInfo)
    ensures mi.available <==> exists i :: 0 <= i < |rs| && rs[i].qrVersion > 0
    ensures !mi.available ==> mi.rows == [] && mi.fractionalCount == 0 && mi.note == NoNote
    ensures mi.available ==>
              && (forall a, b :: 0 <= a < b < |mi.rows| ==> mi.rows[a].pixelSize < mi.rows[b].pixelSize)
              && (forall px :: px in PixelsOf(mi.rows, RowPixel) <==> CountIf(rs, Probed(px)) > 0)
              && (forall k :: 0 <= k < |mi.rows| ==> mi.rows[k] == RowOf(InfoOf(rs), mi.rows[k].pixelSize))
              && mi.fractionalCount == CountIf(mi.rows, FractionalRow())
              && mi.note == NoteOf(mi.fractionalCount, |mi.rows|)
  {
    var hasModuleInfo := false;
    var i := 0;
    while i < |rs|
      invariant 0 <= i <= |rs|
      invariant forall k :: 0 <= k < i ==> rs[k].qrVersion <= 0
    {
      if rs[i].qrVersion > 0 {
        hasModuleInfo := true;
        break;
      }
      i := i + 1;
    }
    if !hasModuleInfo {
      mi := ModuleInfo(false, [], 0, NoNote);
      return;
    }
    var rows, fractionalCount, note := ModuleTable(rs);
    mi := ModuleInfo(true, rows, fractionalCount, note);
  }

  /** The table, the fractional count and the note of the module size
      section. */
  method ModuleTable(rs: seq<TestResult>) returns (rows: seq<ModuleRow>, fractionalCount: nat, note: Note)
    ensures forall a, b :: 0 <= a < b < |rows| ==> rows[a].pixelSize < rows[b].pixelSize
    ensures forall px :: px in PixelsOf(rows, RowPixel) <==> CountIf(rs, Probed(px)) > 0
    ensures forall k :: 0 <= k < |rows| ==> rows[k] == RowOf(InfoOf(rs), rows[k].pixelSize)
    ensures fractionalCount == CountIf(rows, FractionalRow())
    ensures note == NoteOf(fractionalCount, |rows|)
  {
    var pixelInfo := CollectPixelInfo(rs);
    var pixelSizes := SortedKeys(pixelInfo.Keys);
    rows, fractionalCount := ListRows(pixelInfo, pixelSizes);
    RowsOverMeaning(pixelInfo, pixelSizes);
    ProbedPixels(rs, pixelInfo);
    assert PixelsOf(rows, RowPixel) == pixelSizes;
    note := NoNote;
    if fractionalCount == |pixelSizes| {
      note := AllFractional;
    } else if fractionalCount > 0 {
      note := SomeFractional(fractionalCount, |pixelSizes|);
    }
  }

  /** The pixel sizes of the collected information. */
  lemma ProbedPixels(rs: seq<TestResult>, pixelInfo: map<int, PixelInfo>)
    requires pixelInfo == InfoOf(rs)
    ensures forall px :: px in pixelInfo <==> CountIf(rs, Probed(px)) > 0
  {
    forall px ensures px in pixelInfo <==> CountIf(rs, Probed(px)) > 0 {
      InfoOfMeaning(rs, px);
    }
  }
}

/** The site generator's input: the records it reads back from the per-encoder
    JSON files, first-occurrence deduplication of those records, and the
    counting shared by all of its statistics. */
module SiteData {
  import opened Common
  import opened Decimal
  import Corpus
  import JsonReport
  import Matrix

  /** A record as the site generator reads it. Unlike the record the JSON
      report writes, it has a capacity flag. */
  datatype Record = Record(
    encoder: string,
    decoder: string,
    dataSize: int,
    pixelSize: int,
    contentType: string,
    success: bool,
    errorType: string,
    errorMsg: string,
    isCapacityExceeded: bool,
    encodeTimeMs: real,
    decodeTimeMs: real,
    qrVersion: int,
    moduleCount: int,
    modulePixelSize: real,
    isFractionalModule: bool)

  /** A JSON record decoded into a site record: the fields the file has are
      taken over; the capacity flag, absent from the file, reads as false. */
  function ReadBack(raw: JsonReport.RawTestResult): (r: Record)
    ensures !r.isCapacityExceeded
  {
    Record(raw.encoder, raw.decoder, raw.dataSize, raw.pixelSize, raw.contentType,
           raw.success, raw.errorType, raw.errorMsg, false,
           raw.encodeTimeMs, raw.decodeTimeMs, raw.qrVersion, raw.moduleCount,
           raw.modulePixelSize, raw.isFractionalModule)
  }

  /** The record the JSON report would write for a site record. */
  function WriteOut(r: Record): (raw: JsonReport.RawTestResult)
  {
    JsonReport.RawTestResult(r.encoder, r.decoder, r.dataSize, r.pixelSize, r.contentType,
                             r.success, r.errorType, r.errorMsg,
                             r.encodeTimeMs, r.decodeTimeMs, r.qrVersion, r.moduleCount,
                             r.modulePixelSize, r.isFractionalModule)
  }

  /** Reading back loses nothing the file holds, and writing out loses
      exactly the capacity flag. */
  lemma ReadBackRoundTrip(raw: JsonReport.RawTestResult, r: Record)
    ensures WriteOut(ReadBack(raw)) == raw
    ensures ReadBack(WriteOut(r)) == r.(isCapacityExceeded := false)
  {
  }

  /** A result that the runner flagged as a capacity error reaches the site
      as an ordinary failed record: the flag is lost on the way. */
  lemma CapacityFlagLost(t: Matrix.TestResult, errorText: Matrix.TestError -> string)
    requires t.isCapacityExceeded && t.error.Some? && t.error.value.EncodeErr?
    ensures var r := ReadBack(JsonReport.ConvertResult(t, errorText));
            !r.isCapacityExceeded && !r.success && r.errorType == "encode"
  {
  }

  // ---------------------------------------------------------------------
  // Deduplication

  /** Two strings joined by '|'. */
  function Bar(a: string, b: string): string {
    a + ("|" + b)
  }

  /** The identity of a test: encoder, decoder, both sizes and the content
      type, joined by '|'. */
  function DedupKey(r: Record): string {
    Bar(r.encoder, Bar(r.decoder, Bar(DecimalString(r.dataSize), Bar(DecimalString(r.pixelSize), r.contentType))))
  }

  predicate NoBar(s: string) {
    forall i :: 0 <= i < |s| ==> s[i] != '|'
  }

  lemma DecimalNoBar(n: int)
    ensures NoBar(DecimalString(n))
  {
    var s := DecimalString(n);
    if n < 0 {
      forall i | 0 <= i < |s| ensures s[i] != '|' {
        if i > 0 {
          assert s[i] == s[1..][i - 1];
        }
      }
    }
  }

  /** Two joins whose first parts hold no '|' are the same join. */
  lemma BarInjective(a1: string, b1: string, a2: string, b2: string)
    requires NoBar(a1) && NoBar(a2) && Bar(a1, b1) == Bar(a2, b2)
    ensures a1 == a2 && b1 == b2
  {
    SplitAtBarJoin(a1, b1);
    SplitAtBarJoin(a2, b2);
  }

  /** With no '|' in the encoder and decoder names, the key determines the
      five fields it is made of. (The content type may hold '|': it is
      last.) */
  lemma DedupKeyInjective(a: Record, b: Record)
    requires NoBar(a.encoder) && NoBar(a.decoder) && NoBar(b.encoder) && NoBar(b.decoder)
    requires DedupKey(a) == DedupKey(b)
    ensures a.encoder == b.encoder && a.decoder == b.decoder
    ensures a.dataSize == b.dataSize && a.pixelSize == b.pixelSize
    ensures a.contentType == b.contentType
  {
    var da, db := DecimalString(a.dataSize), DecimalString(b.dataSize);
    var pa, pb := DecimalString(a.pixelSize), DecimalString(b.pixelSize);
    DecimalNoBar(a.dataSize);
    DecimalNoBar(b.dataSize);
    DecimalNoBar(a.pixelSize);
    DecimalNoBar(b.pixelSize);
    BarInjective(a.encoder, Bar(a.decoder, Bar(da, Bar(pa, a.contentType))),
                 b.encoder, Bar(b.decoder, Bar(db, Bar(pb, b.contentType))));
    BarInjective(a.decoder, Bar(da, Bar(pa, a.contentType)), b.decoder, Bar(db, Bar(pb, b.contentType)));
    BarInjective(da, Bar(pa, a.contentType), db, Bar(pb, b.contentType));
    BarInjective(pa, a.contentType, pb, b.contentType);
    DecimalStringInjective(a.dataSize, b.dataSize);
    DecimalStringInjective(a.pixelSize, b.pixelSize);
  }

  /** The keys of the records. */
  function KeysOf(rs: seq<Record>, key: Record -> string): set<string> {
    set i | 0 <= i < |rs| :: key(rs[i])
  }

  /** What the deduplication loop keeps: each record whose key no earlier
      record had. */
  function Unique(rs: seq<Record>, key: Record -> string): seq<Record> {
    if rs == [] then []
    else
      var init := rs[..|rs| - 1];
      if key(rs[|rs| - 1]) in KeysOf(init, key) then Unique(init, key) else Unique(init, key) + [rs[|rs| - 1]]
  }

  lemma KeysOfSnoc(rs: seq<Record>, key: Record -> string)
    requires rs != []
    ensures KeysOf(rs, key) == KeysOf(rs[..|rs| - 1], key) + {key(rs[|rs| - 1])}
  {
    var init := rs[..|rs| - 1];
    forall k | k in KeysOf(rs, key) ensures k in KeysOf(init, key) + {key(rs[|rs| - 1])} {
      var i :| 0 <= i < |rs| && key(rs[i]) == k;
      if i < |init| {
        assert init[i] == rs[i];
      }
    }
    forall k | k in KeysOf(init, key) ensures k in KeysOf(rs, key) {
      var i :| 0 <= i < |init| && key(init[i]) == k;
      assert rs[i] == init[i];
    }
  }

  /** The kept records have pairwise different keys, and between them every
      key of the input. */
  lemma {:induction false} UniqueKeys(rs: seq<Record>, key: Record -> string)
    ensures KeysOf(Unique(rs, key), key) == KeysOf(rs, key)
    ensures forall i, j :: 0 <= i < j < |Unique(rs, key)| ==> key(Unique(rs, key)[i]) != key(Unique(rs, key)[j])
  {
    if rs != [] {
      var init := rs[..|rs| - 1];
      var x := rs[|rs| - 1];
      UniqueKeys(init, key);
      KeysOfSnoc(rs, key);
      var u := Unique(init, key);
      if key(x) !in KeysOf(init, key) {
        KeysOfSnoc(u + [x], key);
        assert (u + [x])[..|u|] == u;
        forall i | 0 <= i < |u| ensures key((u + [x])[i]) != key(x) {
          assert key(u[i]) in KeysOf(u, key);
        }
      }
    }
  }

  /** Every kept record is an input record. */
  lemma {:induction false} UniqueFromInput(rs: seq<Record>, key: Record -> string)
    ensures forall x :: x in Unique(rs, key) ==> x in rs
  {
    if rs != [] {
      var init := rs[..|rs| - 1];
      UniqueFromInput(init, key);
      assert forall x :: x in init ==> x in rs;
    }
  }

  /** The first record with a given key is kept. */
  lemma {:induction false} UniqueKeepsFirst(rs: seq<Record>, key: Record -> string, i: nat)
    requires i < |rs|
    requires forall j :: 0 <= j < i ==> key(rs[j]) != key(rs[i])
    ensures rs[i] in Unique(rs, key)
  {
    var init := rs[..|rs| - 1];
    assert forall j :: 0 <= j < |init| ==> init[j] == rs[j];
    if i < |rs| - 1 {
      UniqueKeepsFirst(init, key, i);
    }
  }

  /** Order is kept: what is kept from a prefix of the input comes first,
      in the same order. */
  lemma {:induction false} UniquePrefix(rs: seq<Record>, key: Record -> string, n: nat)
    requires n <= |rs|
    ensures |Unique(rs[..n], key)| <= |Unique(rs, key)|
    ensures Unique(rs, key)[..|Unique(rs[..n], key)|] == Unique(rs[..n], key)
    decreases |rs| - n
  {
    if n == |rs| {
      assert rs[..n] == rs;
    } else {
      var init := rs[..|rs| - 1];
      assert init[..n] == rs[..n];
      UniquePrefix(init, key, n);
    }
  }

  /** Input whose keys are already distinct is kept whole; in particular
      deduplicating twice is deduplicating once. */
  lemma {:induction false} UniqueOfDistinct(rs: seq<Record>, key: Record -> string)
    requires forall i, j :: 0 <= i < j < |rs| ==> key(rs[i]) != key(rs[j])
    ensures Unique(rs, key) == rs
  {
    if rs != [] {
      var init := rs[..|rs| - 1];
      assert forall j :: 0 <= j < |init| ==> init[j] == rs[j];
      UniqueOfDistinct(init, key);
      assert init + [rs[|rs| - 1]] == rs;
    }
  }

  lemma UniqueIdempotent(rs: seq<Record>, key: Record -> string)
    ensures Unique(Unique(rs, key), key) == Unique(rs, key)
  {
    UniqueKeys(rs, key);
    UniqueOfDistinct(Unique(rs, key), key);
  }

  /** One more record: its key joins the seen keys, and the record is kept
      exactly when its key is new. */
  lemma UniqueStep(rs: seq<Record>, i: nat, key: Record -> string)
    requires i < |rs|
    ensures KeysOf(rs[..i + 1], key) == KeysOf(rs[..i], key) + {key(rs[i])}
    ensures Unique(rs[..i + 1], key) ==
              if key(rs[i]) in KeysOf(rs[..i], key) then Unique(rs[..i], key) else Unique(rs[..i], key) + [rs[i]]
  {
    assert rs[..i + 1][..i] == rs[..i];
    KeysOfSnoc(rs[..i + 1], key);
  }

  /** The deduplication loop of loadAllResults, with its set of seen keys. */
  method Dedup(all: seq<Record>) returns (unique: seq<Record>)
    ensures unique == Unique(all, DedupKey)
  {
    var seen: set<string> := {};
    unique := [];
    for i := 0 to |all|
      invariant seen == KeysOf(all[..i], DedupKey)
      invariant unique == Unique(all[..i], DedupKey)
    {
      var r := all[i];
      var key := DedupKey(r);
      UniqueStep(all, i, DedupKey);
      if key !in seen {
        seen := seen + {key};
        unique := unique + [r];
      }
    }
    assert all[..|all|] == all;
  }

  // ---------------------------------------------------------------------
  // Combination keys

  /** A key cut at its first '|'; a key without one is the first part, with
      an empty second part. */
  function SplitAtBar(key: string): (parts: seq<string>)
    ensures |parts| == 2 && NoBar(parts[0])
    ensures NoBar(key) ==> parts == [key, ""]
    ensures !NoBar(key) ==> key == Bar(parts[0], parts[1])
  {
    if key == [] then ["", ""]
    else if key[0] == '|' then
      assert key == Bar([], key[1..]);
      ["", key[1..]]
    else
      var rest := SplitAtBar(key[1..]);
      assert NoBar(key) ==> NoBar(key[1..]) by {
        if NoBar(key) {
          forall i | 0 <= i < |key[1..]| ensures key[1..][i] != '|' {
            assert key[1..][i] == key[i + 1];
          }
        }
      }
      assert !NoBar(key) ==> !NoBar(key[1..]) by {
        if !NoBar(key) {
          var i :| 0 <= i < |key| && key[i] == '|';
          assert key[1..][i - 1] == key[i];
        }
      }
      assert NoBar([key[0]] + rest[0]) by {
        forall i | 0 <= i < |[key[0]] + rest[0]| ensures ([key[0]] + rest[0])[i] != '|' {
          if i > 0 {
            assert ([key[0]] + rest[0])[i] == rest[0][i - 1];
          }
        }
      }
      assert key == [key[0]] + key[1..];
      assert !NoBar(key) ==> key == Bar([key[0]] + rest[0], rest[1]) by {
        if !NoBar(key) {
          assert key[1..] == rest[0] + ("|" + rest[1]);
          assert [key[0]] + (rest[0] + ("|" + rest[1])) == ([key[0]] + rest[0]) + ("|" + rest[1]);
        }
      }
      [[key[0]] + rest[0], rest[1]]
  }

  /** A key built from a name without '|' splits back into its two names. */
  lemma SplitAtBarJoin(a: string, b: string)
    requires NoBar(a)
    ensures SplitAtBar(Bar(a, b)) == [a, b]
  {
    var parts := SplitAtBar(Bar(a, b));
    assert Bar(a, b)[|a|] == '|';
    Corpus.SplitAtStop(parts[0], "|" + parts[1], a, "|" + b, c => c == '|');
    Corpus.CancelPrefix("|", parts[1], b);
  }

  /** splitKey: scan for the first '|'. */
  method SplitKey(key: string) returns (parts: seq<string>)
    ensures parts == SplitAtBar(key)
  {
    for i := 0 to |key|
      invariant NoBar(key[..i])
    {
      if key[i] == '|' {
        assert key == Bar(key[..i], key[i + 1..]);
        SplitAtBarJoin(key[..i], key[i + 1..]);
        return [key[..i], key[i + 1..]];
      }
      assert key[..i + 1] == key[..i] + [key[i]];
    }
    assert key[..|key|] == key;
    return [key, ""];
  }

  /** Names holding '|' make different pairs share a key: the pair
      (x|y, z) and the pair (x, y|z) are counted together, under the names
      x and y|z when x has no '|'. */
  lemma PairKeyCollision(x: string, y: string, z: string)
    ensures Bar(Bar(x, y), z) == Bar(x, Bar(y, z))
    ensures NoBar(x) ==> SplitAtBar(Bar(Bar(x, y), z)) == [x, Bar(y, z)]
  {
    assert Bar(Bar(x, y), z) == Bar(x, Bar(y, z));
    if NoBar(x) {
      SplitAtBarJoin(x, Bar(y, z));
    }
  }

  // ---------------------------------------------------------------------
  // Counting

  /** The records whose selected field is `k`. */
  function KeyIs(key: Record -> string, k: string): Record -> bool {
    r => key(r) == k
  }

  /** The records that meet `p` and `q`. */
  function Both(p: Record -> bool, q: Record -> bool): Record -> bool {
    r => p(r) && q(r)
  }

  function Succeeded(p: Record -> bool): Record -> bool {
    r => p(r) && r.success
  }

  function Skipped(p: Record -> bool): Record -> bool {
    r => p(r) && r.isCapacityExceeded
  }

  function AnyRecord(): Record -> bool {
    r => true
  }

  /** Tests, successes and capacity skips of the records meeting `p`. */
  datatype Tally = Tally(tests: nat, successes: nat, capacitySkips: nat)

  function TallyOf(rs: seq<Record>, p: Record -> bool): (t: Tally)
    ensures t.capacitySkips <= t.tests && t.successes <= t.tests
  {
    CountIfMono(rs, Succeeded(p), p);
    CountIfMono(rs, Skipped(p), p);
    Tally(CountIf(rs, p), CountIf(rs, Succeeded(p)), CountIf(rs, Skipped(p)))
  }

  /** One more record counted: the update the aggregation loops make. */
  function Count(t: Tally, r: Record): (t': Tally)
    ensures t'.tests == t.tests + 1
  {
    Tally(t.tests + 1, t.successes + (if r.success then 1 else 0),
          t.capacitySkips + (if r.isCapacityExceeded then 1 else 0))
  }

  lemma TallyOfSnoc(rs: seq<Record>, p: Record -> bool)
    requires rs != []
    ensures TallyOf(rs, p) == (if p(rs[|rs| - 1]) then Count(TallyOf(rs[..|rs| - 1], p), rs[|rs| - 1])
                               else TallyOf(rs[..|rs| - 1], p))
  {
    var x := rs[|rs| - 1];
    assert Succeeded(p)(x) == (p(x) && x.success);
    assert Skipped(p)(x) == (p(x) && x.isCapacityExceeded);
  }

  /** Sum of a time field over the records meeting `p`. */
  function SumIf(rs: seq<Record>, p: Record -> bool, time: Record -> real): real {
    if rs == [] then 0.0
    else SumIf(rs[..|rs| - 1], p, time) + (if p(rs[|rs| - 1]) then time(rs[|rs| - 1]) else 0.0)
  }

  /** A success rate in percent, 0 when nothing counts. */
  function Rate(num: int, den: int): (rate: real)
    ensures den <= 0 ==> rate == 0.0
    ensures den > 0 ==> rate * den as real == num as real * 100.0
    ensures den > 0 && 0 <= num <= den ==> 0.0 <= rate <= 100.0
  {
    if den > 0 then num as real / den as real * 100.0 else 0.0
  }

  /** The records that are both successes and capacity skips: none, for
      records the runner produced. */
  predicate NoSkippedSuccess(rs: seq<Record>) {
    forall i :: 0 <= i < |rs| ==> !(rs[i].success && rs[i].isCapacityExceeded)
  }

  /** When no success is also a skip, successes never exceed the effective
      tests (tests minus skips), so the rate is a percentage. */
  lemma {:induction false} SuccessesWithinEffective(rs: seq<Record>, p: Record -> bool)
    requires NoSkippedSuccess(rs)
    ensures var t := TallyOf(rs, p);
            t.successes <= t.tests - t.capacitySkips
            && 0.0 <= Rate(t.successes, t.tests - t.capacitySkips) <= 100.0
  {
    if rs != [] {
      var init := rs[..|rs| - 1];
      assert NoSkippedSuccess(init) by {
        assert forall i :: 0 <= i < |init| ==> init[i] == rs[i];
      }
      SuccessesWithinEffective(init, p);
      TallyOfSnoc(rs, p);
    }
  }

  /** Records read back from JSON files never count as skipped. */
  lemma ReadBackNoSkips(raws: seq<JsonReport.RawTestResult>, p: Record -> bool)
    ensures var rs := seq(|raws|, i requires 0 <= i < |raws| => ReadBack(raws[i]));
            NoSkippedSuccess(rs) && TallyOf(rs, p).capacitySkips == 0
  {
    var rs := seq(|raws|, i requires 0 <= i < |raws| => ReadBack(raws[i]));
    NoSkipsCounted(rs, p);
  }

  lemma {:induction false} NoSkipsCounted(rs: seq<Record>, p: Record -> bool)
    requires forall i :: 0 <= i < |rs| ==> !rs[i].isCapacityExceeded
    ensures CountIf(rs, Skipped(p)) == 0
  {
    if rs != [] {
      var init := rs[..|rs| - 1];
      assert forall i :: 0 <= i < |init| ==> init[i] == rs[i];
      NoSkipsCounted(init, p);
    }
  }

  /** Sum over the keys `ks` of the number of records meeting `p` whose
      selected field is that key. */
  function SumCounts(rs: seq<Record>, ks: seq<string>, key: Record -> string, p: Record -> bool): nat {
    if ks == [] then 0
    else SumCounts(rs, ks[..|ks| - 1], key, p) + CountIf(rs, Both(p, KeyIs(key, ks[|ks| - 1])))
  }

  lemma {:induction false} SumCountsSnoc(rs: seq<Record>, x: Record, ks: seq<string>,
                                         key: Record -> string, p: Record -> bool)
    ensures SumCounts(rs + [x], ks, key, p)
         == SumCounts(rs, ks, key, p) + (if p(x) then multiset(ks)[key(x)] else 0)
  {
    if ks != [] {
      var init := ks[..|ks| - 1];
      SumCountsSnoc(rs, x, init, key, p);
      assert ks == init + [ks[|ks| - 1]];
      assert (rs + [x])[..|rs|] == rs;
      assert Both(p, KeyIs(key, ks[|ks| - 1]))(x) == (p(x) && key(x) == ks[|ks| - 1]);
    }
  }

  /** Splitting records by a field, over a duplicate-free list that holds
      every value the field takes, counts every record exactly once. */
  lemma {:induction false} CountPartition(rs: seq<Record>, ks: seq<string>, key: Record -> string, p: Record -> bool)
    requires NoDuplicates(ks)
    requires forall i :: 0 <= i < |rs| && p(rs[i]) ==> key(rs[i]) in ks
    ensures SumCounts(rs, ks, key, p) == CountIf(rs, p)
  {
    if rs == [] {
      ZeroCounts(ks, key, p);
    } else {
      var init := rs[..|rs| - 1];
      var x := rs[|rs| - 1];
      assert forall i :: 0 <= i < |init| ==> init[i] == rs[i];
      CountPartition(init, ks, key, p);
      assert init + [x] == rs;
      SumCountsSnoc(init, x, ks, key, p);
      if p(x) {
        NoDuplicatesOnce(ks, key(x));
      }
    }
  }

  lemma {:induction false} ZeroCounts(ks: seq<string>, key: Record -> string, p: Record -> bool)
    ensures SumCounts([], ks, key, p) == 0
  {
    if ks != [] {
      ZeroCounts(ks[..|ks| - 1], key, p);
    }
  }

  lemma {:induction false} CountAll(rs: seq<Record>)
    ensures CountIf(rs, AnyRecord()) == |rs|
  {
    if rs != [] {
      CountAll(rs[..|rs| - 1]);
    }
  }
}

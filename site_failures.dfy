/** The failure analysis of the site: failures by error kind, and failure
    counts and rates per data size, per pixel size, per content type and
    for fractional against integer module sizes. Records flagged as
    capacity skips are left out of all of it. */
module SiteFailures {
  import opened Common
  import opened Decimal
  import opened SiteData

  // ---------------------------------------------------------------------
  // What is counted

  /** The records that take part: all but the capacity skips. */
  function Counted(): Record -> bool {
    (r: Record) => !r.isCapacityExceeded
  }

  /** The counted records whose field is `k`. */
  function AtKey<K(==)>(key: Record -> K, k: K): Record -> bool {
    (r: Record) => !r.isCapacityExceeded && key(r) == k
  }

  /** The counted failures whose field is `k`. */
  function FailedAtKey<K(==)>(key: Record -> K, k: K): Record -> bool {
    (r: Record) => !r.isCapacityExceeded && !r.success && key(r) == k
  }

  /** The counted failures. */
  function Failed(): Record -> bool {
    (r: Record) => !r.isCapacityExceeded && !r.success
  }

  function DataSizeKey(r: Record): int { r.dataSize }
  function PixelSizeKey(r: Record): int { r.pixelSize }
  function ContentTypeKey(r: Record): string { r.contentType }
  function FractionalKey(r: Record): bool { r.isFractionalModule }
  function ErrorTypeKey(r: Record): string { r.errorType }

  // ---------------------------------------------------------------------
  // Buckets

  /** Failures and total of one condition. */
  datatype Bucket = Bucket(failures: nat, total: nat)

  const NoBucket := Bucket(0, 0)

  /** One more counted record in a bucket. */
  function Tick(b: Bucket, r: Record): Bucket {
    Bucket(b.failures + (if r.success then 0 else 1), b.total + 1)
  }

  function BucketAt<K(==)>(m: map<K, Bucket>, k: K): Bucket {
    if k in m then m[k] else NoBucket
  }

  /** The map the failure loop builds for one field: capacity skips pass
      by, every other record ticks the bucket of its field's value. */
  function BucketsOf<K(==)>(rs: seq<Record>, key: Record -> K): map<K, Bucket> {
    if rs == [] then map[]
    else
      var m := BucketsOf(rs[..|rs| - 1], key);
      var x := rs[|rs| - 1];
      if x.isCapacityExceeded then m else m[key(x) := Tick(BucketAt(m, key(x)), x)]
  }

  /** The bucket of value `k`, straight from the records: the counted
      failures and the counted records with that value. */
  function BucketFor<K(==)>(rs: seq<Record>, key: Record -> K, k: K): (b: Bucket)
    ensures b.failures <= b.total
  {
    CountIfMono(rs, FailedAtKey(key, k), AtKey(key, k));
    Bucket(CountIf(rs, FailedAtKey(key, k)), CountIf(rs, AtKey(key, k)))
  }

  /** The loop's bucket of a value is the bucket computed from the records,
      and a value has a bucket exactly when a counted record has it. */
  lemma {:induction false} BucketsOfMeaning<K>(rs: seq<Record>, key: Record -> K, k: K)
    ensures k in BucketsOf(rs, key) <==> BucketFor(rs, key, k).total > 0
    ensures BucketAt(BucketsOf(rs, key), k) == BucketFor(rs, key, k)
  {
    if rs != [] {
      BucketsOfMeaning(rs[..|rs| - 1], key, k);
    }
  }

  // ---------------------------------------------------------------------
  // Condition lists

  datatype ConditionFailures = ConditionFailures(condition: string, failures: int, total: int, rate: real)

  /** A bucket under its condition text, with the failure rate in percent
      (0 for an empty bucket). */
  function ConditionOf(condition: string, b: Bucket): (c: ConditionFailures)
    ensures c.condition == condition && c.failures == b.failures && c.total == b.total
    ensures b.failures <= b.total ==> 0.0 <= c.rate <= 100.0
    ensures c.rate == Rate(c.failures, c.total)
  {
    ConditionFailures(condition, b.failures, b.total, Rate(b.failures, b.total))
  }

  /** Sort order: a higher failure rate first. */
  function RateAtLeast(a: ConditionFailures, b: ConditionFailures): bool {
    a.rate >= b.rate
  }

  lemma RateAtLeastTotal()
    ensures TotalPreorder(RateAtLeast)
  {
  }

  function DataSizeLabel(n: int): string { DecimalString(n) + " bytes" }
  function PixelSizeLabel(n: int): string { DecimalString(n) + "px" }
  function ContentTypeLabel(ct: string): string { ct }

  lemma CancelSuffix(a: string, b: string, suffix: string)
    requires a + suffix == b + suffix
    ensures a == b
  {
    assert a == (a + suffix)[..|a|];
    assert b == (b + suffix)[..|b|];
  }

  /** Different sizes get different condition texts. */
  lemma LabelsInjective(a: int, b: int)
    ensures DataSizeLabel(a) == DataSizeLabel(b) ==> a == b
    ensures PixelSizeLabel(a) == PixelSizeLabel(b) ==> a == b
  {
    if DataSizeLabel(a) == DataSizeLabel(b) {
      CancelSuffix(DecimalString(a), DecimalString(b), " bytes");
      DecimalStringInjective(a, b);
    }
    if PixelSizeLabel(a) == PixelSizeLabel(b) {
      CancelSuffix(DecimalString(a), DecimalString(b), "px");
      DecimalStringInjective(a, b);
    }
  }

  /** The entries for the values `ks`, in that order. */
  function ConditionsAt<K(==)>(rs: seq<Record>, key: Record -> K, text: K -> string, ks: seq<K>)
    : (cs: seq<ConditionFailures>)
    ensures |cs| == |ks|
    ensures forall i :: 0 <= i < |ks| ==> cs[i] == ConditionOf(text(ks[i]), BucketFor(rs, key, ks[i]))
  {
    seq(|ks|, i requires 0 <= i < |ks| => ConditionOf(text(ks[i]), BucketFor(rs, key, ks[i])))
  }

  /** `list` holds one entry per value of the field among the counted
      records (the values `ks` list them once each), in some order. */
  ghost predicate Listed<K(!new)>(rs: seq<Record>, key: Record -> K, text: K -> string,
                            list: seq<ConditionFailures>, ks: seq<K>)
  {
    && NoDuplicates(ks)
    && (forall k :: k in ks <==> BucketFor(rs, key, k).total > 0)
    && multiset(list) == multiset(ConditionsAt(rs, key, text, ks))
  }

  /** Every listed entry is the bucket of one of the values, so it has no
      more failures than records and a rate between 0 and 100. */
  lemma ListedBounded<K(!new)>(rs: seq<Record>, key: Record -> K, text: K -> string,
                               list: seq<ConditionFailures>, ks: seq<K>, i: nat)
    requires Listed(rs, key, text, list, ks) && i < |list|
    ensures exists j :: 0 <= j < |ks| && list[i] == ConditionOf(text(ks[j]), BucketFor(rs, key, ks[j]))
    ensures 0 <= list[i].failures <= list[i].total && 0.0 <= list[i].rate <= 100.0
  {
    var cs := ConditionsAt(rs, key, text, ks);
    assert list[i] in multiset(cs);
    var j :| 0 <= j < |cs| && cs[j] == list[i];
    assert list[i] == ConditionOf(text(ks[j]), BucketFor(rs, key, ks[j]));
  }

  /** One entry, built as the Go loop body builds it. */
  method BuildCondition(condition: string, b: Bucket) returns (c: ConditionFailures)
    ensures c == ConditionOf(condition, b)
  {
    var rate := 0.0;
    if b.total > 0 {
      rate := b.failures as real / b.total as real * 100.0;
    }
    c := ConditionFailures(condition, b.failures, b.total, rate);
  }

  /** The list-building loop for one field: one entry per key of the map,
      in the order the loop visits them. */
  method ConditionList<K(==)>(m: map<K, Bucket>, text: K -> string)
    returns (unsorted: seq<ConditionFailures>, keys: seq<K>)
    ensures NoDuplicates(keys) && forall k :: k in keys <==> k in m
    ensures |unsorted| == |keys|
    ensures forall j :: 0 <= j < |keys| ==> unsorted[j] == ConditionOf(text(keys[j]), m[keys[j]])
  {
    keys := MapKeys(m.Keys);
    unsorted := [];
    for i := 0 to |keys|
      invariant |unsorted| == i
      invariant forall j :: 0 <= j < i ==> unsorted[j] == ConditionOf(text(keys[j]), m[keys[j]])
    {
      var c := BuildCondition(text(keys[i]), m[keys[i]]);
      unsorted := unsorted + [c];
    }
  }

  /** The entries built from the counted map are the entries computed
      directly from the records, and its keys are the values that occur. */
  lemma ConditionsFromBuckets<K(!new)>(rs: seq<Record>, key: Record -> K, text: K -> string,
                                      keys: seq<K>, unsorted: seq<ConditionFailures>)
    requires forall k :: k in keys <==> k in BucketsOf(rs, key)
    requires |unsorted| == |keys|
    requires forall j :: 0 <= j < |keys| ==> unsorted[j] == ConditionOf(text(keys[j]), BucketsOf(rs, key)[keys[j]])
    ensures forall k :: k in keys <==> BucketFor(rs, key, k).total > 0
    ensures unsorted == ConditionsAt(rs, key, text, keys)
  {
    forall k ensures k in keys <==> BucketFor(rs, key, k).total > 0 {
      BucketsOfMeaning(rs, key, k);
    }
    forall j | 0 <= j < |keys| ensures unsorted[j] == ConditionOf(text(keys[j]), BucketFor(rs, key, keys[j])) {
      BucketsOfMeaning(rs, key, keys[j]);
    }
  }

  /** The list-building loop for one field, then the sort. */
  method BucketList<K(==,!new)>(rs: seq<Record>, key: Record -> K, text: K -> string, m: map<K, Bucket>)
    returns (list: seq<ConditionFailures>, ghost ks: seq<K>)
    requires m == BucketsOf(rs, key)
    ensures SortedBy(list, RateAtLeast)
    ensures Listed(rs, key, text, list, ks)
  {
    var unsorted, keys := ConditionList(m, text);
    ConditionsFromBuckets(rs, key, text, keys, unsorted);
    list := SortBy(unsorted, RateAtLeast);
    RateAtLeastTotal();
    SortBySorted(unsorted, RateAtLeast);
    ks := keys;
  }

  // ---------------------------------------------------------------------
  // By error kind

  datatype FailuresByType = FailuresByType(encode: nat, decode: nat, dataMismatch: nat)

  /** The counted failures tagged with each known kind. */
  function ByTypeOf(rs: seq<Record>): FailuresByType {
    FailuresByType(CountIf(rs, FailedAtKey(ErrorTypeKey, "encode")),
                   CountIf(rs, FailedAtKey(ErrorTypeKey, "decode")),
                   CountIf(rs, FailedAtKey(ErrorTypeKey, "dataMismatch")))
  }

  /** The three kinds never exceed the failures: a failure with an unknown
      tag is counted under none of them. */
  lemma ByTypeWithinFailures(rs: seq<Record>)
    ensures var t := ByTypeOf(rs);
            t.encode + t.decode + t.dataMismatch <= CountIf(rs, Failed())
  {
    var e := FailedAtKey(ErrorTypeKey, "encode");
    var d := FailedAtKey(ErrorTypeKey, "decode");
    var m := FailedAtKey(ErrorTypeKey, "dataMismatch");
    CountIfUnion(rs, e, d);
    CountIfUnion(rs, Or(e, d), m);
    CountIfMono(rs, Or(Or(e, d), m), Failed());
  }

  // ---------------------------------------------------------------------
  // The analysis

  datatype FailuresData = FailuresData(
    byType: FailuresByType,
    byDataSize: seq<ConditionFailures>,
    byPixelSize: seq<ConditionFailures>,
    byContentType: seq<ConditionFailures>,
    fractionalModule: ConditionFailures,
    integerModule: ConditionFailures)

  /** Everything the counting loop keeps. */
  datatype Counts = Counts(
    byType: FailuresByType,
    dataSizes: map<int, Bucket>,
    pixelSizes: map<int, Bucket>,
    contentTypes: map<string, Bucket>,
    fractional: Bucket,
    integer: Bucket)

  /** A failure counted under its kind, if the kind is known. */
  function TypeStep(t: FailuresByType, r: Record): FailuresByType {
    if r.success then t
    else if r.errorType == "encode" then t.(encode := t.encode + 1)
    else if r.errorType == "decode" then t.(decode := t.decode + 1)
    else if r.errorType == "dataMismatch" then t.(dataMismatch := t.dataMismatch + 1)
    else t
  }

  /** What one record does to the counts: nothing for a capacity skip. */
  function CountStep(c: Counts, r: Record): Counts {
    if r.isCapacityExceeded then c
    else
      Counts(TypeStep(c.byType, r),
             c.dataSizes[r.dataSize := Tick(BucketAt(c.dataSizes, r.dataSize), r)],
             c.pixelSizes[r.pixelSize := Tick(BucketAt(c.pixelSizes, r.pixelSize), r)],
             c.contentTypes[r.contentType := Tick(BucketAt(c.contentTypes, r.contentType), r)],
             if r.isFractionalModule then Tick(c.fractional, r) else c.fractional,
             if r.isFractionalModule then c.integer else Tick(c.integer, r))
  }

  const NoCounts := Counts(FailuresByType(0, 0, 0), map[], map[], map[], NoBucket, NoBucket)

  /** The counts after the loop has seen `rs`. */
  function CountsOf(rs: seq<Record>): Counts {
    if rs == [] then NoCounts else CountStep(CountsOf(rs[..|rs| - 1]), rs[|rs| - 1])
  }

  lemma CountsOfStep(rs: seq<Record>, i: nat)
    requires i < |rs|
    ensures CountsOf(rs[..i + 1]) == CountStep(CountsOf(rs[..i]), rs[i])
  {
    assert rs[..i + 1][..i] == rs[..i];
  }

  /** The loop's counts are the kind counts, the bucket maps and the
      fractional and integer buckets computed from the records. */
  lemma CountsOfMeaning(rs: seq<Record>)
    ensures CountsOf(rs) == Counts(ByTypeOf(rs), BucketsOf(rs, DataSizeKey), BucketsOf(rs, PixelSizeKey),
                                   BucketsOf(rs, ContentTypeKey), BucketFor(rs, FractionalKey, true),
                                   BucketFor(rs, FractionalKey, false))
  {
    CountsOfByType(rs);
    CountsOfMaps(rs);
    CountsOfModules(rs);
  }

  lemma {:induction false} CountsOfByType(rs: seq<Record>)
    ensures CountsOf(rs).byType == ByTypeOf(rs)
  {
    if rs != [] {
      CountsOfByType(rs[..|rs| - 1]);
      assert ErrorTypeKey(rs[|rs| - 1]) == rs[|rs| - 1].errorType;
    }
  }

  lemma {:induction false} CountsOfMaps(rs: seq<Record>)
    ensures CountsOf(rs).dataSizes == BucketsOf(rs, DataSizeKey)
    ensures CountsOf(rs).pixelSizes == BucketsOf(rs, PixelSizeKey)
    ensures CountsOf(rs).contentTypes == BucketsOf(rs, ContentTypeKey)
  {
    if rs != [] {
      CountsOfMaps(rs[..|rs| - 1]);
    }
  }

  lemma {:induction false} CountsOfModules(rs: seq<Record>)
    ensures CountsOf(rs).fractional == BucketFor(rs, FractionalKey, true)
    ensures CountsOf(rs).integer == BucketFor(rs, FractionalKey, false)
  {
    if rs != [] {
      CountsOfModules(rs[..|rs| - 1]);
      assert FractionalKey(rs[|rs| - 1]) == rs[|rs| - 1].isFractionalModule;
    }
  }

  /** The counting loop of computeFailures: the kind counts, the three
      bucket maps and the fractional and integer buckets, all at once. */
  method CountFailures(rs: seq<Record>)
    returns (byType: FailuresByType, dataSizes: map<int, Bucket>, pixelSizes: map<int, Bucket>,
             contentTypes: map<string, Bucket>, fractional: Bucket, integer: Bucket)
    ensures Counts(byType, dataSizes, pixelSizes, contentTypes, fractional, integer) == CountsOf(rs)
  {
    byType := FailuresByType(0, 0, 0);
    dataSizes, pixelSizes, contentTypes := map[], map[], map[];
    var fractionalFailures, fractionalTotal, integerFailures, integerTotal := 0, 0, 0, 0;
    for i := 0 to |rs|
      invariant Counts(byType, dataSizes, pixelSizes, contentTypes, Bucket(fractionalFailures, fractionalTotal),
                       Bucket(integerFailures, integerTotal)) == CountsOf(rs[..i])
    {
      var r := rs[i];
      CountsOfStep(rs, i);
      if r.isCapacityExceeded {
        continue;
      }
      if !r.success {
        if r.errorType == "encode" {
          byType := byType.(encode := byType.encode + 1);
        } else if r.errorType == "decode" {
          byType := byType.(decode := byType.decode + 1);
        } else if r.errorType == "dataMismatch" {
          byType := byType.(dataMismatch := byType.dataMismatch + 1);
        }
      }
      dataSizes := dataSizes[r.dataSize := Tick(BucketAt(dataSizes, r.dataSize), r)];
      pixelSizes := pixelSizes[r.pixelSize := Tick(BucketAt(pixelSizes, r.pixelSize), r)];
      contentTypes := contentTypes[r.contentType := Tick(BucketAt(contentTypes, r.contentType), r)];
      if r.isFractionalModule {
        fractionalTotal := fractionalTotal + 1;
        if !r.success {
          fractionalFailures := fractionalFailures + 1;
        }
      } else {
        integerTotal := integerTotal + 1;
        if !r.success {
          integerFailures := integerFailures + 1;
        }
      }
    }
    assert rs[..|rs|] == rs;
    fractional := Bucket(fractionalFailures, fractionalTotal);
    integer := Bucket(integerFailures, integerTotal);
  }

  /** computeFailures: the kind counts; one entry per data size, pixel
      size and content type among the counted records, each list sorted by
      failure rate; and the fractional and integer module buckets. */
  method ComputeFailures(rs: seq<Record>)
    returns (f: FailuresData, ghost dataKeys: seq<int>, ghost pixelKeys: seq<int>, ghost typeKeys: seq<string>)
    ensures f.byType == ByTypeOf(rs)
    ensures SortedBy(f.byDataSize, RateAtLeast) && Listed(rs, DataSizeKey, DataSizeLabel, f.byDataSize, dataKeys)
    ensures SortedBy(f.byPixelSize, RateAtLeast) && Listed(rs, PixelSizeKey, PixelSizeLabel, f.byPixelSize, pixelKeys)
    ensures SortedBy(f.byContentType, RateAtLeast)
            && Listed(rs, ContentTypeKey, ContentTypeLabel, f.byContentType, typeKeys)
    ensures f.fractionalModule == ConditionOf("Fractional module size", BucketFor(rs, FractionalKey, true))
    ensures f.integerModule == ConditionOf("Integer module size", BucketFor(rs, FractionalKey, false))
  {
    var byType, dataSizes, pixelSizes, contentTypes, fractional, integer := CountFailures(rs);
    CountsOfMeaning(rs);
    var byDataSize, byPixelSize, byContentType;
    byDataSize, dataKeys := BucketList(rs, DataSizeKey, DataSizeLabel, dataSizes);
    byPixelSize, pixelKeys := BucketList(rs, PixelSizeKey, PixelSizeLabel, pixelSizes);
    byContentType, typeKeys := BucketList(rs, ContentTypeKey, ContentTypeLabel, contentTypes);
    var fractionalRate := 0.0;
    if fractional.total > 0 {
      fractionalRate := fractional.failures as real / fractional.total as real * 100.0;
    }
    var integerRate := 0.0;
    if integer.total > 0 {
      integerRate := integer.failures as real / integer.total as real * 100.0;
    }
    f := FailuresData(byType, byDataSize, byPixelSize, byContentType,
                      ConditionFailures("Fractional module size", fractional.failures, fractional.total, fractionalRate),
                      ConditionFailures("Integer module size", integer.failures, integer.total, integerRate));
  }

  // ---------------------------------------------------------------------
  // Properties

  /** Every counted record is either fractional or integer: the two totals
      add up to the number of counted records, and likewise the failures. */
  lemma {:induction false} FractionalSplit(rs: seq<Record>)
    ensures BucketFor(rs, FractionalKey, true).total + BucketFor(rs, FractionalKey, false).total
            == CountIf(rs, Counted())
    ensures BucketFor(rs, FractionalKey, true).failures + BucketFor(rs, FractionalKey, false).failures
            == CountIf(rs, Failed())
  {
    if rs != [] {
      FractionalSplit(rs[..|rs| - 1]);
    }
  }

  /** Capacity skips play no part: removing them first changes no bucket
      and no kind count. */
  lemma CapacitySkipsIgnored<K>(rs: seq<Record>, key: Record -> K, k: K)
    ensures BucketFor(Filter(rs, Counted()), key, k) == BucketFor(rs, key, k)
    ensures ByTypeOf(Filter(rs, Counted())) == ByTypeOf(rs)
  {
    CountIfFilter(rs, Counted(), AtKey(key, k));
    CountIfFilter(rs, Counted(), FailedAtKey(key, k));
    CountIfFilter(rs, Counted(), FailedAtKey(ErrorTypeKey, "encode"));
    CountIfFilter(rs, Counted(), FailedAtKey(ErrorTypeKey, "decode"));
    CountIfFilter(rs, Counted(), FailedAtKey(ErrorTypeKey, "dataMismatch"));
  }
}

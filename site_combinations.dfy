/** The encoder-decoder pair table of the site: one entry per pair that
    occurs in the records, in non-increasing order of success rate, and the
    best pair, picked while the entries are built. */
module SiteCombinations {
  import opened Common
  import opened SiteData
  import SiteStats

  /** The key of a record's pair: encoder and decoder joined by '|'. */
  function PairKey(r: Record): string {
    Bar(r.encoder, r.decoder)
  }

  /** The running totals of one pair. */
  datatype CombAgg = CombAgg(tally: Tally, encMs: real, decMs: real)

  const NoComb := CombAgg(SiteStats.NoTally, 0.0, 0.0)

  function CombStep(a: CombAgg, r: Record): CombAgg {
    CombAgg(Count(a.tally, r), a.encMs + r.encodeTimeMs, a.decMs + r.decodeTimeMs)
  }

  /** The map the aggregation loop builds over the records, in order. */
  function CombAggOf(rs: seq<Record>): map<string, CombAgg> {
    if rs == [] then map[]
    else
      var m := CombAggOf(rs[..|rs| - 1]);
      var x := rs[|rs| - 1];
      m[PairKey(x) := CombStep(if PairKey(x) in m then m[PairKey(x)] else NoComb, x)]
  }

  function CombAt(m: map<string, CombAgg>, k: string): CombAgg {
    if k in m then m[k] else NoComb
  }

  /** The totals kept under a key are the tally and the summed times of the
      records of that pair, and the key has an entry exactly when such a
      record exists. */
  lemma {:induction false} CombAggOfMeaning(rs: seq<Record>, k: string)
    ensures var m := CombAggOf(rs);
      && (k in m <==> TallyOf(rs, KeyIs(PairKey, k)).tests > 0)
      && CombAt(m, k) == CombAgg(TallyOf(rs, KeyIs(PairKey, k)),
                                 SumIf(rs, KeyIs(PairKey, k), SiteStats.EncodeMs),
                                 SumIf(rs, KeyIs(PairKey, k), SiteStats.DecodeMs))
  {
    if rs != [] {
      CombAggOfMeaning(rs[..|rs| - 1], k);
      TallyOfSnoc(rs, KeyIs(PairKey, k));
    }
  }

  /** The aggregation loop of computeCombinations. */
  method AggregateCombinations(rs: seq<Record>) returns (agg: map<string, CombAgg>)
    ensures agg == CombAggOf(rs)
  {
    agg := map[];
    for i := 0 to |rs|
      invariant agg == CombAggOf(rs[..i])
    {
      var r := rs[i];
      var key := r.encoder + "|" + r.decoder;
      assert key == PairKey(r);
      if key !in agg {
        agg := agg[key := NoComb];
      }
      var a := agg[key];
      agg := agg[key := CombAgg(Count(a.tally, r), a.encMs + r.encodeTimeMs, a.decMs + r.decodeTimeMs)];
      assert rs[..i + 1][..i] == rs[..i];
    }
    assert rs[..|rs|] == rs;
  }

  // ---------------------------------------------------------------------
  // Entries

  datatype Combination = Combination(
    encoder: string,
    decoder: string,
    successRate: real,
    tests: int,
    successes: int,
    capacitySkips: int,
    effectiveTests: int,
    avgEncodeMs: real,
    avgDecodeMs: real)

  /** The zero value `best` starts from. */
  const NoCombination := Combination("", "", 0.0, 0, 0, 0, 0, 0.0, 0.0)

  datatype BestCombination = BestCombination(encoder: string, decoder: string, successRate: real)

  datatype CombinationsData = CombinationsData(matrix: seq<Combination>, best: BestCombination)

  /** The entry the loop builds from a key and its totals. */
  function MakeCombination(key: string, a: CombAgg): Combination {
    var parts := SplitAtBar(key);
    var effective := a.tally.tests - a.tally.capacitySkips;
    Combination(parts[0], parts[1], Rate(a.tally.successes, effective),
                a.tally.tests, a.tally.successes, a.tally.capacitySkips, effective,
                SiteStats.Average(a.encMs, a.tally.tests), SiteStats.Average(a.decMs, a.tally.tests))
  }

  /** The entry of key `k`, straight from the records: the key split at its
      first '|' into the two names; the pair's tests, successes and skips;
      effective tests and the rate as everywhere else; the mean times. */
  function CombinationFor(rs: seq<Record>, k: string): (c: Combination)
    ensures c.effectiveTests == c.tests - c.capacitySkips
    ensures c.successRate == Rate(c.successes, c.effectiveTests)
    ensures 0 <= c.capacitySkips <= c.tests && 0 <= c.successes <= c.tests
    ensures NoBar(c.encoder) && (!NoBar(k) ==> Bar(c.encoder, c.decoder) == k)
  {
    var p := KeyIs(PairKey, k);
    var t := TallyOf(rs, p);
    var parts := SplitAtBar(k);
    var effective := t.tests - t.capacitySkips;
    Combination(parts[0], parts[1], Rate(t.successes, effective),
                t.tests, t.successes, t.capacitySkips, effective,
                SiteStats.Average(SumIf(rs, p, SiteStats.EncodeMs), t.tests),
                SiteStats.Average(SumIf(rs, p, SiteStats.DecodeMs), t.tests))
  }

  lemma MakeCombinationIsFor(rs: seq<Record>, k: string)
    requires k in CombAggOf(rs)
    ensures MakeCombination(k, CombAggOf(rs)[k]) == CombinationFor(rs, k)
  {
    CombAggOfMeaning(rs, k);
  }

  /** A key always holds a '|'. */
  lemma PairKeyHasBar(r: Record)
    ensures !NoBar(PairKey(r))
  {
    assert PairKey(r)[|r.encoder|] == '|';
  }

  /** The entry of a record's pair gives that record's names back, as long
      as its encoder name has no '|'. */
  lemma CombinationNames(rs: seq<Record>, i: nat)
    requires i < |rs| && NoBar(rs[i].encoder)
    ensures var c := CombinationFor(rs, PairKey(rs[i]));
            c.encoder == rs[i].encoder && c.decoder == rs[i].decoder && c.tests > 0
  {
    SplitAtBarJoin(rs[i].encoder, rs[i].decoder);
    CountIfPositive(rs, KeyIs(PairKey, PairKey(rs[i])));
    assert KeyIs(PairKey, PairKey(rs[i]))(rs[i]);
  }

  // ---------------------------------------------------------------------
  // The best pair

  /** `best` after the loop has seen `cs`: a later entry replaces it only
      with a strictly higher rate. */
  function BestOf(cs: seq<Combination>): Combination {
    if cs == [] then NoCombination
    else
      var b := BestOf(cs[..|cs| - 1]);
      if cs[|cs| - 1].successRate > b.successRate then cs[|cs| - 1] else b
  }

  /** The best rate is the largest rate seen (0 if none is positive); the
      best entry is the first entry with that rate when it is positive, and
      the zero value otherwise. */
  lemma {:induction false} BestOfMeaning(cs: seq<Combination>)
    ensures forall i :: 0 <= i < |cs| ==> cs[i].successRate <= BestOf(cs).successRate
    ensures BestOf(cs).successRate >= 0.0
    ensures BestOf(cs).successRate <= 0.0 ==> BestOf(cs) == NoCombination
    ensures BestOf(cs).successRate > 0.0 ==>
              exists i :: 0 <= i < |cs| && cs[i] == BestOf(cs)
                && forall j :: 0 <= j < i ==> cs[j].successRate < cs[i].successRate
  {
    if cs != [] {
      var init := cs[..|cs| - 1];
      BestOfMeaning(init);
      assert forall i :: 0 <= i < |init| ==> init[i] == cs[i];
      var b := BestOf(init);
      if cs[|cs| - 1].successRate <= b.successRate && b.successRate > 0.0 {
        var i :| 0 <= i < |init| && init[i] == b
                 && forall j :: 0 <= j < i ==> init[j].successRate < init[i].successRate;
        assert cs[i] == b;
      }
    }
  }

  function Summary(c: Combination): BestCombination {
    BestCombination(c.encoder, c.decoder, c.successRate)
  }

  // ---------------------------------------------------------------------
  // The table

  /** Sort order: a higher success rate first. */
  function RateAtLeast(a: Combination, b: Combination): bool {
    a.successRate >= b.successRate
  }

  lemma RateAtLeastTotal()
    ensures TotalPreorder(RateAtLeast)
  {
  }

  /** The pair key an entry stands for. */
  function EntryKey(c: Combination): string {
    Bar(c.encoder, c.decoder)
  }

  /** One entry, built as the Go loop body builds it. */
  method BuildCombination(key: string, a: CombAgg) returns (cr: Combination)
    ensures cr == MakeCombination(key, a)
  {
    var parts := SplitKey(key);
    var effectiveTests := a.tally.tests - a.tally.capacitySkips;
    var rate := 0.0;
    if effectiveTests > 0 {
      rate := a.tally.successes as real / effectiveTests as real * 100.0;
    }
    var avgEnc := 0.0;
    var avgDec := 0.0;
    if a.tally.tests > 0 {
      avgEnc := a.encMs / a.tally.tests as real;
      avgDec := a.decMs / a.tally.tests as real;
    }
    cr := Combination(parts[0], parts[1], rate, a.tally.tests, a.tally.successes,
                      a.tally.capacitySkips, effectiveTests, avgEnc, avgDec);
  }

  lemma BestOfStep(cs: seq<Combination>, c: Combination)
    ensures BestOf(cs + [c]) == if c.successRate > BestOf(cs).successRate then c else BestOf(cs)
  {
    assert (cs + [c])[..|cs|] == cs;
  }

  /** The loop over the aggregated pairs: the entries in visiting order and
      the best entry tracked alongside. */
  method BuildTable(agg: map<string, CombAgg>, keys: seq<string>)
    returns (matrix: seq<Combination>, best: Combination)
    requires forall j :: 0 <= j < |keys| ==> keys[j] in agg
    ensures |matrix| == |keys|
    ensures forall j :: 0 <= j < |keys| ==> matrix[j] == MakeCombination(keys[j], agg[keys[j]])
    ensures best == BestOf(matrix)
  {
    matrix := [];
    best := NoCombination;
    for i := 0 to |keys|
      invariant |matrix| == i
      invariant forall j :: 0 <= j < i ==> matrix[j] == MakeCombination(keys[j], agg[keys[j]])
      invariant best == BestOf(matrix)
    {
      var cr := BuildCombination(keys[i], agg[keys[i]]);
      BestOfStep(matrix, cr);
      matrix := matrix + [cr];
      if cr.successRate > best.successRate {
        best := cr;
      }
    }
  }

  /** The entries built from the aggregated map are the entries computed
      directly from the records. */
  lemma TableIsFor(rs: seq<Record>, keys: seq<string>, matrix: seq<Combination>)
    requires forall j :: 0 <= j < |keys| ==> keys[j] in CombAggOf(rs)
    requires |matrix| == |keys|
    requires forall j :: 0 <= j < |keys| ==> matrix[j] == MakeCombination(keys[j], CombAggOf(rs)[keys[j]])
    ensures forall j :: 0 <= j < |keys| ==> matrix[j] == CombinationFor(rs, keys[j])
  {
    forall j | 0 <= j < |keys| ensures matrix[j] == CombinationFor(rs, keys[j]) {
      MakeCombinationIsFor(rs, keys[j]);
    }
  }

  /** computeCombinations. `order` is the order in which the map loop
      visited the pairs (Go leaves it unspecified): `best` is the best of
      that order. The table holds one entry per pair occurring in the
      records, each equal to the entry computed directly from the records,
      sorted by rate; the best rate is the table's largest (0 when no rate
      is positive, and then the names are empty). */
  method ComputeCombinations(rs: seq<Record>) returns (data: CombinationsData, ghost order: seq<Combination>)
    ensures SortedBy(data.matrix, RateAtLeast)
    ensures multiset(data.matrix) == multiset(order)
    ensures data.best == Summary(BestOf(order))
    ensures forall i :: 0 <= i < |data.matrix| ==> data.matrix[i] == CombinationFor(rs, EntryKey(data.matrix[i]))
    ensures forall k :: (exists i :: 0 <= i < |data.matrix| && EntryKey(data.matrix[i]) == k)
                        <==> SiteStats.Occurs(rs, PairKey, k)
    ensures forall i, j :: 0 <= i < j < |data.matrix| ==> EntryKey(data.matrix[i]) != EntryKey(data.matrix[j])
    ensures forall i :: 0 <= i < |data.matrix| ==> data.matrix[i].successRate <= data.best.successRate
    ensures data.best.successRate > 0.0 ==>
              exists i :: 0 <= i < |data.matrix| && Summary(data.matrix[i]) == data.best
    ensures data.best.successRate <= 0.0 ==> data.best == BestCombination("", "", 0.0)
  {
    var agg := AggregateCombinations(rs);
    var keys := MapKeys(agg.Keys);
    var matrix, best := BuildTable(agg, keys);
    TableIsFor(rs, keys, matrix);
    order := matrix;
    var sorted := SortBy(matrix, RateAtLeast);
    RateAtLeastTotal();
    SortBySorted(matrix, RateAtLeast);
    KeysHaveBars(rs, keys);
    SortedTableProperties(rs, keys, matrix, sorted);
    BestOfMeaning(matrix);
    BestInTable(matrix, sorted, Summary(best));
    data := CombinationsData(sorted, Summary(best));
  }

  lemma KeysHaveBars(rs: seq<Record>, keys: seq<string>)
    requires forall x :: x in keys <==> x in CombAggOf(rs)
    ensures forall j :: 0 <= j < |keys| ==> !NoBar(keys[j]) && SiteStats.Occurs(rs, PairKey, keys[j])
    ensures forall k :: SiteStats.Occurs(rs, PairKey, k) ==> k in keys
  {
    forall j | 0 <= j < |keys| ensures !NoBar(keys[j]) && SiteStats.Occurs(rs, PairKey, keys[j]) {
      OccursIffAggregated(rs, keys[j]);
      var i :| 0 <= i < |rs| && PairKey(rs[i]) == keys[j];
      PairKeyHasBar(rs[i]);
    }
    forall k | SiteStats.Occurs(rs, PairKey, k) ensures k in keys {
      OccursIffAggregated(rs, k);
    }
  }

  lemma OccursIffAggregated(rs: seq<Record>, k: string)
    ensures k in CombAggOf(rs) <==> SiteStats.Occurs(rs, PairKey, k)
  {
    CombAggOfMeaning(rs, k);
    CountIfPositive(rs, KeyIs(PairKey, k));
    if SiteStats.Occurs(rs, PairKey, k) {
      var j :| 0 <= j < |rs| && PairKey(rs[j]) == k;
      assert KeyIs(PairKey, k)(rs[j]);
    }
  }

  lemma SortedTableProperties(rs: seq<Record>, keys: seq<string>, unsorted: seq<Combination>, sorted: seq<Combination>)
    requires NoDuplicates(keys)
    requires forall j :: 0 <= j < |keys| ==> !NoBar(keys[j]) && SiteStats.Occurs(rs, PairKey, keys[j])
    requires forall k :: SiteStats.Occurs(rs, PairKey, k) ==> k in keys
    requires |unsorted| == |keys|
    requires forall j :: 0 <= j < |keys| ==> unsorted[j] == CombinationFor(rs, keys[j])
    requires multiset(sorted) == multiset(unsorted)
    ensures forall i :: 0 <= i < |sorted| ==> sorted[i] == CombinationFor(rs, EntryKey(sorted[i]))
    ensures forall k :: (exists i :: 0 <= i < |sorted| && EntryKey(sorted[i]) == k) <==> SiteStats.Occurs(rs, PairKey, k)
    ensures forall i, j :: 0 <= i < j < |sorted| ==> EntryKey(sorted[i]) != EntryKey(sorted[j])
  {
    SameElements(sorted, unsorted);
    EntryKeysAreKeys(rs, keys, unsorted);
    SortedEntriesFor(rs, keys, unsorted, sorted);
    forall k ensures (exists i :: 0 <= i < |sorted| && EntryKey(sorted[i]) == k) <==> SiteStats.Occurs(rs, PairKey, k) {
      KeysCovered(keys, unsorted, sorted, k);
    }
    assert NoDuplicates(unsorted) by {
      forall i, j | 0 <= i < j < |unsorted| ensures unsorted[i] != unsorted[j] {
        assert EntryKey(unsorted[i]) == keys[i] && EntryKey(unsorted[j]) == keys[j];
      }
    }
    DistinctKeys(rs, unsorted, sorted);
  }

  lemma EntryKeysAreKeys(rs: seq<Record>, keys: seq<string>, unsorted: seq<Combination>)
    requires forall j :: 0 <= j < |keys| ==> !NoBar(keys[j])
    requires |unsorted| == |keys|
    requires forall j :: 0 <= j < |keys| ==> unsorted[j] == CombinationFor(rs, keys[j])
    ensures forall j :: 0 <= j < |keys| ==> EntryKey(unsorted[j]) == keys[j]
  {
  }

  lemma SortedEntriesFor(rs: seq<Record>, keys: seq<string>, unsorted: seq<Combination>, sorted: seq<Combination>)
    requires |unsorted| == |keys|
    requires forall j :: 0 <= j < |keys| ==> unsorted[j] == CombinationFor(rs, keys[j])
    requires forall j :: 0 <= j < |keys| ==> EntryKey(unsorted[j]) == keys[j]
    requires forall x :: x in sorted ==> x in unsorted
    ensures forall i :: 0 <= i < |sorted| ==> sorted[i] == CombinationFor(rs, EntryKey(sorted[i]))
  {
    forall i | 0 <= i < |sorted| ensures sorted[i] == CombinationFor(rs, EntryKey(sorted[i])) {
      assert sorted[i] in unsorted;
      var j :| 0 <= j < |unsorted| && unsorted[j] == sorted[i];
    }
  }

  lemma KeysCovered(keys: seq<string>, unsorted: seq<Combination>, sorted: seq<Combination>, k: string)
    requires |unsorted| == |keys|
    requires forall j :: 0 <= j < |keys| ==> EntryKey(unsorted[j]) == keys[j]
    requires forall x :: x in sorted <==> x in unsorted
    ensures (exists i :: 0 <= i < |sorted| && EntryKey(sorted[i]) == k) <==> k in keys
  {
    if k in keys {
      var j :| 0 <= j < |keys| && keys[j] == k;
      assert unsorted[j] in sorted;
      var i :| 0 <= i < |sorted| && sorted[i] == unsorted[j];
      assert EntryKey(sorted[i]) == k;
    }
    if exists i :: 0 <= i < |sorted| && EntryKey(sorted[i]) == k {
      var i :| 0 <= i < |sorted| && EntryKey(sorted[i]) == k;
      assert sorted[i] in unsorted;
      var j :| 0 <= j < |unsorted| && unsorted[j] == sorted[i];
      assert keys[j] == k;
    }
  }

  lemma DistinctKeys(rs: seq<Record>, unsorted: seq<Combination>, sorted: seq<Combination>)
    requires NoDuplicates(unsorted)
    requires multiset(sorted) == multiset(unsorted)
    requires forall i :: 0 <= i < |sorted| ==> sorted[i] == CombinationFor(rs, EntryKey(sorted[i]))
    ensures forall i, j :: 0 <= i < j < |sorted| ==> EntryKey(sorted[i]) != EntryKey(sorted[j])
  {
    NoDuplicatesPermutation(unsorted, sorted);
    forall i, j | 0 <= i < j < |sorted| ensures EntryKey(sorted[i]) != EntryKey(sorted[j]) {
      assert sorted[i] != sorted[j];
    }
  }

  /** What the best of the visiting order says about the sorted table. */
  lemma BestInTable(order: seq<Combination>, sorted: seq<Combination>, best: BestCombination)
    requires multiset(sorted) == multiset(order)
    requires best == Summary(BestOf(order))
    requires forall i :: 0 <= i < |order| ==> order[i].successRate <= BestOf(order).successRate
    requires BestOf(order).successRate <= 0.0 ==> BestOf(order) == NoCombination
    requires BestOf(order).successRate > 0.0 ==> exists i :: 0 <= i < |order| && order[i] == BestOf(order)
    ensures forall i :: 0 <= i < |sorted| ==> sorted[i].successRate <= best.successRate
    ensures best.successRate > 0.0 ==> exists i :: 0 <= i < |sorted| && Summary(sorted[i]) == best
    ensures best.successRate <= 0.0 ==> best == BestCombination("", "", 0.0)
  {
    SameElements(sorted, order);
    forall i | 0 <= i < |sorted| ensures sorted[i].successRate <= best.successRate {
      assert sorted[i] in order;
    }
    if best.successRate > 0.0 {
      var j :| 0 <= j < |order| && order[j] == BestOf(order);
      assert order[j] in sorted;
      var i :| 0 <= i < |sorted| && sorted[i] == order[j];
    }
  }
}

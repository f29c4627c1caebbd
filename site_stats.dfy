/** Per-encoder and per-decoder statistics for the site. The two Go
    functions differ only in which name a record is grouped by, which name
    it is broken down by and which time is averaged, so one generic
    computation stands for both: grouped by encoder, broken down by decoder
    and averaging encode times for the encoder statistics, and the other way
    round for the decoder statistics. */
module SiteStats {
  import opened Common
  import opened SiteData

  /** The running totals of one name: its tally, its summed time and one
      tally per counterpart. */
  datatype Agg = Agg(tally: Tally, totalMs: real, byOther: map<string, Tally>)

  const NoTally := Tally(0, 0, 0)
  const NoAgg := Agg(NoTally, 0.0, map[])

  /** What one record adds to the totals of its name. */
  function AggStep(a: Agg, r: Record, other: Record -> string, time: Record -> real): Agg {
    var o := other(r);
    var t := if o in a.byOther then a.byOther[o] else NoTally;
    Agg(Count(a.tally, r), a.totalMs + time(r), a.byOther[o := Count(t, r)])
  }

  /** The map the aggregation loop builds over the records, in order. */
  function AggOf(rs: seq<Record>, key: Record -> string, other: Record -> string, time: Record -> real)
    : map<string, Agg>
  {
    if rs == [] then map[]
    else
      var m := AggOf(rs[..|rs| - 1], key, other, time);
      var x := rs[|rs| - 1];
      m[key(x) := AggStep(if key(x) in m then m[key(x)] else NoAgg, x, other, time)]
  }

  /** The name's entry, or the empty totals when it has none. */
  function AggAt(m: map<string, Agg>, k: string): Agg {
    if k in m then m[k] else NoAgg
  }

  function TallyAt(m: map<string, Tally>, d: string): Tally {
    if d in m then m[d] else NoTally
  }

  /** The totals kept for a name are the tally and the summed time of the
      records with that name, and the name has an entry exactly when such a
      record exists. */
  lemma {:induction false} AggOfTally(rs: seq<Record>, key: Record -> string, other: Record -> string,
                                      time: Record -> real, k: string)
    ensures var m := AggOf(rs, key, other, time);
      && (k in m <==> TallyOf(rs, KeyIs(key, k)).tests > 0)
      && AggAt(m, k).tally == TallyOf(rs, KeyIs(key, k))
      && AggAt(m, k).totalMs == SumIf(rs, KeyIs(key, k), time)
  {
    if rs != [] {
      AggOfTally(rs[..|rs| - 1], key, other, time, k);
      TallyOfSnoc(rs, KeyIs(key, k));
    }
  }

  /** The counterpart tallies kept for a name are the tallies of the records
      with that name and that counterpart; a counterpart has an entry
      exactly when such a record exists. */
  lemma {:induction false} AggOfByOther(rs: seq<Record>, key: Record -> string, other: Record -> string,
                                        time: Record -> real, k: string, d: string)
    ensures var bo := AggAt(AggOf(rs, key, other, time), k).byOther;
      && (d in bo <==> TallyOf(rs, Both(KeyIs(key, k), KeyIs(other, d))).tests > 0)
      && TallyAt(bo, d) == TallyOf(rs, Both(KeyIs(key, k), KeyIs(other, d)))
  {
    if rs != [] {
      AggOfByOther(rs[..|rs| - 1], key, other, time, k, d);
      TallyOfSnoc(rs, Both(KeyIs(key, k), KeyIs(other, d)));
    }
  }

  /** The aggregation loop. */
  method Aggregate(rs: seq<Record>, key: Record -> string, other: Record -> string, time: Record -> real)
    returns (agg: map<string, Agg>)
    ensures agg == AggOf(rs, key, other, time)
  {
    agg := map[];
    for i := 0 to |rs|
      invariant agg == AggOf(rs[..i], key, other, time)
    {
      ghost var before := agg;
      var r := rs[i];
      var k := key(r);
      if k !in agg {
        agg := agg[k := NoAgg];
      }
      var a := agg[k];
      assert a == AggAt(before, k);
      var o := other(r);
      var byOther := a.byOther;
      if o !in byOther {
        byOther := byOther[o := NoTally];
      }
      byOther := byOther[o := Count(byOther[o], r)];
      assert byOther == a.byOther[o := Count(TallyAt(a.byOther, o), r)];
      agg := agg[k := Agg(Count(a.tally, r), a.totalMs + time(r), byOther)];
      assert agg == before[k := AggStep(AggAt(before, k), r, other, time)];
      assert rs[..i + 1][..i] == rs[..i];
    }
    assert rs[..|rs|] == rs;
  }

  // ---------------------------------------------------------------------
  // From totals to statistics

  datatype Breakdown = Breakdown(
    successRate: real, tests: int, successes: int, capacitySkips: int, effectiveTests: int)

  datatype Stats = Stats(
    name: string,
    successRate: real,
    avgMs: real,
    totalTests: int,
    successCount: int,
    capacitySkips: int,
    effectiveTests: int,
    byOther: map<string, Breakdown>)

  /** A mean, 0 when there is nothing to average. */
  function Average(total: real, n: int): (avg: real)
    ensures n > 0 ==> avg * n as real == total
    ensures n <= 0 ==> avg == 0.0
  {
    if n > 0 then total / n as real else 0.0
  }

  function BreakdownOf(t: Tally): Breakdown {
    var effective := t.tests - t.capacitySkips;
    Breakdown(Rate(t.successes, effective), t.tests, t.successes, t.capacitySkips, effective)
  }

  /** The statistics entry the loops build from a name's totals. */
  function MakeStats(name: string, a: Agg): Stats {
    var effective := a.tally.tests - a.tally.capacitySkips;
    Stats(name, Rate(a.tally.successes, effective), Average(a.totalMs, a.tally.tests),
          a.tally.tests, a.tally.successes, a.tally.capacitySkips, effective,
          map d | d in a.byOther :: BreakdownOf(a.byOther[d]))
  }

  /** The counterparts of a name in the records. */
  function OthersOf(rs: seq<Record>, key: Record -> string, other: Record -> string, k: string): set<string> {
    set i | 0 <= i < |rs| && key(rs[i]) == k :: other(rs[i])
  }

  /** The statistics of name `k`, straight from the records: its tests,
      successes and capacity skips; effective tests are tests minus skips;
      the rate is successes over effective tests in percent (0 without
      effective tests); the mean time; and, per counterpart that occurs with
      it, the same numbers for that pair. */
  function StatsFor(rs: seq<Record>, key: Record -> string, other: Record -> string,
                    time: Record -> real, k: string): (s: Stats)
    ensures s.name == k
    ensures s.effectiveTests == s.totalTests - s.capacitySkips
    ensures s.successRate == Rate(s.successCount, s.effectiveTests)
    ensures 0 <= s.capacitySkips <= s.totalTests && 0 <= s.successCount <= s.totalTests
  {
    var t := TallyOf(rs, KeyIs(key, k));
    var effective := t.tests - t.capacitySkips;
    Stats(k, Rate(t.successes, effective), Average(SumIf(rs, KeyIs(key, k), time), t.tests),
          t.tests, t.successes, t.capacitySkips, effective,
          map d | d in OthersOf(rs, key, other, k) :: BreakdownOf(TallyOf(rs, Both(KeyIs(key, k), KeyIs(other, d)))))
  }

  /** The per-counterpart loop: one breakdown per counterpart. */
  method Breakdowns(byOther: map<string, Tally>) returns (result: map<string, Breakdown>)
    ensures result == map d | d in byOther :: BreakdownOf(byOther[d])
  {
    var others := MapKeys(byOther.Keys);
    result := map[];
    for i := 0 to |others|
      invariant forall d :: d in result <==> d in others[..i]
      invariant forall d :: d in result ==> d in byOther && result[d] == BreakdownOf(byOther[d])
    {
      var d := others[i];
      var b := BuildBreakdown(byOther[d]);
      assert others[..i + 1] == others[..i] + [d];
      result := result[d := b];
    }
    assert others[..|others|] == others;
    BreakdownsAll(byOther, result);
  }

  lemma BreakdownsAll(byOther: map<string, Tally>, result: map<string, Breakdown>)
    requires forall d :: d in result <==> d in byOther
    requires forall d :: d in result ==> result[d] == BreakdownOf(byOther[d])
    ensures result == map d | d in byOther :: BreakdownOf(byOther[d])
  {
  }

  /** One counterpart's entry, built as the Go inner loop body builds it. */
  method BuildBreakdown(t: Tally) returns (b: Breakdown)
    ensures b == BreakdownOf(t)
  {
    var effectiveTests := t.tests - t.capacitySkips;
    var rate := 0.0;
    if effectiveTests > 0 {
      rate := t.successes as real / effectiveTests as real * 100.0;
    }
    b := Breakdown(rate, t.tests, t.successes, t.capacitySkips, effectiveTests);
  }

  /** One statistics entry, built as the Go loop body builds it. */
  method BuildStats(name: string, a: Agg) returns (s: Stats)
    ensures s == MakeStats(name, a)
  {
    var byOther := Breakdowns(a.byOther);
    var effectiveTests := a.tally.tests - a.tally.capacitySkips;
    var rate := 0.0;
    if effectiveTests > 0 {
      rate := a.tally.successes as real / effectiveTests as real * 100.0;
    }
    var avg := 0.0;
    if a.tally.tests > 0 {
      avg := a.totalMs / a.tally.tests as real;
    }
    s := Stats(name, rate, avg, a.tally.tests, a.tally.successes, a.tally.capacitySkips,
               effectiveTests, byOther);
  }

  /** A counterpart has a tally in a name's totals exactly when it occurs
      with that name, and the tally is that pair's. */
  lemma ByOtherMatches(rs: seq<Record>, key: Record -> string, other: Record -> string,
                       time: Record -> real, k: string, d: string)
    ensures var bo := AggAt(AggOf(rs, key, other, time), k).byOther;
      && (d in bo <==> d in OthersOf(rs, key, other, k))
      && (d in bo ==> bo[d] == TallyOf(rs, Both(KeyIs(key, k), KeyIs(other, d))))
  {
    AggOfByOther(rs, key, other, time, k, d);
    var p := Both(KeyIs(key, k), KeyIs(other, d));
    CountIfPositive(rs, p);
    if d in OthersOf(rs, key, other, k) {
      var i :| 0 <= i < |rs| && key(rs[i]) == k && other(rs[i]) == d;
      assert p(rs[i]);
    }
    if exists i :: 0 <= i < |rs| && p(rs[i]) {
      var i :| 0 <= i < |rs| && p(rs[i]);
      assert key(rs[i]) == k && other(rs[i]) == d;
    }
  }

  /** The entry built from the aggregated totals is the entry computed
      directly from the records. */
  lemma MakeStatsIsStatsFor(rs: seq<Record>, key: Record -> string, other: Record -> string,
                            time: Record -> real, k: string)
    requires k in AggOf(rs, key, other, time)
    ensures MakeStats(k, AggOf(rs, key, other, time)[k]) == StatsFor(rs, key, other, time, k)
  {
    var a := AggOf(rs, key, other, time)[k];
    AggOfTally(rs, key, other, time, k);
    forall d ensures (d in a.byOther <==> d in OthersOf(rs, key, other, k))
                  && (d in a.byOther ==> a.byOther[d] == TallyOf(rs, Both(KeyIs(key, k), KeyIs(other, d))))
    {
      ByOtherMatches(rs, key, other, time, k, d);
    }
    ByOtherMap(rs, key, other, k, a.byOther);
  }

  /** A per-counterpart map that agrees with the records gives the
      breakdowns computed from the records. */
  lemma ByOtherMap(rs: seq<Record>, key: Record -> string, other: Record -> string, k: string,
                   bo: map<string, Tally>)
    requires forall d :: d in bo <==> d in OthersOf(rs, key, other, k)
    requires forall d :: d in bo ==> bo[d] == TallyOf(rs, Both(KeyIs(key, k), KeyIs(other, d)))
    ensures (map d | d in bo :: BreakdownOf(bo[d]))
            == map d | d in OthersOf(rs, key, other, k) :: BreakdownOf(TallyOf(rs, Both(KeyIs(key, k), KeyIs(other, d))))
  {
  }

  /** Sort order: a higher success rate first. */
  function RateAtLeast(a: Stats, b: Stats): bool {
    a.successRate >= b.successRate
  }

  lemma RateAtLeastTotal()
    ensures TotalPreorder(RateAtLeast)
  {
  }

  /** Names with an entry: those that occur in the records. */
  predicate Occurs(rs: seq<Record>, key: Record -> string, k: string) {
    exists j :: 0 <= j < |rs| && key(rs[j]) == k
  }

  lemma AggKeysOccur(rs: seq<Record>, key: Record -> string, other: Record -> string,
                     time: Record -> real, k: string)
    ensures k in AggOf(rs, key, other, time) <==> Occurs(rs, key, k)
  {
    AggOfTally(rs, key, other, time, k);
    CountIfPositive(rs, KeyIs(key, k));
    if Occurs(rs, key, k) {
      var j :| 0 <= j < |rs| && key(rs[j]) == k;
      assert KeyIs(key, k)(rs[j]);
    }
  }

  /** The statistics list as computeEncoderStats and computeDecoderStats
      return it: one entry per name occurring in the records, each entry
      equal to the statistics computed directly from the records, in
      non-increasing order of success rate. */
  method ComputeStats(rs: seq<Record>, key: Record -> string, other: Record -> string, time: Record -> real)
    returns (stats: seq<Stats>)
    ensures SortedBy(stats, RateAtLeast)
    ensures forall i :: 0 <= i < |stats| ==> stats[i] == StatsFor(rs, key, other, time, stats[i].name)
    ensures forall k :: (exists i :: 0 <= i < |stats| && stats[i].name == k) <==> Occurs(rs, key, k)
    ensures forall i, j :: 0 <= i < j < |stats| ==> stats[i].name != stats[j].name
  {
    var agg := Aggregate(rs, key, other, time);
    var names := MapKeys(agg.Keys);
    var unsorted := StatsList(agg, names);
    StatsFromAgg(rs, key, other, time, names, unsorted);
    stats := SortBy(unsorted, RateAtLeast);
    RateAtLeastTotal();
    SortBySorted(unsorted, RateAtLeast);
    SortByElements(unsorted, RateAtLeast);
    SortedStatsProperties(rs, key, other, time, names, unsorted, stats);
  }

  /** The loop over the aggregated names: one entry per name, in visiting
      order. */
  method StatsList(agg: map<string, Agg>, names: seq<string>) returns (unsorted: seq<Stats>)
    requires forall j :: 0 <= j < |names| ==> names[j] in agg
    ensures |unsorted| == |names|
    ensures forall j :: 0 <= j < |names| ==> unsorted[j] == MakeStats(names[j], agg[names[j]])
  {
    unsorted := [];
    for i := 0 to |names|
      invariant |unsorted| == i
      invariant forall j :: 0 <= j < i ==> unsorted[j] == MakeStats(names[j], agg[names[j]])
    {
      var s := BuildStats(names[i], agg[names[i]]);
      unsorted := unsorted + [s];
    }
  }

  /** Entries built from the aggregated map are the entries computed
      directly from the records. */
  lemma StatsFromAgg(rs: seq<Record>, key: Record -> string, other: Record -> string,
                     time: Record -> real, names: seq<string>, unsorted: seq<Stats>)
    requires forall j :: 0 <= j < |names| ==> names[j] in AggOf(rs, key, other, time)
    requires |unsorted| == |names|
    requires forall j :: 0 <= j < |names| ==> unsorted[j] == MakeStats(names[j], AggOf(rs, key, other, time)[names[j]])
    ensures forall j :: 0 <= j < |names| ==> unsorted[j] == StatsFor(rs, key, other, time, names[j])
  {
    forall j | 0 <= j < |names| ensures unsorted[j] == StatsFor(rs, key, other, time, names[j]) {
      MakeStatsIsStatsFor(rs, key, other, time, names[j]);
    }
  }

  lemma SortedStatsProperties(rs: seq<Record>, key: Record -> string, other: Record -> string,
                              time: Record -> real, names: seq<string>, unsorted: seq<Stats>, stats: seq<Stats>)
    requires NoDuplicates(names)
    requires forall x :: x in names <==> x in AggOf(rs, key, other, time)
    requires |unsorted| == |names|
    requires forall j :: 0 <= j < |names| ==> unsorted[j] == StatsFor(rs, key, other, time, names[j])
    requires multiset(stats) == multiset(unsorted)
    ensures forall i :: 0 <= i < |stats| ==> stats[i] == StatsFor(rs, key, other, time, stats[i].name)
    ensures forall k :: (exists i :: 0 <= i < |stats| && stats[i].name == k) <==> Occurs(rs, key, k)
    ensures forall i, j :: 0 <= i < j < |stats| ==> stats[i].name != stats[j].name
  {
    SameElements(stats, unsorted);
    forall i | 0 <= i < |stats| ensures stats[i] == StatsFor(rs, key, other, time, stats[i].name) {
      assert stats[i] in unsorted;
      var j :| 0 <= j < |unsorted| && unsorted[j] == stats[i];
      assert unsorted[j].name == names[j];
    }
    forall k ensures (exists i :: 0 <= i < |stats| && stats[i].name == k) <==> Occurs(rs, key, k) {
      AggKeysOccur(rs, key, other, time, k);
      NamesCovered(rs, key, other, time, names, unsorted, stats, k);
    }
    DistinctNames(rs, key, other, time, names, unsorted, stats);
  }

  lemma NamesCovered(rs: seq<Record>, key: Record -> string, other: Record -> string,
                     time: Record -> real, names: seq<string>, unsorted: seq<Stats>, stats: seq<Stats>, k: string)
    requires |unsorted| == |names|
    requires forall j :: 0 <= j < |names| ==> unsorted[j] == StatsFor(rs, key, other, time, names[j])
    requires forall x :: x in stats <==> x in unsorted
    ensures (exists i :: 0 <= i < |stats| && stats[i].name == k) <==> k in names
  {
    if k in names {
      var j :| 0 <= j < |names| && names[j] == k;
      assert unsorted[j] in stats;
      var i :| 0 <= i < |stats| && stats[i] == unsorted[j];
      assert stats[i].name == k;
    }
    if exists i :: 0 <= i < |stats| && stats[i].name == k {
      var i :| 0 <= i < |stats| && stats[i].name == k;
      assert stats[i] in unsorted;
      var j :| 0 <= j < |unsorted| && unsorted[j] == stats[i];
      assert names[j] == k;
    }
  }

  lemma DistinctNames(rs: seq<Record>, key: Record -> string, other: Record -> string,
                      time: Record -> real, names: seq<string>, unsorted: seq<Stats>, stats: seq<Stats>)
    requires NoDuplicates(names)
    requires |unsorted| == |names|
    requires forall j :: 0 <= j < |names| ==> unsorted[j] == StatsFor(rs, key, other, time, names[j])
    requires multiset(stats) == multiset(unsorted)
    requires forall i :: 0 <= i < |stats| ==> stats[i] == StatsFor(rs, key, other, time, stats[i].name)
    ensures forall i, j :: 0 <= i < j < |stats| ==> stats[i].name != stats[j].name
  {
    assert NoDuplicates(unsorted) by {
      forall i, j | 0 <= i < j < |unsorted| ensures unsorted[i] != unsorted[j] {
        assert unsorted[i].name == names[i] && unsorted[j].name == names[j];
      }
    }
    NoDuplicatesPermutation(unsorted, stats);
    forall i, j | 0 <= i < j < |stats| ensures stats[i].name != stats[j].name {
      assert stats[i] != stats[j];
    }
  }

  // ---------------------------------------------------------------------
  // Sums

  function SumTotals(stats: seq<Stats>): int {
    if stats == [] then 0 else SumTotals(stats[..|stats| - 1]) + stats[|stats| - 1].totalTests
  }

  function Names(stats: seq<Stats>): (ns: seq<string>)
    ensures |ns| == |stats| && forall i :: 0 <= i < |stats| ==> ns[i] == stats[i].name
  {
    seq(|stats|, i requires 0 <= i < |stats| => stats[i].name)
  }

  lemma {:induction false} SumTotalsCounts(rs: seq<Record>, key: Record -> string, other: Record -> string,
                                           time: Record -> real, stats: seq<Stats>)
    requires forall i :: 0 <= i < |stats| ==> stats[i] == StatsFor(rs, key, other, time, stats[i].name)
    ensures SumTotals(stats) == SumCounts(rs, Names(stats), key, AnyRecord())
  {
    if stats != [] {
      var init := stats[..|stats| - 1];
      var s := stats[|stats| - 1];
      SumTotalsCounts(rs, key, other, time, init);
      assert Names(stats)[..|stats| - 1] == Names(init);
      CountIfExt(rs, KeyIs(key, s.name), Both(AnyRecord(), KeyIs(key, s.name)));
    }
  }

  /** Every record is counted under exactly one name: the entries' test
      counts add up to the number of records. */
  lemma TotalsSumToRecords(rs: seq<Record>, key: Record -> string, other: Record -> string,
                           time: Record -> real, stats: seq<Stats>)
    requires forall i :: 0 <= i < |stats| ==> stats[i] == StatsFor(rs, key, other, time, stats[i].name)
    requires forall k :: (exists i :: 0 <= i < |stats| && stats[i].name == k) <==> Occurs(rs, key, k)
    requires forall i, j :: 0 <= i < j < |stats| ==> stats[i].name != stats[j].name
    ensures SumTotals(stats) == |rs|
  {
    SumTotalsCounts(rs, key, other, time, stats);
    var ns := Names(stats);
    NamesCover(rs, key, stats);
    CountPartition(rs, ns, key, AnyRecord());
    CountAll(rs);
  }

  /** The names of entries, one per name occurring in the records, are
      distinct and cover every record. */
  lemma NamesCover(rs: seq<Record>, key: Record -> string, stats: seq<Stats>)
    requires forall k :: (exists i :: 0 <= i < |stats| && stats[i].name == k) <==> Occurs(rs, key, k)
    requires forall i, j :: 0 <= i < j < |stats| ==> stats[i].name != stats[j].name
    ensures NoDuplicates(Names(stats))
    ensures forall i :: 0 <= i < |rs| ==> key(rs[i]) in Names(stats)
  {
    var ns := Names(stats);
    forall i | 0 <= i < |rs| ensures key(rs[i]) in ns {
      assert Occurs(rs, key, key(rs[i]));
      var j :| 0 <= j < |stats| && stats[j].name == key(rs[i]);
      assert ns[j] == key(rs[i]);
    }
  }

  /** Test counts of the listed counterparts of an entry. */
  function SumTests(bo: map<string, Breakdown>, ds: seq<string>): int
    requires forall i :: 0 <= i < |ds| ==> ds[i] in bo
  {
    if ds == [] then 0 else SumTests(bo, ds[..|ds| - 1]) + bo[ds[|ds| - 1]].tests
  }

  lemma {:induction false} SumTestsCounts(rs: seq<Record>, key: Record -> string, other: Record -> string,
                                          time: Record -> real, k: string, ds: seq<string>)
    requires forall i :: 0 <= i < |ds| ==> ds[i] in StatsFor(rs, key, other, time, k).byOther
    ensures SumTests(StatsFor(rs, key, other, time, k).byOther, ds) == SumCounts(rs, ds, other, KeyIs(key, k))
  {
    if ds != [] {
      SumTestsCounts(rs, key, other, time, k, ds[..|ds| - 1]);
    }
  }

  /** Within one entry, the counterparts' test counts add up to the entry's
      test count, whatever order the counterparts are listed in. */
  lemma BreakdownSumsToTotal(rs: seq<Record>, key: Record -> string, other: Record -> string,
                             time: Record -> real, k: string, ds: seq<string>)
    requires NoDuplicates(ds)
    requires forall d :: d in ds <==> d in StatsFor(rs, key, other, time, k).byOther
    ensures SumTests(StatsFor(rs, key, other, time, k).byOther, ds) == StatsFor(rs, key, other, time, k).totalTests
  {
    SumTestsCounts(rs, key, other, time, k, ds);
    forall i | 0 <= i < |rs| && KeyIs(key, k)(rs[i]) ensures other(rs[i]) in ds {
      assert other(rs[i]) in OthersOf(rs, key, other, k);
    }
    CountPartition(rs, ds, other, KeyIs(key, k));
  }

  // ---------------------------------------------------------------------
  // The two entry points

  function EncoderName(r: Record): string { r.encoder }
  function DecoderName(r: Record): string { r.decoder }
  function EncodeMs(r: Record): real { r.encodeTimeMs }
  function DecodeMs(r: Record): real { r.decodeTimeMs }

  /** computeEncoderStats: grouped by encoder, broken down by decoder,
      averaging encode times. */
  method ComputeEncoderStats(rs: seq<Record>) returns (stats: seq<Stats>)
    ensures SortedBy(stats, RateAtLeast)
    ensures forall i :: 0 <= i < |stats| ==> stats[i] == StatsFor(rs, EncoderName, DecoderName, EncodeMs, stats[i].name)
    ensures forall k :: (exists i :: 0 <= i < |stats| && stats[i].name == k) <==> Occurs(rs, EncoderName, k)
    ensures forall i, j :: 0 <= i < j < |stats| ==> stats[i].name != stats[j].name
    ensures SumTotals(stats) == |rs|
  {
    stats := ComputeStats(rs, EncoderName, DecoderName, EncodeMs);
    TotalsSumToRecords(rs, EncoderName, DecoderName, EncodeMs, stats);
  }

  /** computeDecoderStats: grouped by decoder, broken down by encoder,
      averaging decode times. */
  method ComputeDecoderStats(rs: seq<Record>) returns (stats: seq<Stats>)
    ensures SortedBy(stats, RateAtLeast)
    ensures forall i :: 0 <= i < |stats| ==> stats[i] == StatsFor(rs, DecoderName, EncoderName, DecodeMs, stats[i].name)
    ensures forall k :: (exists i :: 0 <= i < |stats| && stats[i].name == k) <==> Occurs(rs, DecoderName, k)
    ensures forall i, j :: 0 <= i < j < |stats| ==> stats[i].name != stats[j].name
    ensures SumTotals(stats) == |rs|
  {
    stats := ComputeStats(rs, DecoderName, EncoderName, DecodeMs);
    TotalsSumToRecords(rs, DecoderName, EncoderName, DecodeMs, stats);
  }
}

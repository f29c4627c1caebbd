/** The summary of the site: overall counts and rate, the best encoder and
    decoder (the heads of their sorted lists), the best pair and the list
    sizes. The generation timestamp is not part of this model. */
module SiteSummary {
  import opened Common
  import opened SiteData
  import SiteStats
  import SiteCombinations

  datatype SummaryData = SummaryData(
    totalTests: int,
    totalSuccesses: int,
    capacitySkips: int,
    effectiveTests: int,
    overallRate: real,
    bestEncoder: string,
    bestDecoder: string,
    bestCombination: SiteCombinations.BestCombination,
    encoderCount: int,
    decoderCount: int)

  /** The name at the head of a statistics list, or "" for an empty list. */
  function HeadName(stats: seq<SiteStats.Stats>): string {
    if |stats| > 0 then stats[0].name else ""
  }

  /** computeSummary: the records, their successes and their capacity
      skips; effective tests and the overall rate as everywhere else; the
      heads of the encoder and decoder lists; the best pair as computed with
      the pair table; and the sizes of the lists. */
  method ComputeSummary(rs: seq<Record>, encoders: seq<SiteStats.Stats>, decoders: seq<SiteStats.Stats>,
                        combinations: SiteCombinations.CombinationsData)
    returns (s: SummaryData)
    ensures s.totalTests == |rs|
    ensures s.totalSuccesses == TallyOf(rs, AnyRecord()).successes
    ensures s.capacitySkips == TallyOf(rs, AnyRecord()).capacitySkips
    ensures s.effectiveTests == s.totalTests - s.capacitySkips
    ensures s.overallRate == Rate(s.totalSuccesses, s.effectiveTests)
    ensures s.bestEncoder == HeadName(encoders) && s.bestDecoder == HeadName(decoders)
    ensures s.bestCombination == combinations.best
    ensures s.encoderCount == |encoders| && s.decoderCount == |decoders|
  {
    var total := |rs|;
    var successes := 0;
    var capacitySkips := 0;
    for i := 0 to |rs|
      invariant successes == CountIf(rs[..i], Succeeded(AnyRecord()))
      invariant capacitySkips == CountIf(rs[..i], Skipped(AnyRecord()))
    {
      assert rs[..i + 1][..i] == rs[..i];
      if rs[i].success {
        successes := successes + 1;
      }
      if rs[i].isCapacityExceeded {
        capacitySkips := capacitySkips + 1;
      }
    }
    assert rs[..|rs|] == rs;
    var effectiveTests := total - capacitySkips;
    var rate := 0.0;
    if effectiveTests > 0 {
      rate := successes as real / effectiveTests as real * 100.0;
    }
    var bestEncoder := "";
    if |encoders| > 0 {
      bestEncoder := encoders[0].name;
    }
    var bestDecoder := "";
    if |decoders| > 0 {
      bestDecoder := decoders[0].name;
    }
    CountAll(rs);
    s := SummaryData(total, successes, capacitySkips, effectiveTests, rate, bestEncoder, bestDecoder,
                     combinations.best, |encoders|, |decoders|);
  }

  /** For a statistics list as computeEncoderStats or computeDecoderStats
      returns it: with no records the list is empty and the head name is "";
      with records the head name is a name that occurs in them (possibly ""
      itself); and no entry has a higher rate than the head. */
  lemma HeadIsBest(rs: seq<Record>, key: Record -> string, stats: seq<SiteStats.Stats>)
    requires SortedBy(stats, SiteStats.RateAtLeast)
    requires forall k :: (exists i :: 0 <= i < |stats| && stats[i].name == k) <==> SiteStats.Occurs(rs, key, k)
    ensures rs == [] ==> HeadName(stats) == "" && stats == []
    ensures rs != [] ==> SiteStats.Occurs(rs, key, HeadName(stats))
    ensures forall i :: 0 <= i < |stats| ==> stats[i].successRate <= stats[0].successRate
  {
    if rs != [] {
      assert SiteStats.Occurs(rs, key, key(rs[0]));
      var i :| 0 <= i < |stats| && stats[i].name == key(rs[0]);
      assert stats[0].name == HeadName(stats);
    } else {
      assert forall i :: 0 <= i < |stats| ==> !SiteStats.Occurs(rs, key, stats[i].name);
    }
    forall i | 0 < i < |stats| ensures stats[i].successRate <= stats[0].successRate {
      assert SiteStats.RateAtLeast(stats[0], stats[i]);
    }
  }
}

/**
 * The fixed configuration of the newer preprocessing code: the statistic
 * metadata table (whose keys are the statistic set) and the string-to-code
 * encoding table per categorical dimension, with its reverse table. The
 * downstream ingest service hard-codes these integers, so they are constants.
 */
module Luts {
  import opened Wrappers
  import opened Ordering

  datatype StatMeta = StatMeta(
    category: string,
    codeBase: string,
    differenceMethod: string,
    description: string,
    units: string)

  /**
   * `stat_vars_dict`: each statistic with its metadata, in the dictionary's
   * key order, one literal per category. The keys are distinct.
   */
  const StatVars: seq<(string, StatMeta)> := DurationStats + FrequencyStats + MagnitudeStats + RateStats + TimingStats

  const DurationStats: seq<(string, StatMeta)> := [
    ("dh1", StatMeta("duration", "mhit", "ratio", "Annual maximum daily flow. Compute the maximum of a 1-day moving average flow for each year. DH1 is the median of these values (cubic feet per second - temporal).", "cfs")),
    ("dh2", StatMeta("duration", "mhit", "ratio", "Annual maximum of 3-day moving average flows. Compute the maximum of a 3-day moving average flow for each year. DH2 is the median of these values (cubic feet per second - temporal).", "cfs")),
    ("dh3", StatMeta("duration", "mhit", "ratio", "Annual maximum of 7-day moving average flows. Compute the maximum of a 7-day moving average flow for each year. DH3 is the median of these values (cubic feet per second - temporal).", "cfs")),
    ("dh4", StatMeta("duration", "mhit", "ratio", "Annual maximum of 30-day moving average flows. Compute the maximum of 30-day moving average flows. Compute the maximum of a 30-day moving average flow for each year. DH4 is the median of these values (cubic feet per second - temporal).", "cfs")),
    ("dh5", StatMeta("duration", "mhit", "ratio", "Annual maximum of 90-day moving average flows. Compute the maximum of a 90-day moving average flow for each year. DH5 is the median of these values (cubic feet per second - temporal).", "cfs")),
    ("dh15", StatMeta("duration", "mhit", "ratio", "High flow pulse duration. Compute the average duration for flow events with flows above a threshold equal to the 75th percentile value for each year in the flow record. DH15 is the median of the yearly average durations (days/year - temporal).", "days/year")),
    ("dl1", StatMeta("duration", "mhit", "ratio", "Annual minimum daily flow. Compute the minimum 1-day average flow for each year. DL1 is the median of these values (cubic feet per second - temporal).", "cfs")),
    ("dl2", StatMeta("duration", "mhit", "ratio", "Annual minimum of 3-day moving average flow. Compute the minimum of a 3-day moving average flow for each year. DL2 is the median of these values (cubic feet per second - temporal).", "cfs")),
    ("dl3", StatMeta("duration", "mhit", "ratio", "Annual minimum of 7-day moving average flow. Compute the minimum of a 7-day moving average flow for each year. DL3 is the median of these values (cubic feet per second - temporal).", "cfs")),
    ("dl4", StatMeta("duration", "mhit", "ratio", "Annual minimum of 30-day moving average flow. Compute the minimum of a 30-day moving average flow for each year. DL4 is the median of these values (cubic feet per second - temporal).", "cfs")),
    ("dl5", StatMeta("duration", "mhit", "ratio", "Annual minimum of 90-day moving average flow. Compute the minimum of a 90-day moving average flow for each year. DL5 is the median of these values (cubic feet per second - temporal).", "cfs")),
    ("dl16", StatMeta("duration", "mhit", "ratio", "Low flow pulse duration. Compute the average pulse duration for each year for flow events below a threshold equal to the 25th percentile value for the entire flow record. DL16 is the median of the yearly average durations (days/year - temporal).", "days/year")),
    ("lf1", StatMeta("duration", "matlab", "absolute", "Number of days per year below a threshold of 0.1 cubic feet per second per square mile. LF1 is the median annual number of days below the threshold (number of days/year - temporal).", "days/year")),
    ("spr_dur3", StatMeta("duration", "matlab", "ratio", "Spring (April-June) maximum of 3-day moving average flows. Compute the maximum of a 3-day moving average flow for each year. SPR_DUR3 is the median of these values (cubic feet per second - temporal).", "cfs")),
    ("spr_dur7", StatMeta("duration", "matlab", "ratio", "Spring (April-June) maximum of 7-day moving average flows. Compute the maximum of a 7-day moving average flow for each year. SPR_DUR7 is the median of these values (cubic feet per second - temporal).", "cfs")),
    ("sum_dur3", StatMeta("duration", "matlab", "ratio", "Summer (July-September) minimum of 3-day moving average flow. Compute the minimum of a 3-day moving average flow for each year. SUM_DUR3 is the median of these values (cubic feet per second - temporal).", "cfs")),
    ("sum_dur7", StatMeta("duration", "matlab", "ratio", "Summer (July-September) minimum of 7-day moving average flow. Compute the minimum of a 7-day moving average flow for each year. SUM_DUR7 is the median of these values (cubic feet per second - temporal).", "cfs"))]

  const FrequencyStats: seq<(string, StatMeta)> := [
    ("fh1", StatMeta("frequency", "mhit", "absolute", "High flood pulse count. Compute the average number of flow events with flows above a threshold equal to the 75th percentile value for the entire flow record. FH1 is the median number of events (number of events/year - temporal).", "events/year")),
    ("fh5", StatMeta("frequency", "mhit", "absolute", "Flood frequency. Compute the average number of flow events with flows above a threshold equal to the median flow value for the entire flow record. FH5 is the median number of events (number of events/year - temporal).", "events/year")),
    ("fh6", StatMeta("frequency", "mhit", "absolute", "Flood frequency. Compute the average number of flow events with flows above a threshold equal to three times the median flow value for the entire flow record. FH6 is the median number of events (number of events/year - temporal).", "events/year")),
    ("fh7", StatMeta("frequency", "mhit", "absolute", "Flood frequency. Compute the average number of flow events with flows above a threshold equal to seven times the median flow value for the entire flow record. FH7 is the median number of events (number of events/year - temporal).", "events/year")),
    ("fl1", StatMeta("frequency", "mhit", "absolute", "Low flood pulse count. Compute the average number of flow events with flows below a threshold equal to the 25th percentile value for the entire flow record. FL1 is the median number of events (number of events/year - temporal).", "events/year")),
    ("fl3", StatMeta("frequency", "mhit", "absolute", "Frequency of low pulse spells. Compute the average number of flow events with flows below a threshold equal to 5 percent of the mean flow value for the entire flow record. FL3 is the median number of events (number of events/year - temporal).", "events/year")),
    ("spr_freq", StatMeta("frequency", "matlab", "absolute", "Flood frequency for April-June. Compute the average number of flow events with flows above a threshold equal to the 10th percentile for the entire flow record. SPR_FREQ is the median number of events (number of events/year - temporal).", "events/year")),
    ("sum_freq", StatMeta("frequency", "matlab", "absolute", "Flood frequency for July-September. Compute the average number of flow events with flows below a threshold equal to the 90th percentile for the entire flow record. SUM_FREQ is the median number of events (number of events/year - temporal).", "events/year"))]

  const MagnitudeStats: seq<(string, StatMeta)> := [
    ("ma3", StatMeta("magnitude", "mhit", "ratio", "Coefficient of variation (standard deviation/mean) for each year. Compute the coefficient of variation for each year of daily flows. Compute the median of the annual coefficients of variation (percent - temporal).", "percent")),
    ("ma4", StatMeta("magnitude", "mhit", "ratio", "Standard deviation of the percentiles of the logs of the entire flow record divided by the mean of percentiles of the logs. Compute the log10 of the daily flows for the entire record. Compute the 5th, 10th, 15th, 20th, 25th, 30th, 35th, 40th, 45th, 50th, 55th, 60th, 65th, 70th, 75th, 80th, 85th, 90th, and 95th percentiles for the logs of the entire flow record. Percentiles are computed by interpolating between the ordered (ascending) logs of the flow values. Compute the standard deviation and mean for the percentile values. Divide the standard deviation by the mean (percent - spatial).", "percent")),
    ("ma12", StatMeta("magnitude", "mhit", "ratio", "Mean of monthly flow values for January.", "cfs")),
    ("ma13", StatMeta("magnitude", "mhit", "ratio", "Mean of monthly flow values for February.", "cfs")),
    ("ma14", StatMeta("magnitude", "mhit", "ratio", "Mean of monthly flow values for March.", "cfs")),
    ("ma15", StatMeta("magnitude", "mhit", "ratio", "Mean of monthly flow values for April.", "cfs")),
    ("ma16", StatMeta("magnitude", "mhit", "ratio", "Mean of monthly flow values for May.", "cfs")),
    ("ma17", StatMeta("magnitude", "mhit", "ratio", "Mean of monthly flow values for June.", "cfs")),
    ("ma18", StatMeta("magnitude", "mhit", "ratio", "Mean of monthly flow values for July.", "cfs")),
    ("ma19", StatMeta("magnitude", "mhit", "ratio", "Mean of monthly flow values for August.", "cfs")),
    ("ma20", StatMeta("magnitude", "mhit", "ratio", "Mean of monthly flow values for September.", "cfs")),
    ("ma21", StatMeta("magnitude", "mhit", "ratio", "Mean of monthly flow values for October.", "cfs")),
    ("ma22", StatMeta("magnitude", "mhit", "ratio", "Mean of monthly flow values for November.", "cfs")),
    ("ma23", StatMeta("magnitude", "mhit", "ratio", "Mean of monthly flow values for December.", "cfs")),
    ("mh14", StatMeta("magnitude", "mhit", "ratio", "Median of annual maximum flows. Compute the annual maximum flows from monthly maximum flows. Compute the ratio of annual maximum flow to median annual flow for each year. MH14 is the median of these ratios (dimensionless - temporal).", "dimensionless")),
    ("mh20", StatMeta("magnitude", "mhit", "ratio", "Specific mean annual maximum flow. MH20 is the median of the annual maximum flows divided by the drainage area (cubic feet per second/square mile - temporal).", "cfs/square_mile")),
    ("ml17", StatMeta("magnitude", "mhit", "ratio", "Base flow. Compute the mean annual flows. Compute the minimum of a 7-day moving average flow for each year and divide them by the mean annual flow for that year. ML17 is the median of those ratios (dimensionless - temporal).", "dimensionless")),
    ("spr_mag", StatMeta("magnitude", "matlab", "ratio", "Specific mean spring (April-June) maximum flow. MH20 is the median of the annual maximum flows divided by the drainage area (cubic feet per second/square mile - temporal).", "cfs/square_mile")),
    ("sum_cv", StatMeta("magnitude", "matlab", "ratio", "Coefficient of variation (standard deviation/mean) for each year for the summer (July-September). Compute the coefficient of variation for each year of daily flows. Compute the median of the annual coefficients of variation (percent - temporal).", "percent")),
    ("sum_mag", StatMeta("magnitude", "matlab", "ratio", "Minimum of the summer (July-September) flows divided by the drainage area (cubic feet per second/square mile - temporal).", "cfs/square_mile"))]

  const RateStats: seq<(string, StatMeta)> := [
    ("ra1", StatMeta("rate_of_change", "mhit", "ratio", "Rise rate. Compute the change in flow for days in which the change is positive for the entire flow record. RA1 is the median of these values (cubic feet per second/day - temporal).", "cfs/day")),
    ("ra3", StatMeta("rate_of_change", "mhit", "ratio", "Fall rate. Compute the change in flow for days in which the change is negative for the entire flow record. RA3 is the median of these values (cubic feet per second/day - temporal).", "cfs/day")),
    ("ra9", StatMeta("rate_of_change", "mhit", "ratio", "Number of reversals. Compute the number of days in each year when the change in flow from one day to the next changes direction. RA8 is the median of the yearly values (days - temporal).", "days/year"))]

  const TimingStats: seq<(string, StatMeta)> := [
    ("spr_ord", StatMeta("timing", "matlab", "absolute", "Julian date of spring (April-June) maximum. Determine the Julian date that the maximum flow occurs for each year. SPR_ORD is the median of these values (Julian day - temporal).", "day")),
    ("sum_ord", StatMeta("timing", "matlab", "absolute", "Julian date of summer (July-September) minimum. Determine the Julian date that the minimum flow occurs for each water year. SUM_ORD is the median of these values (Julian day - temporal).", "day")),
    ("th1", StatMeta("timing", "mhit", "absolute", "Julian date of annual maximum. Determine the Julian date that the maximum flow occurs for each year. TH1 is the median of these values (Julian day - temporal).", "day")),
    ("tl1", StatMeta("timing", "mhit", "absolute", "Julian date of annual minimum. Determine the Julian date that the minimum flow occurs for each water year. TL1 is the median of these values (Julian day - temporal).", "day"))]

  /** The statistic set: `list(stat_vars_dict.keys())`. */
  const StatKeys: seq<string> := KeysOf(StatVars)

  function KeysOf(d: seq<(string, StatMeta)>): (keys: seq<string>)
    ensures |keys| == |d| && forall i :: 0 <= i < |d| ==> keys[i] == d[i].0
  {
    if d == [] then [] else [d[0].0] + KeysOf(d[1..])
  }

  /** `stat_vars_dict[key]`; None where the dictionary raises KeyError. */
  function StatInfo(key: string): Option<StatMeta>
  {
    Find(StatVars, key)
  }

  /** The value of the first entry of `d` with the given key, if any. */
  function Find(d: seq<(string, StatMeta)>, key: string): (r: Option<StatMeta>)
    ensures r.Some? <==> exists i :: 0 <= i < |d| && d[i].0 == key
    ensures r.Some? ==> exists i :: 0 <= i < |d| && d[i] == (key, r.value)
  {
    if d == [] then None
    else if d[0].0 == key then Some(d[0].1)
    else
      var r := Find(d[1..], key);
      assert forall i :: 0 < i < |d| ==> d[i] == d[1..][i - 1];
      r
  }

  /** Every statistic has an entry, so its description and units can be read. */
  lemma StatInfoCoversKeys()
    ensures forall k :: 0 <= k < |StatKeys| ==> StatInfo(StatKeys[k]).Some?
  {
    forall k | 0 <= k < |StatKeys| ensures StatInfo(StatKeys[k]).Some? {
      assert StatVars[k].0 == StatKeys[k];
    }
  }

  const LandcoverCodes: map<string, int> := map["dynamic" := 0, "static" := 1]

  const ModelCodes: map<string, int> := map[
    "ACCESS1-0" := 0, "bcc-csm1-1" := 1, "BNU-ESM" := 2, "CCSM4" := 3,
    "GFDL-ESM2G" := 4, "GFDL-ESM2M" := 5, "IPSL-CM5A-LR" := 6, "IPSL-CM5A-MR" := 7,
    "Maurer" := 8, "MIROC5" := 9, "MIROC-ESM" := 10, "MIROC-ESM-CHEM" := 11,
    "MRI-CGCM3" := 12, "NorESM1-M" := 13]

  const ScenarioCodes: map<string, int> := map[
    "historical" := 0, "rcp26" := 1, "rcp45" := 2, "rcp60" := 3, "rcp85" := 4]

  const EraCodes: map<string, int> := map[
    "1976_2005" := 0, "2016_2045" := 1, "2046_2075" := 2, "2071_2100" := 3]

  /** `encodings_lookup`, keyed by dimension name. */
  const EncodingsLookup: map<string, map<string, int>> := map[
    "landcover" := LandcoverCodes, "model" := ModelCodes,
    "scenario" := ScenarioCodes, "era" := EraCodes]

  /** `reverse_encodings_lookup`, attached to the dataset as attributes. */
  const ReverseEncodingsLookup: map<string, map<int, string>> := map[
    "landcover" := map[0 := "dynamic", 1 := "static"],
    "model" := map[
      0 := "ACCESS1-0", 1 := "bcc-csm1-1", 2 := "BNU-ESM", 3 := "CCSM4",
      4 := "GFDL-ESM2G", 5 := "GFDL-ESM2M", 6 := "IPSL-CM5A-LR", 7 := "IPSL-CM5A-MR",
      8 := "Maurer", 9 := "MIROC5", 10 := "MIROC-ESM", 11 := "MIROC-ESM-CHEM",
      12 := "MRI-CGCM3", 13 := "NorESM1-M"],
    "scenario" := map[0 := "historical", 1 := "rcp26", 2 := "rcp45", 3 := "rcp60", 4 := "rcp85"],
    "era" := map[0 := "1976_2005", 1 := "2016_2045", 2 := "2046_2075", 3 := "2071_2100"]]

  /** The four categorical dimensions, in the order the dataset declares them. */
  const CategoricalDims: seq<string> := ["landcover", "model", "scenario", "era"]

  /** Decoding an encoded label gives the label back. */
  ghost predicate DecodesEncoded(fwd: map<string, int>, rev: map<int, string>)
  {
    forall name :: name in fwd ==> fwd[name] in rev && rev[fwd[name]] == name
  }

  /** Encoding a decoded code gives the code back. */
  ghost predicate EncodesDecoded(fwd: map<string, int>, rev: map<int, string>)
  {
    forall code :: code in rev ==> rev[code] in fwd && fwd[rev[code]] == code
  }

  /** `rev` undoes `fwd` and `fwd` undoes `rev`. */
  ghost predicate ExactInverse(fwd: map<string, int>, rev: map<int, string>)
  {
    DecodesEncoded(fwd, rev) && EncodesDecoded(fwd, rev)
  }

  /** The codes of a table are exactly 0, 1, ..., n - 1. */
  ghost predicate CodesAreRange(fwd: map<string, int>, n: nat)
  {
    && (forall name :: name in fwd ==> 0 <= fwd[name] < n)
    && (forall code :: 0 <= code < n ==> code in fwd.Values)
  }

  /** Distinct labels get distinct codes. */
  ghost predicate Injective(fwd: map<string, int>)
  {
    forall a, b :: a in fwd && b in fwd && a != b ==> fwd[a] != fwd[b]
  }

  lemma LandcoverIsBijective()
    ensures ExactInverse(LandcoverCodes, ReverseEncodingsLookup["landcover"])
  {
  }

  lemma ModelDecodesEncoded()
    ensures DecodesEncoded(ModelCodes, ReverseEncodingsLookup["model"])
  {
  }

  lemma ModelEncodesDecoded()
    ensures EncodesDecoded(ModelCodes, ReverseEncodingsLookup["model"])
  {
    var rev := ReverseEncodingsLookup["model"];
    assert forall code :: code in rev ==> 0 <= code < 14;
    ModelEncodesDecodedFrom0();
    ModelEncodesDecodedFrom2();
    ModelEncodesDecodedFrom4();
    ModelEncodesDecodedFrom7();
  }

  lemma ModelEncodesDecodedFrom0()
    ensures var rev := ReverseEncodingsLookup["model"];
      forall code :: 0 <= code < 2 ==> code in rev && rev[code] in ModelCodes && ModelCodes[rev[code]] == code
  {
  }

  lemma ModelEncodesDecodedFrom2()
    ensures var rev := ReverseEncodingsLookup["model"];
      forall code :: 2 <= code < 4 ==> code in rev && rev[code] in ModelCodes && ModelCodes[rev[code]] == code
  {
  }

  lemma ModelEncodesDecodedFrom4()
    ensures var rev := ReverseEncodingsLookup["model"];
      forall code :: 4 <= code < 7 ==> code in rev && rev[code] in ModelCodes && ModelCodes[rev[code]] == code
  {
  }

  lemma ModelEncodesDecodedFrom7()
    ensures var rev := ReverseEncodingsLookup["model"];
      forall code :: 7 <= code < 14 ==> code in rev && rev[code] in ModelCodes && ModelCodes[rev[code]] == code
  {
  }

  lemma ModelIsBijective()
    ensures ExactInverse(ModelCodes, ReverseEncodingsLookup["model"])
  {
    ModelDecodesEncoded();
    ModelEncodesDecoded();
  }

  lemma ScenarioDecodesEncoded()
    ensures DecodesEncoded(ScenarioCodes, ReverseEncodingsLookup["scenario"])
  {
  }

  lemma ScenarioEncodesDecoded()
    ensures EncodesDecoded(ScenarioCodes, ReverseEncodingsLookup["scenario"])
  {
  }

  lemma ScenarioIsBijective()
    ensures ExactInverse(ScenarioCodes, ReverseEncodingsLookup["scenario"])
  {
    ScenarioDecodesEncoded();
    ScenarioEncodesDecoded();
  }

  lemma EraIsBijective()
    ensures ExactInverse(EraCodes, ReverseEncodingsLookup["era"])
  {
  }

  /** Both tables cover exactly the four categorical dimensions. */
  lemma TablesCoverCategoricalDims()
    ensures forall d :: d in EncodingsLookup <==> d in CategoricalDims
    ensures forall d :: d in ReverseEncodingsLookup <==> d in CategoricalDims
  {
  }

  /** For every dimension the reverse table undoes the encoding and vice versa. */
  lemma EncodingsAreBijective()
    ensures forall d :: d in EncodingsLookup ==> ExactInverse(EncodingsLookup[d], ReverseEncodingsLookup[d])
  {
    forall d | d in EncodingsLookup
      ensures ExactInverse(EncodingsLookup[d], ReverseEncodingsLookup[d])
    {
      if d == "landcover" {
        LandcoverIsBijective();
      } else if d == "model" {
        ModelIsBijective();
      } else if d == "scenario" {
        ScenarioIsBijective();
      } else {
        EraIsBijective();
      }
    }
  }

  lemma EncodingsAreInjective()
    ensures forall d :: d in EncodingsLookup ==> Injective(EncodingsLookup[d])
  {
    EncodingsAreBijective();
  }

  /** A table whose reverse table is keyed 0..n-1 has exactly the codes 0..n-1. */
  lemma {:induction false} RangeFromReverse(fwd: map<string, int>, rev: map<int, string>, n: nat)
    requires ExactInverse(fwd, rev)
    requires forall code :: code in rev <==> 0 <= code < n
    ensures CodesAreRange(fwd, n)
  {
    forall code | 0 <= code < n
      ensures code in fwd.Values
    {
      assert rev[code] in fwd && fwd[rev[code]] == code;
    }
  }

  lemma CodeRanges()
    ensures LandcoverCodes["dynamic"] == 0 && LandcoverCodes["static"] == 1
    ensures CodesAreRange(LandcoverCodes, 2)
    ensures CodesAreRange(ModelCodes, 14) && ModelCodes["Maurer"] == 8
    ensures CodesAreRange(ScenarioCodes, 5)
    ensures CodesAreRange(EraCodes, 4)
  {
    LandcoverRange();
    ModelRange();
    ScenarioRange();
    EraRange();
  }

  lemma LandcoverRange()
    ensures CodesAreRange(LandcoverCodes, 2)
  {
    LandcoverIsBijective();
    RangeFromReverse(LandcoverCodes, ReverseEncodingsLookup["landcover"], 2);
  }

  lemma ModelRange()
    ensures CodesAreRange(ModelCodes, 14)
  {
    ModelIsBijective();
    RangeFromReverse(ModelCodes, ReverseEncodingsLookup["model"], 14);
  }

  lemma ScenarioRange()
    ensures CodesAreRange(ScenarioCodes, 5)
  {
    ScenarioIsBijective();
    RangeFromReverse(ScenarioCodes, ReverseEncodingsLookup["scenario"], 5);
  }

  lemma EraRange()
    ensures CodesAreRange(EraCodes, 4)
  {
    EraIsBijective();
    RangeFromReverse(EraCodes, ReverseEncodingsLookup["era"], 4);
  }

  /** An era key is two four-digit years joined by an underscore, the form file names carry. */
  predicate IsEraKey(k: string)
  {
    |k| == 9 && k[4] == '_' && forall i :: 0 <= i < 9 && i != 4 ==> '0' <= k[i] <= '9'
  }

  lemma EraKeysAreYearPairs()
    ensures forall k :: k in EraCodes ==> IsEraKey(k)
  {
  }
}

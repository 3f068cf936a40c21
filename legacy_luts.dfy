/**
 * The fixed configuration of the older preprocessing code (luts.py): a
 * smaller statistic table without units, and an encoding table whose
 * landcover dimension is called "lc" and which has no "Maurer" model. It
 * has no reverse table.
 */
module LegacyLuts {
  import opened Wrappers
  import Luts

  datatype StatMeta = StatMeta(
    category: string,
    codeBase: string,
    differenceMethod: string,
    description: string)

  /** The statistic set: the keys of `stat_vars_dict`, in its key order. */
  const StatKeys: seq<string> := [
    "dh3", "dh15", "dl3", "dl16", "fh1", "fl1", "fl3", "ma12", "ma13", "ma14", "ma15", "ma16",
    "ma17", "ma18", "ma19", "ma20", "ma21", "ma22", "ma23", "ra1", "ra3", "th1", "tl1"]

  /** `stat_vars_dict[key]`; None where the dictionary raises KeyError. */
  function StatInfo(key: string): Option<StatMeta>
  {
    match key
    case "dh3" => Some(StatMeta("duration", "mhit", "ratio", "Annual maximum of 7-day moving average flows. Compute the maximum of a 7-day moving average flow for each year. DH3 is the median of these values (cubic feet per second - temporal)."))
    case "dh15" => Some(StatMeta("duration", "mhit", "ratio", "High flow pulse duration. Compute the average duration for flow events with flows above a threshold equal to the 75th percentile value for each year in the flow record. DH15 is the median of the yearly average durations (days/year - temporal)."))
    case "dl3" => Some(StatMeta("duration", "mhit", "ratio", "Annual minimum of 7-day moving average flow. Compute the minimum of a 7-day moving average flow for each year. DL3 is the median of these values (cubic feet per second - temporal)."))
    case "dl16" => Some(StatMeta("duration", "mhit", "ratio", "Low flow pulse duration. Compute the average pulse duration for each year for flow events below a threshold equal to the 25th percentile value for the entire flow record. DL16 is the median of the yearly average durations (days/year - temporal)."))
    case "fh1" => Some(StatMeta("frequency", "mhit", "absolute", "High flood pulse count. Compute the average number of flow events with flows above a threshold equal to the 75th percentile value for the entire flow record. FH1 is the median number of events (number of events/year - temporal)."))
    case "fl1" => Some(StatMeta("frequency", "mhit", "absolute", "Low flood pulse count. Compute the average number of flow events with flows below a threshold equal to the 25th percentile value for the entire flow record. FL1 is the median number of events (number of events/year - temporal)."))
    case "fl3" => Some(StatMeta("frequency", "mhit", "absolute", "Frequency of low pulse spells. Compute the average number of flow events with flows below a threshold equal to 5 percent of the mean flow value for the entire flow record. FL3 is the median number of events (number of events/year - temporal)."))
    case "ma12" => Some(StatMeta("magnitude", "mhit", "ratio", "Mean of monthly flow values for January."))
    case "ma13" => Some(StatMeta("magnitude", "mhit", "ratio", "Mean of monthly flow values for February."))
    case "ma14" => Some(StatMeta("magnitude", "mhit", "ratio", "Mean of monthly flow values for March."))
    case "ma15" => Some(StatMeta("magnitude", "mhit", "ratio", "Mean of monthly flow values for April."))
    case "ma16" => Some(StatMeta("magnitude", "mhit", "ratio", "Mean of monthly flow values for May."))
    case "ma17" => Some(StatMeta("magnitude", "mhit", "ratio", "Mean of monthly flow values for June."))
    case "ma18" => Some(StatMeta("magnitude", "mhit", "ratio", "Mean of monthly flow values for July."))
    case "ma19" => Some(StatMeta("magnitude", "mhit", "ratio", "Mean of monthly flow values for August."))
    case "ma20" => Some(StatMeta("magnitude", "mhit", "ratio", "Mean of monthly flow values for September."))
    case "ma21" => Some(StatMeta("magnitude", "mhit", "ratio", "Mean of monthly flow values for October."))
    case "ma22" => Some(StatMeta("magnitude", "mhit", "ratio", "Mean of monthly flow values for November."))
    case "ma23" => Some(StatMeta("magnitude", "mhit", "ratio", "Mean of monthly flow values for December."))
    case "ra1" => Some(StatMeta("rate_of_change", "mhit", "ratio", "Rise rate. Compute the change in flow for days in which the change is positive for the entire flow record. RA1 is the median of these values (cubic feet per second/day - temporal)."))
    case "ra3" => Some(StatMeta("rate_of_change", "mhit", "ratio", "Fall rate. Compute the change in flow for days in which the change is negative for the entire flow record. RA3 is the median of these values (cubic feet per second/day - temporal)."))
    case "th1" => Some(StatMeta("timing", "mhit", "absolute", "Julian date of annual maximum. Determine the Julian date that the maximum flow occurs for each year. TH1 is the median of these values (Julian day - temporal)."))
    case "tl1" => Some(StatMeta("timing", "mhit", "absolute", "Julian date of annual minimum. Determine the Julian date that the minimum flow occurs for each water year. TL1 is the median of these values (Julian day - temporal)."))
    case _ => None
  }

  const LcCodes: map<string, int> := map["dynamic" := 0, "static" := 1]

  const ModelCodes: map<string, int> := map[
    "ACCESS1-0" := 0, "bcc-csm1-1" := 1, "BNU-ESM" := 2, "CCSM4" := 3,
    "GFDL-ESM2G" := 4, "GFDL-ESM2M" := 5, "IPSL-CM5A-LR" := 6, "IPSL-CM5A-MR" := 7,
    "MIROC5" := 8, "MIROC-ESM" := 9, "MIROC-ESM-CHEM" := 10, "MRI-CGCM3" := 11,
    "NorESM1-M" := 12]

  const ScenarioCodes: map<string, int> := map[
    "historical" := 0, "rcp26" := 1, "rcp45" := 2, "rcp60" := 3, "rcp85" := 4]

  const EraCodes: map<string, int> := map[
    "1976_2005" := 0, "2016_2045" := 1, "2046_2075" := 2, "2071_2100" := 3]

  /** `encodings_lookup`, keyed by dimension name. */
  const EncodingsLookup: map<string, map<string, int>> := map[
    "lc" := LcCodes, "model" := ModelCodes, "scenario" := ScenarioCodes, "era" := EraCodes]

  /** The dimension names `encode` accepts, in the order the dataset declares them. */
  const CategoricalDims: seq<string> := ["lc", "model", "scenario", "era"]

  /** A decoding of the model codes, used only to prove the model table one-to-one. */
  ghost const ModelNames: map<int, string> := map[
    0 := "ACCESS1-0", 1 := "bcc-csm1-1", 2 := "BNU-ESM", 3 := "CCSM4",
    4 := "GFDL-ESM2G", 5 := "GFDL-ESM2M", 6 := "IPSL-CM5A-LR", 7 := "IPSL-CM5A-MR",
    8 := "MIROC5", 9 := "MIROC-ESM", 10 := "MIROC-ESM-CHEM", 11 := "MRI-CGCM3",
    12 := "NorESM1-M"]

  lemma ModelDecodesEncoded()
    ensures Luts.DecodesEncoded(ModelCodes, ModelNames)
  {
  }

  lemma ModelEncodesDecoded()
    ensures Luts.EncodesDecoded(ModelCodes, ModelNames)
  {
  }

  /** The legacy model codes are one-to-one and exactly 0..12. */
  lemma ModelCodesAreRange()
    ensures Luts.Injective(ModelCodes) && Luts.CodesAreRange(ModelCodes, 13)
  {
    ModelDecodesEncoded();
    ModelEncodesDecoded();
    Luts.RangeFromReverse(ModelCodes, ModelNames, 13);
  }

  lemma TablesCoverCategoricalDims()
    ensures forall d :: d in EncodingsLookup <==> d in CategoricalDims
  {
  }

  /**
   * The newer table inserted "Maurer" at code 8 and shifted every later
   * model up by one, so a legacy model code is not a current one: files
   * built by the two versions disagree from MIROC5 onwards.
   */
  lemma ModelCodesShiftedByMaurer()
    ensures "Maurer" !in ModelCodes && Luts.ModelCodes["Maurer"] == 8
    ensures forall m :: m in ModelCodes ==>
      m in Luts.ModelCodes && Luts.ModelCodes[m] == (if ModelCodes[m] < 8 then ModelCodes[m] else ModelCodes[m] + 1)
  {
  }
}

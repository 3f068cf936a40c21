/**
 * data/tests/test_functions.py: flattening the nested table of test streams
 * (region -> subregion -> list of stream records) into one list of records,
 * and the placeholder data and statistics the test suite reads.
 */
module TestStreams {
  import opened Wrappers

  /** A value of a flattened record: a region or subregion name, or a field of the stream record. */
  datatype Field<V> = Label(name: string) | Given(value: V)

  /** A subregion entry; only its "streams" list is read, and a missing one raises KeyError. */
  datatype Subregion<V> = Subregion(streams: Option<seq<map<string, V>>>)

  type Regions<V> = seq<(string, seq<(string, Subregion<V>)>)>

  /** `{"region": region, "subregion": subregion, **stream_info}`: the record's own keys win. */
  function Entry<V>(region: string, subregion: string, info: map<string, V>): map<string, Field<V>>
  {
    map["region" := Label(region), "subregion" := Label(subregion)] + map k | k in info :: Given(info[k])
  }

  /**
   * A flattened record has the two name keys and every key of the stream
   * record; the record's values come first, and the names fill in the rest.
   */
  lemma EntryContents<V>(region: string, subregion: string, info: map<string, V>)
    ensures var e := Entry(region, subregion, info);
      && e.Keys == {"region", "subregion"} + info.Keys
      && (forall k :: k in info ==> e[k] == Given(info[k]))
      && ("region" !in info ==> e["region"] == Label(region))
      && ("subregion" !in info ==> e["subregion"] == Label(subregion))
  {
  }

  /** The records of one subregion, in list order. */
  function StreamsOf<V>(region: string, subregion: string, streams: seq<map<string, V>>): (r: seq<map<string, Field<V>>>)
    ensures |r| == |streams|
  {
    seq(|streams|, i requires 0 <= i < |streams| => Entry(region, subregion, streams[i]))
  }

  /** The records of one region, subregion by subregion. */
  function SubregionsOf<V>(region: string, subs: seq<(string, Subregion<V>)>): Option<seq<map<string, Field<V>>>>
  {
    if subs == [] then Some([])
    else
      var last := subs[|subs| - 1];
      match SubregionsOf(region, subs[..|subs| - 1])
      case None => None
      case Some(acc) =>
        if last.1.streams.None? then None
        else Some(acc + StreamsOf(region, last.0, last.1.streams.value))
  }

  /** `reformat_test_stream_dict` as a function: region by region. */
  function Flatten<V>(regions: Regions<V>): Option<seq<map<string, Field<V>>>>
  {
    if regions == [] then Some([])
    else
      var last := regions[|regions| - 1];
      match Flatten(regions[..|regions| - 1])
      case None => None
      case Some(acc) =>
        match SubregionsOf(last.0, last.1)
        case None => None
        case Some(more) => Some(acc + more)
  }

  /** `reformat_test_stream_dict`: three nested loops appending to one list. */
  method ReformatTestStreams<V>(regions: Regions<V>) returns (r: Option<seq<map<string, Field<V>>>>)
    ensures r == Flatten(regions)
  {
    var out: seq<map<string, Field<V>>> := [];
    for i := 0 to |regions|
      invariant Flatten(regions[..i]) == Some(out)
    {
      assert regions[..i + 1][..i] == regions[..i];
      var (region, subs) := regions[i];
      var before := out;
      for j := 0 to |subs|
        invariant SubregionsOf(region, subs[..j]).Some?
        invariant out == before + SubregionsOf(region, subs[..j]).value
      {
        assert subs[..j + 1][..j] == subs[..j];
        var (subregion, entry) := subs[j];
        if entry.streams.None? {
          FlattenStuck(regions, i, subs, j);
          return None;
        }
        var streams := entry.streams.value;
        var mid := out;
        for k := 0 to |streams|
          invariant out == mid + StreamsOf(region, subregion, streams[..k])
        {
          assert StreamsOf(region, subregion, streams[..k + 1])
              == StreamsOf(region, subregion, streams[..k]) + [Entry(region, subregion, streams[k])];
          out := out + [Entry(region, subregion, streams[k])];
        }
        assert streams[..|streams|] == streams;
      }
      assert subs[..|subs|] == subs;
    }
    assert regions[..|regions|] == regions;
    r := Some(out);
  }

  /** A subregion without "streams" makes the whole call raise. */
  lemma FlattenStuck<V>(regions: Regions<V>, i: nat, subs: seq<(string, Subregion<V>)>, j: nat)
    requires i < |regions| && regions[i].1 == subs && j < |subs| && subs[j].1.streams.None?
    ensures Flatten(regions) == None
  {
    SubregionsStuck(regions[i].0, subs, j);
    FlattenNoneFrom(regions, i);
  }

  lemma {:induction false} SubregionsStuck<V>(region: string, subs: seq<(string, Subregion<V>)>, j: nat)
    requires j < |subs| && subs[j].1.streams.None?
    ensures SubregionsOf(region, subs) == None
  {
    if j < |subs| - 1 {
      SubregionsStuck(region, subs[..|subs| - 1], j);
    }
  }

  lemma {:induction false} FlattenNoneFrom<V>(regions: Regions<V>, i: nat)
    requires i < |regions| && SubregionsOf(regions[i].0, regions[i].1) == None
    ensures Flatten(regions) == None
  {
    if i < |regions| - 1 {
      FlattenNoneFrom(regions[..|regions| - 1], i);
    }
  }

  /** The number of stream records in the whole table. */
  function TotalStreams<V>(regions: Regions<V>): nat
  {
    if regions == [] then 0
    else TotalStreams(regions[..|regions| - 1]) + SubregionStreams(regions[|regions| - 1].1)
  }

  function SubregionStreams<V>(subs: seq<(string, Subregion<V>)>): nat
  {
    if subs == [] then 0
    else
      var last := subs[|subs| - 1];
      SubregionStreams(subs[..|subs| - 1]) + (if last.1.streams.Some? then |last.1.streams.value| else 0)
  }

  lemma {:induction false} SubregionsLength<V>(region: string, subs: seq<(string, Subregion<V>)>)
    ensures SubregionsOf(region, subs).Some? ==> |SubregionsOf(region, subs).value| == SubregionStreams(subs)
  {
    if subs != [] {
      SubregionsLength(region, subs[..|subs| - 1]);
    }
  }

  /** The flat list has one record per stream of the table. */
  lemma {:induction false} FlattenLength<V>(regions: Regions<V>)
    ensures Flatten(regions).Some? ==> |Flatten(regions).value| == TotalStreams(regions)
  {
    if regions != [] {
      FlattenLength(regions[..|regions| - 1]);
      SubregionsLength(regions[|regions| - 1].0, regions[|regions| - 1].1);
    }
  }

  /**
   * The order is region by region: the records of a table split in two are
   * the records of the first part followed by those of the second, and the
   * call raises when either part does.
   */
  lemma {:induction false} FlattenConcat<V>(a: Regions<V>, b: Regions<V>)
    ensures Flatten(a + b) ==
      if Flatten(a).Some? && Flatten(b).Some? then Some(Flatten(a).value + Flatten(b).value) else None
  {
    if b == [] {
      assert a + b == a;
      if Flatten(a).Some? {
        assert Flatten(a).value + [] == Flatten(a).value;
      }
    } else {
      var b' := b[..|b| - 1];
      assert (a + b)[..|a + b| - 1] == a + b';
      assert (a + b)[|a + b| - 1] == b[|b| - 1];
      FlattenConcat(a, b');
      var last := b[|b| - 1];
      if Flatten(a).Some? && Flatten(b').Some? && SubregionsOf(last.0, last.1).Some? {
        var fa, fb, more := Flatten(a).value, Flatten(b').value, SubregionsOf(last.0, last.1).value;
        assert Flatten(a + b) == Some((fa + fb) + more);
        assert Flatten(b) == Some(fb + more);
        assert (fa + fb) + more == fa + (fb + more);
      }
    }
  }

  /** Each record of the flat list is one stream record with its region and subregion names. */
  lemma {:induction false} FlattenEntries<V>(regions: Regions<V>, n: nat)
    requires Flatten(regions).Some? && n < |Flatten(regions).value|
    ensures exists i, j, k ::
      0 <= i < |regions| && 0 <= j < |regions[i].1| && regions[i].1[j].1.streams.Some? &&
      0 <= k < |regions[i].1[j].1.streams.value| &&
      Flatten(regions).value[n] == Entry(regions[i].0, regions[i].1[j].0, regions[i].1[j].1.streams.value[k])
  {
    var init := regions[..|regions| - 1];
    var last := regions[|regions| - 1];
    var acc := Flatten(init).value;
    if n < |acc| {
      FlattenEntries(init, n);
      var i, j, k :| 0 <= i < |init| && 0 <= j < |init[i].1| && init[i].1[j].1.streams.Some? &&
        0 <= k < |init[i].1[j].1.streams.value| &&
        acc[n] == Entry(init[i].0, init[i].1[j].0, init[i].1[j].1.streams.value[k]);
      assert regions[i] == init[i];
    } else {
      var j, k := SubregionEntry(last.0, last.1, n - |acc|);
      assert regions[|regions| - 1] == last;
    }
  }

  lemma {:induction false} SubregionEntry<V>(region: string, subs: seq<(string, Subregion<V>)>, n: nat)
    returns (j: nat, k: nat)
    requires SubregionsOf(region, subs).Some? && n < |SubregionsOf(region, subs).value|
    ensures j < |subs| && subs[j].1.streams.Some? && k < |subs[j].1.streams.value|
    ensures SubregionsOf(region, subs).value[n] == Entry(region, subs[j].0, subs[j].1.streams.value[k])
  {
    var init := subs[..|subs| - 1];
    var acc := SubregionsOf(region, init).value;
    if n < |acc| {
      j, k := SubregionEntry(region, init, n);
      assert subs[j] == init[j];
    } else {
      j, k := |subs| - 1, n - |acc|;
    }
  }

  // ---------------------------------------------------------------- placeholders

  /** `fetch_modeled_climatology_data`: both landcover types, every series empty. */
  function FetchModeled(streamId: string): (r: map<string, map<string, seq<real>>>)
    ensures r.Keys == {"dynamic", "static"}
    ensures forall lc :: lc in r ==>
      r[lc].Keys == {"doy", "min_values", "mean_values", "max_values"} &&
      forall series :: series in r[lc] ==> r[lc][series] == []
  {
    var empty := map["doy" := [], "min_values" := [], "mean_values" := [], "max_values" := []];
    map["dynamic" := empty, "static" := empty]
  }

  /** `fetch_observed_climatology_data`: every series empty. */
  function FetchObserved(streamId: string): (r: map<string, seq<real>>)
    ensures r.Keys == {"doy", "min_values", "mean_values", "max_values"}
    ensures forall series :: series in r ==> r[series] == []
  {
    map["doy" := [], "min_values" := [], "mean_values" := [], "max_values" := []]
  }

  /** `calculate_comparative_statistics`: all three scores are 0 whatever the data. */
  function ComparativeStatistics(modeled: map<string, map<string, seq<real>>>, observed: map<string, seq<real>>)
    : (r: map<string, int>)
    ensures r.Keys == {"NNSE", "NMAE", "NRMSE"}
    ensures forall k :: k in r ==> r[k] == 0
  {
    map["NNSE" := 0, "NMAE" := 0, "NRMSE" := 0]
  }
}

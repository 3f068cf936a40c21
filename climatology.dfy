/**
 * data/hydrograph_preprocessing/process_streamflow_climatology.py: reading
 * the scenario out of a file name, the column-chunk loop that collects the
 * stream ids, the choice of era windows and their labels, and the
 * stream-chunk loop of the climatology. The day-of-year statistics
 * themselves (floating-point reductions over dates) are a parameter `stat`
 * applied to one era window and one stream.
 */
module Climatology {
  import opened Wrappers
  import opened Text

  // ---------------------------------------------------------------- file names

  const Unknown := "unknown"

  /** `parts[i]`, or the default when the index raises. */
  function FieldOr(parts: seq<string>, i: nat): string
  {
    if i < |parts| then parts[i] else Unknown
  }

  /** `get_landcover_model_rcp_from_filename`. */
  function FilenameFields(filename: string): (string, string, string)
  {
    var parts := Split(ToLower(filename), '_');
    (FieldOr(parts, 0), FieldOr(parts, 1), FieldOr(parts, 2))
  }

  lemma {:induction false} OccurrencesLower(s: string)
    ensures Occurrences(ToLower(s), '_') == Occurrences(s, '_')
  {
    if s != [] {
      assert ToLower(s)[1..] == ToLower(s[1..]);
      OccurrencesLower(s[1..]);
    }
  }

  /** A lower-cased character is its own lower case. */
  predicate IsLower(s: string)
  {
    forall i :: 0 <= i < |s| ==> LowerChar(s[i]) == s[i]
  }

  lemma PartIsLower(s: string, i: nat)
    requires i < |Split(ToLower(s), '_')|
    ensures IsLower(Split(ToLower(s), '_')[i])
  {
    var lower := ToLower(s);
    var part := Split(lower, '_')[i];
    JoinHasPart(Split(lower, '_'), '_', i);
    var a, b :| lower == a + part + b;
    InfixIsLower(s, a, part, b);
  }

  lemma InfixIsLower(s: string, a: string, part: string, b: string)
    requires ToLower(s) == a + part + b
    ensures IsLower(part)
  {
    forall k | 0 <= k < |part| ensures LowerChar(part[k]) == part[k]
    {
      assert part[k] == ToLower(s)[|a| + k] == LowerChar(s[|a| + k]);
    }
  }

  /**
   * The landcover is always the first `_`-field of the lower-cased name; the
   * model and the scenario fall back to "unknown" exactly when the name has
   * too few underscores. Each field is lower case and free of underscores.
   */
  lemma FilenameFieldsSpec(filename: string)
    ensures var (landcover, model, rcp) := FilenameFields(filename);
      var parts := Split(ToLower(filename), '_');
      && |parts| == Occurrences(filename, '_') + 1
      && landcover == parts[0]
      && (|parts| >= 2 ==> model == parts[1]) && (|parts| < 2 ==> model == Unknown)
      && (|parts| >= 3 ==> rcp == parts[2]) && (|parts| < 3 ==> rcp == Unknown)
      && '_' !in landcover && '_' !in model && '_' !in rcp
      && IsLower(landcover) && IsLower(model) && IsLower(rcp)
  {
    var parts := Split(ToLower(filename), '_');
    SplitCount(ToLower(filename), '_');
    OccurrencesLower(filename);
    PartIsLower(filename, 0);
    if |parts| > 1 { PartIsLower(filename, 1); }
    if |parts| > 2 { PartIsLower(filename, 2); }
  }

  // ---------------------------------------------------------------- stream ids

  /** `[c for c in df.columns if c != "Date"]`. */
  function FlowColumns(columns: seq<string>): (r: seq<string>)
    ensures "Date" !in r && |r| <= |columns|
  {
    if columns == [] then []
    else (if columns[0] == "Date" then [] else [columns[0]]) + FlowColumns(columns[1..])
  }

  lemma {:induction false} FlowColumnsKeepsOthers(columns: seq<string>, c: string)
    requires c != "Date"
    ensures c in FlowColumns(columns) <==> c in columns
  {
    if columns != [] {
      FlowColumnsKeepsOthers(columns[1..], c);
      assert columns == [columns[0]] + columns[1..];
    }
  }

  /** `int(c)` for every column; None where one raises. */
  function ParseAll(cols: seq<string>): (r: Option<seq<int>>)
    ensures r.Some? <==> forall j :: 0 <= j < |cols| ==> ParseInt(cols[j]).Some?
    ensures r.Some? ==> |r.value| == |cols| && forall j :: 0 <= j < |cols| ==> Some(r.value[j]) == ParseInt(cols[j])
  {
    if forall j :: 0 <= j < |cols| ==> ParseInt(cols[j]).Some? then
      Some(seq(|cols|, j requires 0 <= j < |cols| && ParseInt(cols[j]).Some? => ParseInt(cols[j]).value))
    else None
  }

  function Min(a: int, b: int): int
  {
    if a < b then a else b
  }

  /**
   * `parquet_to_xarray` up to its stream-id list: the "Date" lookup, then
   * the chunk loop. A table without a "Date" column raises KeyError, a zero
   * step makes `range` raise, `int()` raises on a column that is not an
   * integer, and `np.hstack` raises when the loop made no chunk.
   */
  method StreamIds(columns: seq<string>, chunk: int) returns (ids: Option<seq<int>>)
    ensures ids.Some? <==>
      "Date" in columns && chunk > 0 && |FlowColumns(columns)| > 0 && ParseAll(FlowColumns(columns)).Some?
    ensures ids.Some? ==> ids == ParseAll(FlowColumns(columns))
  {
    if "Date" !in columns {
      return None;
    }
    var flow := FlowColumns(columns);
    if chunk <= 0 {
      // a zero step raises in `range`; a negative one makes no chunk, and `np.hstack` raises
      return None;
    }
    var collected: seq<int> := [];
    var i := 0;
    ghost var visited: seq<(nat, nat)> := [];
    while i < |flow|
      invariant 0 <= i
      invariant |collected| == Min(i, |flow|)
      invariant forall j :: 0 <= j < |collected| ==> Some(collected[j]) == ParseInt(flow[j])
      invariant visited + Chunks(|flow|, chunk, i) == Chunks(|flow|, chunk, 0)
      decreases |flow| - i
    {
      var end := Min(i + chunk, |flow|);
      ChunksStep(visited, |flow|, chunk, i);
      visited := visited + [(i, end)];
      var parsed := ParseAll(flow[i..end]);
      if parsed.None? {
        ParseChunkFails(flow, i, end);
        return None;
      }
      ParseChunk(flow, collected, i, end, parsed.value);
      collected := collected + parsed.value;
      i := i + chunk;
    }
    if |flow| == 0 {
      return None;
    }
    ChunksDone(visited, |flow|, chunk, i);
    ParsedAll(flow, collected);
    ids := Some(collected);
  }

  /** Appending a parsed chunk extends the parsed prefix to the chunk's end. */
  lemma ParseChunk(flow: seq<string>, collected: seq<int>, i: nat, end: nat, parsed: seq<int>)
    requires i <= end <= |flow| && |collected| == i
    requires forall j :: 0 <= j < i ==> Some(collected[j]) == ParseInt(flow[j])
    requires ParseAll(flow[i..end]) == Some(parsed)
    ensures |collected + parsed| == end
    ensures forall j :: 0 <= j < end ==> Some((collected + parsed)[j]) == ParseInt(flow[j])
  {
    forall j | i <= j < end ensures Some((collected + parsed)[j]) == ParseInt(flow[j]) {
      assert flow[i..end][j - i] == flow[j];
    }
  }

  /** A chunk that does not parse makes the whole list fail to parse. */
  lemma ParseChunkFails(flow: seq<string>, i: nat, end: nat)
    requires i <= end <= |flow| && ParseAll(flow[i..end]).None?
    ensures ParseAll(flow).None?
  {
    var j :| 0 <= j < end - i && ParseInt(flow[i..end][j]).None?;
    assert flow[i + j] == flow[i..end][j];
  }

  /** A list whose every element parsed parses to the collected values. */
  lemma ParsedAll(flow: seq<string>, collected: seq<int>)
    requires |collected| == |flow|
    requires forall j :: 0 <= j < |flow| ==> Some(collected[j]) == ParseInt(flow[j])
    ensures ParseAll(flow) == Some(collected)
  {
    assert ParseAll(flow).Some?;
    assert ParseAll(flow).value == collected;
  }

  // ---------------------------------------------------------------- chunk cover

  /** The bounds `[i, min(i + chunk, n))` the loop visits from `i` on. */
  function Chunks(n: nat, chunk: nat, i: nat): seq<(nat, nat)>
    requires chunk > 0
    decreases n - i
  {
    if i >= n then [] else [(i, Min(i + chunk, n))] + Chunks(n, chunk, i + chunk)
  }

  /** The indices a list of bounds covers, in order. */
  function Covered(bounds: seq<(nat, nat)>): seq<nat>
  {
    if bounds == [] then []
    else Range(bounds[0].0, bounds[0].1) + Covered(bounds[1..])
  }

  function Range(lo: nat, hi: nat): (r: seq<nat>)
    ensures |r| == if lo <= hi then hi - lo else 0
    ensures forall k :: 0 <= k < |r| ==> r[k] == lo + k
  {
    if lo < hi then seq(hi - lo, k requires 0 <= k < hi - lo => lo + k) else []
  }

  /**
   * The stream chunks are non-empty, no longer than the step, and together
   * visit 0, 1, ..., n-1 in order, each index exactly once. The loops of
   * StreamIds and ChunkedStats visit exactly `Chunks(n, chunk, 0)`.
   */
  lemma {:induction false} ChunksCover(n: nat, chunk: nat, i: nat)
    requires chunk > 0 && i <= n
    ensures Covered(Chunks(n, chunk, i)) == Range(i, n)
    ensures forall b :: b in Chunks(n, chunk, i) ==> b.0 < b.1 <= b.0 + chunk
    decreases n - i
  {
    if i < n {
      var end := Min(i + chunk, n);
      if end < n {
        ChunksCover(n, chunk, end);
        assert i + chunk == end;
        assert Range(i, end) + Range(end, n) == Range(i, n);
      } else {
        assert Chunks(n, chunk, i + chunk) == [];
        assert Range(i, end) + [] == Range(i, n);
      }
    }
  }

  /** One more iteration of a chunk loop visits the next chunk. */
  lemma ChunksStep(visited: seq<(nat, nat)>, n: nat, chunk: int, i: nat)
    requires chunk > 0 && i < n && visited + Chunks(n, chunk, i) == Chunks(n, chunk, 0)
    ensures (visited + [(i, Min(i + chunk, n))]) + Chunks(n, chunk, i + chunk) == Chunks(n, chunk, 0)
  {
    assert Chunks(n, chunk, i) == [(i, Min(i + chunk, n))] + Chunks(n, chunk, i + chunk);
  }

  /** A finished chunk loop has visited every chunk. */
  lemma ChunksDone(visited: seq<(nat, nat)>, n: nat, chunk: int, i: nat)
    requires chunk > 0 && i >= n && visited + Chunks(n, chunk, i) == Chunks(n, chunk, 0)
    ensures visited == Chunks(n, chunk, 0)
  {
    assert Chunks(n, chunk, i) == [];
  }

  /**
   * The stream-chunk loop of `compute_climatology` for one era: each chunk's
   * statistics, concatenated along the stream axis. `xr.concat` of no chunks
   * raises, and so does a zero step.
   */
  method ChunkedStats<T, U>(streams: seq<T>, chunk: int, stat: T -> U) returns (r: Option<seq<U>>)
    ensures r.Some? <==> chunk > 0 && |streams| > 0
    ensures r.Some? ==> r.value == seq(|streams|, j requires 0 <= j < |streams| => stat(streams[j]))
  {
    if chunk <= 0 || |streams| == 0 {
      return None;
    }
    var out: seq<U> := [];
    var i := 0;
    ghost var visited: seq<(nat, nat)> := [];
    while i < |streams|
      invariant 0 <= i
      invariant |out| == Min(i, |streams|)
      invariant forall j :: 0 <= j < |out| ==> out[j] == stat(streams[j])
      invariant visited + Chunks(|streams|, chunk, i) == Chunks(|streams|, chunk, 0)
      decreases |streams| - i
    {
      var end := Min(i + chunk, |streams|);
      ChunksStep(visited, |streams|, chunk, i);
      visited := visited + [(i, end)];
      var part := seq(end - i, k requires 0 <= k < end - i => stat(streams[i + k]));
      out := out + part;
      i := i + chunk;
    }
    // the loop visited exactly the chunks ChunksCover describes
    ChunksDone(visited, |streams|, chunk, i);
    r := Some(out);
  }

  // ---------------------------------------------------------------- eras

  const HistoricalEras: seq<(string, string)> := [("1976-10-01", "2005-09-30")]

  const ProjectedEras: seq<(string, string)> :=
    [("2016-10-01", "2045-09-30"), ("2046-10-01", "2075-09-30"), ("2071-10-01", "2100-09-30")]

  /** The era windows: the historical one for a historical run, else the three projection windows. */
  function ErasFor(filename: string): (eras: seq<(string, string)>)
    ensures Contains(ToLower(filename), "historical") ==> eras == HistoricalEras
    ensures !Contains(ToLower(filename), "historical") ==> eras == ProjectedEras
  {
    if Contains(ToLower(filename), "historical") then HistoricalEras else ProjectedEras
  }

  /** `s[:4]`. */
  function Year(date: string): (r: string)
    ensures |date| >= 4 ==> r == date[..4] && |r| == 4
    ensures |date| < 4 ==> r == date
  {
    if |date| >= 4 then date[..4] else date
  }

  /** The key of an era in `era_clims`. */
  function EraLabel(window: (string, string)): string
  {
    Year(window.0) + "-" + Year(window.1)
  }

  /** The labels are the years of each window joined by a hyphen, four distinct keys. */
  lemma EraLabels()
    ensures EraLabel(HistoricalEras[0]) == "1976-2005"
    ensures EraLabel(ProjectedEras[0]) == "2016-2045"
    ensures EraLabel(ProjectedEras[1]) == "2046-2075"
    ensures EraLabel(ProjectedEras[2]) == "2071-2100"
  {
    assert "1976-10-01"[..4] == "1976";
    assert "2005-09-30"[..4] == "2005";
    assert "2016-10-01"[..4] == "2016";
    assert "2045-09-30"[..4] == "2045";
    assert "2046-10-01"[..4] == "2046";
    assert "2075-09-30"[..4] == "2075";
    assert "2071-10-01"[..4] == "2071";
    assert "2100-09-30"[..4] == "2100";
  }

  /**
   * The era loop of `compute_climatology`: for each window, the chunked
   * statistics of every stream, stored under the window's label.
   */
  method ComputeClimatology<T, U>(streams: seq<T>, chunk: int, filename: string, stat: ((string, string), T) -> U)
    returns (r: Option<seq<(string, seq<U>)>>)
    ensures r.Some? <==> chunk > 0 && |streams| > 0
    ensures r.Some? ==>
      var eras := ErasFor(filename);
      && |r.value| == |eras|
      && forall e :: 0 <= e < |eras| ==>
           r.value[e].0 == EraLabel(eras[e]) &&
           r.value[e].1 == seq(|streams|, j requires 0 <= j < |streams| => stat(eras[e], streams[j]))
  {
    var eras := ErasFor(filename);
    var clims: seq<(string, seq<U>)> := [];
    for e := 0 to |eras|
      invariant |clims| == e
      invariant e > 0 ==> chunk > 0 && |streams| > 0
      invariant forall e' :: 0 <= e' < e ==>
        clims[e'].0 == EraLabel(eras[e']) &&
        clims[e'].1 == seq(|streams|, j requires 0 <= j < |streams| => stat(eras[e'], streams[j]))
    {
      var window := eras[e];
      var values := ChunkedStats(streams, chunk, s => stat(window, s));
      if values.None? {
        return None;
      }
      clims := clims + [(EraLabel(window), values.value)];
    }
    r := Some(clims);
  }
}

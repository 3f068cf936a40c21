/**
 * `populate_dataset` of the older functions.py. It differs from the current
 * one in three ways:
 *  - the CSV is read with `usecols` set to the statistic list, so a file
 *    lacking a statistic column raises and ends the run;
 *  - the four label lookups are not guarded, so an unknown label also ends
 *    the run;
 *  - there is no row-count check: each statistic's `.loc` write succeeds
 *    when the column is as long as the stream axis or has one cell (which
 *    numpy broadcasts), and otherwise fails alone and is skipped.
 * No global attributes are set.
 */
module LegacyPopulate {
  import opened Wrappers
  import opened Datasets
  import opened Engine
  import opened Populate

  /** What ends the run. */
  datatype LegacyError =
    | MissingColumns(file: string)
    | LabelNotFound(name: string)

  /** `usecols=stat_vars` is satisfied: the file has a column for every statistic. */
  predicate HasAllColumns(cols: seq<Column>, statKeys: seq<string>)
  {
    forall k :: 0 <= k < |statKeys| ==> statKeys[k] in Names(cols)
  }

  /** The cells a `.loc` write of `vs` puts into a slice of `n` cells, if numpy accepts the shapes. */
  function Broadcast(vs: seq<Cell>, n: nat): (r: Option<Row>)
    ensures r.Some? <==> |vs| == n || |vs| == 1
    ensures r.Some? ==> |r.value| == n
    ensures r.Some? && |vs| == n ==> r.value == vs
    ensures r.Some? && |vs| == 1 ==> forall k :: 0 <= k < n ==> r.value[k] == vs[0]
  {
    if |vs| == n then Some(vs)
    else if |vs| == 1 then Some(seq(n, k => vs[0]))
    else None
  }

  /** The write loop: a column is written to slice `p` when its statistic exists and its length fits. */
  function LegacyWriteColumns(f: Frame, cols: seq<Column>, p: Idx): (r: Frame)
    ensures r.vars.Keys == f.vars.Keys
  {
    if cols == [] then f
    else
      var g := LegacyWriteColumns(f, cols[..|cols| - 1], p);
      var c := cols[|cols| - 1];
      var row := Broadcast(c.values, |f.streamIds|);
      if c.name in g.vars && row.Some? then WriteSlice(g, c.name, p, row.value)
      else g
  }

  /**
   * The four unguarded lookups in order; the first label that is not in the
   * table raises KeyError.
   */
  function LegacyEncode(v: Variant, c: Coords): (r: Result<Idx, LegacyError>)
    ensures r.Success? <==>
      EncodeLabel(v, 0, c.landcover).Some? && EncodeLabel(v, 1, c.model).Some? &&
      EncodeLabel(v, 2, c.scenario).Some? && EncodeLabel(v, 3, c.era).Some?
    ensures r.Success? ==> r.value == (EncodeLabel(v, 0, c.landcover).value, EncodeLabel(v, 1, c.model).value,
                                       EncodeLabel(v, 2, c.scenario).value, EncodeLabel(v, 3, c.era).value)
    ensures r.Failure? ==> var labels := [c.landcover, c.model, c.scenario, c.era];
      exists k :: 0 <= k < 4 && EncodeLabel(v, k, labels[k]).None? && r.error == LabelNotFound(labels[k]) &&
        forall j :: 0 <= j < k ==> EncodeLabel(v, j, labels[j]).Some?
  {
    var labels := [c.landcover, c.model, c.scenario, c.era];
    assert labels[0] == c.landcover && labels[1] == c.model && labels[2] == c.scenario && labels[3] == c.era;
    if EncodeLabel(v, 0, c.landcover).None? then Failure(LabelNotFound(c.landcover))
    else if EncodeLabel(v, 1, c.model).None? then Failure(LabelNotFound(c.model))
    else if EncodeLabel(v, 2, c.scenario).None? then Failure(LabelNotFound(c.scenario))
    else if EncodeLabel(v, 3, c.era).None? then Failure(LabelNotFound(c.era))
    else Success((EncodeLabel(v, 0, c.landcover).value, EncodeLabel(v, 1, c.model).value,
                  EncodeLabel(v, 2, c.scenario).value, EncodeLabel(v, 3, c.era).value))
  }

  /**
   * One iteration of the file loop, as a function of the dataset: the new
   * dataset, or the error that ends the run (raised before any write of
   * that file).
   */
  function LegacyApplyFile(f: Frame, file: CsvFile, v: Variant): Result<Frame, LegacyError>
  {
    match ParseName(file.name)
    case None => Success(f)
    case Some(c) =>
      if !HasAllColumns(file.columns, v.statKeys) then Failure(MissingColumns(file.name))
      else
        match LegacyEncode(v, c)
        case Failure(e) => Failure(e)
        case Success(codes) =>
          match Locate(f.landcover, f.model, f.scenario, f.era, codes)
          case Some(p) => Success(LegacyWriteColumns(f, Selected(file.columns, v.statKeys), p))
          case None => Success(f)
  }

  /**
   * The file loop: the dataset after the files written so far and, if one
   * raised, its error (the dataset then holds every write made before it).
   */
  function LegacyPopulate(f: Frame, files: seq<CsvFile>, v: Variant): (Frame, Option<LegacyError>)
  {
    if files == [] then (f, None)
    else
      var (g, err) := LegacyPopulate(f, files[..|files| - 1], v);
      if err.Some? then (g, err)
      else
        match LegacyApplyFile(g, files[|files| - 1], v)
        case Success(h) => (h, None)
        case Failure(e) => (g, Some(e))
  }

  /**
   * Unlike the current engine, which skips such a file, a parseable file
   * with every column but an unknown label ends the run.
   */
  lemma UnknownLabelAborts(f: Frame, file: CsvFile, v: Variant)
    requires ParseName(file.name).Some? && HasAllColumns(file.columns, v.statKeys)
    requires file.rowCount == |f.streamIds|
    requires var c := ParseName(file.name).value;
      EncodeLabel(v, 0, c.landcover).None? || EncodeLabel(v, 1, c.model).None? ||
      EncodeLabel(v, 2, c.scenario).None? || EncodeLabel(v, 3, c.era).None?
    ensures LegacyApplyFile(f, file, v).Failure?
    ensures LegacyApplyFile(f, file, v).error.LabelNotFound?
    ensures ApplyFile(f, file, v) == f
  {
  }

  /** A file whose name does not parse is skipped, whatever its contents. */
  lemma UnparseableSkipped(f: Frame, file: CsvFile, v: Variant)
    requires ParseName(file.name).None?
    ensures LegacyApplyFile(f, file, v) == Success(f)
  {
  }

  /**
   * After the write loop, slice `p` of each statistic holds the column of
   * that name when the table has one whose length fits (broadcast from one
   * cell); a statistic whose write fails keeps its old slice, and every
   * other slice is unchanged.
   */
  lemma {:induction false} LegacyWriteColumnsAt(f: Frame, cols: seq<Column>, p: Idx, st: string, i: Idx)
    requires st in f.vars && i in f.vars[st]
    ensures var r := LegacyWriteColumns(f, cols, p);
      var last := LastFitting(cols, st, |f.streamIds|);
      && st in r.vars && i in r.vars[st]
      && r.vars[st][i] == if i == p && last.Some? then last.value else f.vars[st][i]
  {
    if cols != [] {
      var g := LegacyWriteColumns(f, cols[..|cols| - 1], p);
      var c := cols[|cols| - 1];
      var row := Broadcast(c.values, |f.streamIds|);
      LegacyWriteColumnsAt(f, cols[..|cols| - 1], p, st, i);
      if c.name in g.vars && row.Some? {
        WriteSliceAt(g, c.name, p, row.value, st, i);
      }
    }
  }

  /** The broadcast cells of the last column called `st` whose length fits `n` stream ids, if any. */
  function LastFitting(cols: seq<Column>, st: string, n: nat): (r: Option<Row>)
    ensures r.Some? ==> |r.value| == n
    ensures r.Some? ==> exists k :: 0 <= k < |cols| && cols[k].name == st && Broadcast(cols[k].values, n) == r
    ensures r.None? ==> forall k :: 0 <= k < |cols| && cols[k].name == st ==> Broadcast(cols[k].values, n).None?
  {
    if cols == [] then None
    else
      var c := cols[|cols| - 1];
      if c.name == st && Broadcast(c.values, n).Some? then Broadcast(c.values, n)
      else LastFitting(cols[..|cols| - 1], st, n)
  }

  /** Every slice the legacy write loop fills holds cleaned cells: no -99999 is written. */
  lemma {:induction false} LegacyWritesAreClean(cols: seq<Column>, statKeys: seq<string>, st: string, n: nat)
    requires LastFitting(Selected(cols, statKeys), st, n).Some?
    ensures forall k :: 0 <= k < n ==> LastFitting(Selected(cols, statKeys), st, n).value[k] != Sentinel
  {
    var sel := Selected(cols, statKeys);
    var j :| 0 <= j < |sel| && sel[j].name == st && Broadcast(sel[j].values, n) == LastFitting(sel, st, n);
    SelectedClean(cols, statKeys, j);
  }

  /** Every column `Selected` keeps is cleaned of the sentinel. */
  lemma {:induction false} SelectedClean(cols: seq<Column>, statKeys: seq<string>, j: nat)
    requires j < |Selected(cols, statKeys)|
    ensures forall k :: 0 <= k < |Selected(cols, statKeys)[j].values| ==> Selected(cols, statKeys)[j].values[k] != Sentinel
  {
    var init := Selected(cols[..|cols| - 1], statKeys);
    if j < |init| {
      SelectedClean(cols[..|cols| - 1], statKeys, j);
    }
  }

  // ---------------------------------------------------------------- the methods

  /** The per-statistic loop of one file; a write that fails is skipped alone. */
  method LegacyWriteDataFrame(ds: Dataset, df: seq<Column>, pos: Option<Idx>)
    requires ds.Valid()
    requires pos.Some? ==> Within(ds.Shape(), pos.value)
    modifies ds`cubes, ds.data.Values
    ensures ds.Valid() && ds.data == old(ds.data)
    ensures ds.Value() == if pos.Some? then LegacyWriteColumns(old(ds.Value()), df, pos.value) else old(ds.Value())
  {
    ghost var f0 := ds.Value();
    for j := 0 to |df|
      invariant ds.Valid() && ds.data == old(ds.data)
      invariant ds.Value() == if pos.Some? then LegacyWriteColumns(f0, df[..j], pos.value) else f0
    {
      assert df[..j + 1][..j] == df[..j];
      var row := Broadcast(df[j].values, |ds.streamIds|);
      if pos.Some? && df[j].name in ds.data && row.Some? {
        ds.WriteRow(df[j].name, pos.value, row.value);
      }
    }
    assert df[..|df|] == df;
  }

  /** One iteration of the file loop, on the dataset object; returns the error that ends the run, if any. */
  method LegacyPopulateFile(ds: Dataset, file: CsvFile, v: Variant) returns (err: Option<LegacyError>)
    requires ds.Valid()
    modifies ds`cubes, ds.data.Values
    ensures ds.Valid() && ds.data == old(ds.data)
    ensures LegacyApplyFile(old(ds.Value()), file, v).Success? ==>
      err.None? && ds.Value() == LegacyApplyFile(old(ds.Value()), file, v).value
    ensures LegacyApplyFile(old(ds.Value()), file, v).Failure? ==>
      err == Some(LegacyApplyFile(old(ds.Value()), file, v).error) && ds.Value() == old(ds.Value())
  {
    var parsed := ParseName(file.name);
    if parsed.None? {
      return None;
    }
    if !HasAllColumns(file.columns, v.statKeys) {
      return Some(MissingColumns(file.name));
    }
    var df := Selected(file.columns, v.statKeys);
    var codes := LegacyEncode(v, parsed.value);
    if codes.Failure? {
      return Some(codes.error);
    }
    var pos := Locate(ds.landcover, ds.model, ds.scenario, ds.era, codes.value);
    LegacyWriteDataFrame(ds, df, pos);
    err := None;
  }

  /** `populate_dataset` of the older engine; returns the error that ended the run, if any. */
  method LegacyPopulateDataset(ds: Dataset, files: seq<CsvFile>, v: Variant) returns (err: Option<LegacyError>)
    requires ds.Valid()
    modifies ds`cubes, ds.data.Values
    ensures ds.Valid() && ds.data == old(ds.data)
    ensures (ds.Value(), err) == LegacyPopulate(old(ds.Value()), files, v)
  {
    err := None;
    for k := 0 to |files|
      invariant ds.Valid() && ds.data == old(ds.data)
      invariant LegacyPopulate(old(ds.Value()), files[..k], v) == (ds.Value(), None) && err.None?
    {
      assert files[..k + 1][..k] == files[..k];
      ghost var g := ds.Value();
      err := LegacyPopulateFile(ds, files[k], v);
      if err.Some? {
        assert LegacyPopulate(old(ds.Value()), files[..k + 1], v) == (g, err);
        LegacyPopulateStuck(old(ds.Value()), files, v, k + 1);
        return;
      }
    }
    assert files[..|files|] == files;
  }

  /** Once a file has raised, the later files change nothing. */
  lemma {:induction false} LegacyPopulateStuck(f: Frame, files: seq<CsvFile>, v: Variant, k: nat)
    requires k <= |files| && LegacyPopulate(f, files[..k], v).1.Some?
    ensures LegacyPopulate(f, files, v) == LegacyPopulate(f, files[..k], v)
  {
    if k < |files| {
      assert files[..|files| - 1][..k] == files[..k];
      LegacyPopulateStuck(f, files[..|files| - 1], v, k);
    } else {
      assert files[..k] == files;
    }
  }
}

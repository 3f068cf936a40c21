/**
 * `populate_dataset` of data/preprocess/functions.py: every statistics CSV
 * whose name parses, whose row count matches the stream ids and whose labels
 * encode is written, one stream-id slice per statistic, at the position its
 * encoded labels have in the dataset's coordinates.
 *
 * A CSV is modelled as the table `pd.read_csv` returns: the file name, the
 * number of data rows and the columns in file order.
 */
module Populate {
  import opened Wrappers
  import opened Datasets
  import opened Engine

  datatype Column = Column(name: string, values: seq<Cell>)

  datatype CsvFile = CsvFile(name: string, rowCount: nat, columns: seq<Column>)

  /** Every column holds `n` cells. */
  predicate ColumnsOfLength(cols: seq<Column>, n: nat)
  {
    forall k :: 0 <= k < |cols| ==> |cols[k].values| == n
  }

  /** What `read_csv` guarantees: one cell per data row in every column. */
  predicate Rectangular(file: CsvFile)
  {
    ColumnsOfLength(file.columns, file.rowCount)
  }

  function Names(cols: seq<Column>): (names: seq<string>)
    ensures |names| == |cols| && forall k :: 0 <= k < |cols| ==> names[k] == cols[k].name
  {
    seq(|cols|, k requires 0 <= k < |cols| => cols[k].name)
  }

  /** The cells of the column called `st` (the last one, should the name repeat), if any. */
  function ColumnNamed(cols: seq<Column>, st: string): (r: Option<seq<Cell>>)
    ensures r.Some? <==> st in Names(cols)
    ensures r.Some? ==> exists k :: 0 <= k < |cols| && cols[k] == Column(st, r.value)
  {
    if cols == [] then None
    else
      var last := cols[|cols| - 1];
      var init := ColumnNamed(cols[..|cols| - 1], st);
      assert Names(cols) == Names(cols[..|cols| - 1]) + [last.name];
      if last.name == st then Some(last.values) else init
  }

  // ---------------------------------------------------------------- the DataFrame

  /** The value `df.replace(-99999, np.nan)` treats as missing. */
  const Sentinel: Cell := Val(-99999.0)

  function Clean(c: Cell): (r: Cell)
    ensures r != Sentinel
    ensures c != Sentinel ==> r == c
    ensures c == Sentinel ==> r == Missing
  {
    if c == Sentinel then Missing else c
  }

  function CleanColumn(vs: seq<Cell>): (r: seq<Cell>)
    ensures |r| == |vs|
    ensures forall i :: 0 <= i < |vs| ==> r[i] == Clean(vs[i])
  {
    seq(|vs|, i requires 0 <= i < |vs| => Clean(vs[i]))
  }

  /**
   * `pd.read_csv(file, usecols=lambda c: c in stat_vars)` followed by the
   * sentinel replacement: the statistic columns of the file, in file order.
   */
  function Selected(cols: seq<Column>, statKeys: seq<string>): seq<Column>
  {
    if cols == [] then []
    else
      var init := Selected(cols[..|cols| - 1], statKeys);
      var last := cols[|cols| - 1];
      if last.name in statKeys then init + [Column(last.name, CleanColumn(last.values))] else init
  }

  /** The loop adding an all-NaN column for every statistic the table lacks. */
  function FillMissing(df: seq<Column>, statKeys: seq<string>, n: nat): (r: seq<Column>)
    ensures ColumnsOfLength(df, n) ==> ColumnsOfLength(r, n)
  {
    if statKeys == [] then df
    else
      var d := FillMissing(df, statKeys[..|statKeys| - 1], n);
      var st := statKeys[|statKeys| - 1];
      if st in Names(d) then d else d + [Column(st, MissingRow(n))]
  }

  /** The DataFrame the write loop walks. */
  function DataFrameOf(file: CsvFile, statKeys: seq<string>): seq<Column>
  {
    FillMissing(Selected(file.columns, statKeys), statKeys, file.rowCount)
  }

  /** A statistic column of the file comes through cleaned; any other column is dropped. */
  lemma {:induction false} SelectedColumn(cols: seq<Column>, statKeys: seq<string>, st: string)
    ensures ColumnNamed(Selected(cols, statKeys), st) ==
      (if st in statKeys && ColumnNamed(cols, st).Some? then Some(CleanColumn(ColumnNamed(cols, st).value)) else None)
  {
    if cols != [] {
      SelectedColumn(cols[..|cols| - 1], statKeys, st);
    }
  }

  /** Selecting and cleaning keeps every column's length. */
  lemma {:induction false} SelectedLength(cols: seq<Column>, statKeys: seq<string>, n: nat)
    requires ColumnsOfLength(cols, n)
    ensures ColumnsOfLength(Selected(cols, statKeys), n)
  {
    if cols != [] {
      SelectedLength(cols[..|cols| - 1], statKeys, n);
    }
  }

  /** Filling adds exactly the missing statistics, as all-NaN columns, and keeps the rest. */
  lemma {:induction false} FillMissingColumn(df: seq<Column>, statKeys: seq<string>, n: nat, st: string)
    ensures ColumnNamed(FillMissing(df, statKeys, n), st) ==
      (if ColumnNamed(df, st).Some? then ColumnNamed(df, st)
       else if st in statKeys then Some(MissingRow(n)) else None)
  {
    if statKeys != [] {
      var init := statKeys[..|statKeys| - 1];
      FillMissingColumn(df, init, n, st);
      assert statKeys == init + [statKeys[|statKeys| - 1]];
    }
  }

  /**
   * The DataFrame holds a column for every statistic key and no other: the
   * file's cleaned column where the file has one, all NaN where it does not.
   */
  lemma DataFrameColumns(file: CsvFile, statKeys: seq<string>, st: string)
    ensures ColumnNamed(DataFrameOf(file, statKeys), st) ==
      (if st !in statKeys then None
       else if ColumnNamed(file.columns, st).Some? then Some(CleanColumn(ColumnNamed(file.columns, st).value))
       else Some(MissingRow(file.rowCount)))
  {
    SelectedColumn(file.columns, statKeys, st);
    FillMissingColumn(Selected(file.columns, statKeys), statKeys, file.rowCount, st);
  }

  // ---------------------------------------------------------------- admission

  /** Why a file is passed over, or the codes of its labels. */
  datatype Verdict =
    | Unparseable
    | LengthMismatch
    | InvalidLabel
    | Admitted(codes: Idx)

  /** `encodings_lookup[dim][name]`, None where either lookup raises KeyError. */
  function EncodeLabel(v: Variant, k: nat, name: string): (r: Option<int>)
    requires k < 4
    ensures r.Some? <==> CategoricalNames(v)[k] in v.table && name in v.table[CategoricalNames(v)[k]]
    ensures r.Some? ==> r.value == v.table[CategoricalNames(v)[k]][name]
  {
    var dim := CategoricalNames(v)[k];
    if dim in v.table && name in v.table[dim] then Some(v.table[dim][name]) else None
  }

  /**
   * The three checks a file passes before anything is written: its name
   * has the positional fields, its row count is the number of stream ids,
   * and its four labels are in the encoding table.
   */
  function Judge(file: CsvFile, streamCount: nat, v: Variant): Verdict
  {
    match ParseName(file.name)
    case None => Unparseable
    case Some(c) =>
      if file.rowCount != streamCount then LengthMismatch
      else
        match (EncodeLabel(v, 0, c.landcover), EncodeLabel(v, 1, c.model),
               EncodeLabel(v, 2, c.scenario), EncodeLabel(v, 3, c.era))
        case (Some(lc), Some(m), Some(s), Some(e)) => Admitted((lc, m, s, e))
        case _ => InvalidLabel
  }

  /** Index of the first occurrence of `x` in `s`, the position `.loc` selects. */
  function IndexOf(s: seq<int>, x: int): (r: Option<nat>)
    ensures r.None? <==> x !in s
    ensures r.Some? ==> r.value < |s| && s[r.value] == x && x !in s[..r.value]
  {
    if s == [] then None
    else if s[0] == x then Some(0)
    else
      match IndexOf(s[1..], x)
      case None => None
      case Some(i) =>
        assert s[..i + 1] == [s[0]] + s[1..][..i];
        Some(i + 1)
  }

  /**
   * The position the encoded labels select in the coordinates of `f`
   * (given as its four coordinate lists), None when a code is not one of them.
   */
  function Locate(landcover: seq<int>, model: seq<int>, scenario: seq<int>, era: seq<int>, codes: Idx): (r: Option<Idx>)
    ensures r.Some? ==> Within((|landcover|, |model|, |scenario|, |era|), r.value)
    ensures r.Some? ==> (landcover[r.value.0] == codes.0 && model[r.value.1] == codes.1 &&
      scenario[r.value.2] == codes.2 && era[r.value.3] == codes.3)
    ensures r.None? <==> codes.0 !in landcover || codes.1 !in model || codes.2 !in scenario || codes.3 !in era
  {
    match (IndexOf(landcover, codes.0), IndexOf(model, codes.1), IndexOf(scenario, codes.2), IndexOf(era, codes.3))
    case (Some(a), Some(b), Some(c), Some(d)) => Some((a, b, c, d))
    case _ => None
  }

  // ---------------------------------------------------------------- writing

  /** The write loop: each column whose statistic the dataset has goes to slice `p`. */
  function WriteColumns(f: Frame, cols: seq<Column>, p: Idx): (r: Frame)
    ensures r.vars.Keys == f.vars.Keys
  {
    if cols == [] then f
    else
      var g := WriteColumns(f, cols[..|cols| - 1], p);
      var c := cols[|cols| - 1];
      if c.name in g.vars then WriteSlice(g, c.name, p, c.values)
      else g
  }

  /** The write loop keeps the dataset's shape and changes nothing but the statistics. */
  lemma {:induction false} WriteColumnsShape(f: Frame, cols: seq<Column>, p: Idx)
    requires WellShaped(f) && InBox(f, p) && ColumnsOfLength(cols, |f.streamIds|)
    ensures WellShaped(WriteColumns(f, cols, p))
    ensures WriteColumns(f, cols, p) == f.(vars := WriteColumns(f, cols, p).vars)
  {
    if cols != [] {
      var init := cols[..|cols| - 1];
      var g := WriteColumns(f, init, p);
      var c := cols[|cols| - 1];
      WriteColumnsShape(f, init, p);
      if c.name in g.vars {
        WriteSliceEffect(g, c.name, p, c.values);
        WriteSliceKeepsShape(g, c.name, p, c.values);
      }
    }
  }

  /**
   * After the write loop, slice `p` of each statistic holds the column of
   * that name, if the table has one, and every other slice is unchanged.
   */
  lemma {:induction false} WriteColumnsAt(f: Frame, cols: seq<Column>, p: Idx, st: string, i: Idx)
    requires st in f.vars && i in f.vars[st]
    ensures var r := WriteColumns(f, cols, p);
      && st in r.vars && i in r.vars[st]
      && r.vars[st][i] == if i == p && ColumnNamed(cols, st).Some? then ColumnNamed(cols, st).value else f.vars[st][i]
  {
    if cols != [] {
      var g := WriteColumns(f, cols[..|cols| - 1], p);
      var c := cols[|cols| - 1];
      WriteColumnsAt(f, cols[..|cols| - 1], p, st, i);
      if c.name in g.vars {
        WriteSliceAt(g, c.name, p, c.values, st, i);
      }
    }
  }

  const DataSourceKey: string := "Data Source"
  const GcmMetadataKey: string := "CMIP5 GCM Metadata"

  /** One iteration of `populate_dataset`'s file loop, as a function of the dataset. */
  function ApplyFile(f: Frame, file: CsvFile, v: Variant): Frame
  {
    match Judge(file, |f.streamIds|, v)
    case Admitted(codes) => Admit(f, DataFrameOf(file, v.statKeys), codes)
    case _ => f
  }

  /**
   * What an admitted file's table does to the dataset: the write loop at the
   * position of `codes` (every `.loc` fails, and is caught, when a code is not
   * a coordinate), then the two global attributes.
   */
  function Admit(f: Frame, df: seq<Column>, codes: Idx): Frame
  {
    var g := match Locate(f.landcover, f.model, f.scenario, f.era, codes)
      case Some(p) => WriteColumns(f, df, p)
      case None => f;
    g.(attrs := g.attrs[DataSourceKey := DataSourceRepr][GcmMetadataKey := GcmMetadataRepr])
  }

  /** `populate_dataset` over a list of files, as a function of the dataset. */
  function Populate(f: Frame, files: seq<CsvFile>, v: Variant): Frame
  {
    if files == [] then f else ApplyFile(Populate(f, files[..|files| - 1], v), files[|files| - 1], v)
  }

  /** A file that fails a check, or whose codes are not coordinates, writes nothing. */
  lemma ApplyFileSkips(f: Frame, file: CsvFile, v: Variant)
    requires Slice(f, file, v).None?
    ensures !Judge(file, |f.streamIds|, v).Admitted? ==> ApplyFile(f, file, v) == f
    ensures Judge(file, |f.streamIds|, v).Admitted? ==>
      ApplyFile(f, file, v) == f.(attrs := f.attrs[DataSourceKey := DataSourceRepr][GcmMetadataKey := GcmMetadataRepr])
  {
  }

  /**
   * An admitted file whose position is found keeps the dataset's shape and
   * changes nothing but the statistics and the two global attributes.
   */
  lemma ApplyFileFrame(f: Frame, file: CsvFile, v: Variant)
    requires WellShaped(f) && Rectangular(file) && Slice(f, file, v).Some?
    ensures var r := ApplyFile(f, file, v);
      && WellShaped(r)
      && r == f.(vars := r.vars, attrs := f.attrs[DataSourceKey := DataSourceRepr][GcmMetadataKey := GcmMetadataRepr])
  {
    var p := Slice(f, file, v).value;
    var df := DataFrameOf(file, v.statKeys);
    SelectedLength(file.columns, v.statKeys, file.rowCount);
    assert ColumnsOfLength(df, |f.streamIds|);
    WriteColumnsShape(f, df, p);
  }

  /**
   * An admitted file whose position is found replaces, for each statistic,
   * that position's slice with the file's cleaned column, or with NaN where
   * the file lacks the column; every other slice is unchanged.
   */
  lemma ApplyFileSlices(f: Frame, file: CsvFile, v: Variant)
    requires WellShaped(f) && Rectangular(file) && Slice(f, file, v).Some?
    ensures forall st, i :: st in f.vars && InBox(f, i) ==>
      && st in ApplyFile(f, file, v).vars && i in ApplyFile(f, file, v).vars[st]
      && ApplyFile(f, file, v).vars[st][i] ==
           if Slice(f, file, v) == Some(i) && st in v.statKeys then FileRow(file, st) else f.vars[st][i]
  {
    var p := Slice(f, file, v).value;
    var df := DataFrameOf(file, v.statKeys);
    forall st, i | st in f.vars && InBox(f, i)
      ensures && st in WriteColumns(f, df, p).vars && i in WriteColumns(f, df, p).vars[st]
        && WriteColumns(f, df, p).vars[st][i] == if p == i && st in v.statKeys then FileRow(file, st) else f.vars[st][i]
    {
      WriteColumnsAt(f, df, p, st, i);
      DataFrameColumns(file, v.statKeys, st);
    }
  }

  /** Applying a file keeps the dataset well shaped. */
  lemma ApplyFileKeepsShape(f: Frame, file: CsvFile, v: Variant)
    requires WellShaped(f) && Rectangular(file)
    ensures WellShaped(ApplyFile(f, file, v))
  {
    if Slice(f, file, v).Some? {
      ApplyFileFrame(f, file, v);
    } else {
      ApplyFileSkips(f, file, v);
    }
  }

  /** The slice an admitted file is written to, if its codes are coordinates. */
  function Slice(f: Frame, file: CsvFile, v: Variant): Option<Idx>
  {
    match Judge(file, |f.streamIds|, v)
    case Admitted(codes) => Locate(f.landcover, f.model, f.scenario, f.era, codes)
    case _ => None
  }

  /** What a file contributes for statistic `st`: its cleaned column, or NaN if it has none. */
  function FileRow(file: CsvFile, st: string): seq<Cell>
  {
    match ColumnNamed(file.columns, st)
    case Some(vs) => CleanColumn(vs)
    case None => MissingRow(file.rowCount)
  }

  // ---------------------------------------------------------------- the methods

  /** The loop adding an all-NaN column for each statistic the table lacks. */
  method AddMissingColumns(df0: seq<Column>, statKeys: seq<string>, n: nat) returns (df: seq<Column>)
    ensures df == FillMissing(df0, statKeys, n)
  {
    df := df0;
    for i := 0 to |statKeys|
      invariant df == FillMissing(df0, statKeys[..i], n)
    {
      assert statKeys[..i + 1][..i] == statKeys[..i];
      if statKeys[i] !in Names(df) {
        df := df + [Column(statKeys[i], MissingRow(n))];
      }
    }
    assert statKeys[..|statKeys|] == statKeys;
  }

  /**
   * The loop over the table's columns: each one whose statistic the dataset
   * has is written to slice `pos`; with no position every `.loc` fails and
   * nothing is written.
   */
  method WriteDataFrame(ds: Dataset, df: seq<Column>, pos: Option<Idx>)
    requires ds.Valid() && ColumnsOfLength(df, |ds.streamIds|)
    requires pos.Some? ==> Within(ds.Shape(), pos.value)
    modifies ds`cubes, ds.data.Values
    ensures ds.Valid() && ds.data == old(ds.data)
    ensures ds.Value() == if pos.Some? then WriteColumns(old(ds.Value()), df, pos.value) else old(ds.Value())
  {
    ghost var f0 := ds.Value();
    for j := 0 to |df|
      invariant ds.Valid() && ds.data == old(ds.data)
      invariant ds.Value() == if pos.Some? then WriteColumns(f0, df[..j], pos.value) else f0
    {
      assert df[..j + 1][..j] == df[..j];
      if pos.Some? && df[j].name in ds.data {
        ds.WriteRow(df[j].name, pos.value, df[j].values);
      }
    }
    assert df[..|df|] == df;
  }

  /**
   * The checks of one loop iteration, before anything is written: the
   * positional parse inside `try` (an IndexError skips the file), reading
   * the table, the row count, and the four label lookups.
   */
  method JudgeFile(file: CsvFile, streamCount: nat, v: Variant) returns (verdict: Verdict, df: seq<Column>)
    requires Rectangular(file)
    ensures verdict == Judge(file, streamCount, v)
    ensures verdict.Admitted? ==> df == DataFrameOf(file, v.statKeys) && ColumnsOfLength(df, streamCount)
  {
    df := [];
    var parsed := ParseName(file.name);
    if parsed.None? {
      return Unparseable, df;
    }
    var c := parsed.value;
    SelectedLength(file.columns, v.statKeys, file.rowCount);
    df := AddMissingColumns(Selected(file.columns, v.statKeys), v.statKeys, file.rowCount);
    if file.rowCount != streamCount {
      return LengthMismatch, df;
    }
    var lc, m, s, e := EncodeLabel(v, 0, c.landcover), EncodeLabel(v, 1, c.model),
                       EncodeLabel(v, 2, c.scenario), EncodeLabel(v, 3, c.era);
    if lc.None? || m.None? || s.None? || e.None? {
      return InvalidLabel, df;
    }
    verdict := Admitted((lc.value, m.value, s.value, e.value));
  }

  /** One iteration of the file loop of `populate_dataset`, on the dataset object. */
  method PopulateFile(ds: Dataset, file: CsvFile, v: Variant)
    requires ds.Valid() && Rectangular(file)
    modifies ds`cubes, ds`attrs, ds.data.Values
    ensures ds.Valid() && ds.data == old(ds.data)
    ensures ds.Value() == ApplyFile(old(ds.Value()), file, v)
  {
    var verdict, df := JudgeFile(file, |ds.streamIds|, v);
    if verdict.Admitted? {
      WriteAdmitted(ds, df, verdict.codes);
    }
  }

  /**
   * The rest of the iteration for an admitted file: the `.loc` writes (all
   * of which fail when a code is not a coordinate) and the two global
   * attributes.
   */
  method WriteAdmitted(ds: Dataset, df: seq<Column>, codes: Idx)
    requires ds.Valid() && ColumnsOfLength(df, |ds.streamIds|)
    modifies ds`cubes, ds`attrs, ds.data.Values
    ensures ds.Valid() && ds.data == old(ds.data)
    ensures ds.Value() == Admit(old(ds.Value()), df, codes)
  {
    var pos := Locate(ds.landcover, ds.model, ds.scenario, ds.era, codes);
    WriteDataFrame(ds, df, pos);
    ds.SetAttr(DataSourceKey, DataSourceRepr);
    ds.SetAttr(GcmMetadataKey, GcmMetadataRepr);
  }

  /** `populate_dataset`: the files in order, each admitted one written into the dataset. */
  method PopulateDataset(ds: Dataset, files: seq<CsvFile>, v: Variant)
    requires ds.Valid() && forall k :: 0 <= k < |files| ==> Rectangular(files[k])
    modifies ds`cubes, ds`attrs, ds.data.Values
    ensures ds.Valid() && ds.data == old(ds.data)
    ensures ds.Value() == Populate(old(ds.Value()), files, v)
  {
    for k := 0 to |files|
      invariant ds.Valid() && ds.data == old(ds.data)
      invariant ds.Value() == Populate(old(ds.Value()), files[..k], v)
    {
      assert files[..k + 1][..k] == files[..k];
      PopulateFile(ds, files[k], v);
    }
    assert files[..|files|] == files;
  }
}

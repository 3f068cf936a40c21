/**
 * The in-memory dataset both variants of the engine build: four integer-coded
 * categorical axes (landcover, model, scenario, era), one stream-id axis and,
 * per statistic, a 5-D array of cells. The stream-id axis is the innermost
 * one and is always written as a whole, so a statistic's array is stored as
 * one `Row` per position in the four categorical axes.
 *
 * `Frame` is the value of a dataset; `Dataset` is the mutable object. Like a
 * numpy buffer, each statistic's storage is one flat array laid out in
 * row-major (C) order over the categorical axes; it is written in place and a
 * ghost `cubes` map mirrors it.
 */
module Datasets {

  /** One value of a statistic; NaN is `Missing`. */
  datatype Cell = Missing | Val(v: real)

  /** The cells along the stream-id axis at one categorical position. */
  type Row = seq<Cell>

  /** A position (landcover, model, scenario, era) in the categorical axes. */
  type Idx = (int, int, int, int)

  /** A statistic's array: one row per categorical position. */
  type Cube = imap<Idx, Row>

  /** A stream (or HRU) identifier; `NoId` is the None a failed crosswalk lookup leaves. */
  datatype StreamId = Id(name: string) | NoId

  /**
   * An attribute value. Text produced by `str()` of a lookup table is kept as
   * the table it prints, since serialisation is not modelled.
   */
  datatype AttrValue =
    | Text(s: string)
    | DataSourceRepr
    | GcmMetadataRepr
    | EncodingRepr(table: map<int, string>)

  datatype Frame = Frame(
    axisNames: seq<string>,
    landcover: seq<int>,
    model: seq<int>,
    scenario: seq<int>,
    era: seq<int>,
    streamIds: seq<StreamId>,
    vars: map<string, Cube>,
    attrs: map<string, AttrValue>,
    coordAttrs: map<string, map<string, AttrValue>>,
    varAttrs: map<string, map<string, AttrValue>>)

  /** `i` lies inside axes of lengths `n`. */
  predicate Within(n: Idx, i: Idx)
  {
    0 <= i.0 < n.0 && 0 <= i.1 < n.1 && 0 <= i.2 < n.2 && 0 <= i.3 < n.3
  }

  /** The lengths of the four categorical axes of `f`. */
  function Extent(f: Frame): Idx
  {
    (|f.landcover|, |f.model|, |f.scenario|, |f.era|)
  }

  /** `i` addresses a position inside the four categorical axes of `f`. */
  predicate InBox(f: Frame, i: Idx)
  {
    Within(Extent(f), i)
  }

  /** The number of categorical positions in axes of lengths `n`. */
  function Volume(n: Idx): int
  {
    n.0 * n.1 * n.2 * n.3
  }

  lemma VolumeNonNegative(n: Idx)
    requires n.0 >= 0 && n.1 >= 0 && n.2 >= 0 && n.3 >= 0
    ensures Volume(n) >= 0
  {
    MulMono(0, n.0, n.1);
    MulMono(0, n.0 * n.1, n.2);
    MulMono(0, n.0 * n.1 * n.2, n.3);
  }

  /** The row-major (C-order) position of `i` in axes of lengths `n`. */
  function Offset(n: Idx, i: Idx): (k: int)
    requires Within(n, i)
    ensures 0 <= k < Volume(n)
  {
    StepBound(i.0, i.1, n.0, n.1);
    StepBound(i.0 * n.1 + i.1, i.2, n.0 * n.1, n.2);
    StepBound((i.0 * n.1 + i.1) * n.2 + i.2, i.3, n.0 * n.1 * n.2, n.3);
    ((i.0 * n.1 + i.1) * n.2 + i.2) * n.3 + i.3
  }

  /** Distinct positions inside the axes have distinct offsets. */
  lemma OffsetInjective(n: Idx, i: Idx, j: Idx)
    requires Within(n, i) && Within(n, j) && Offset(n, i) == Offset(n, j)
    ensures i == j
  {
    StepUnique((i.0 * n.1 + i.1) * n.2 + i.2, i.3, (j.0 * n.1 + j.1) * n.2 + j.2, j.3, n.3);
    StepUnique(i.0 * n.1 + i.1, i.2, j.0 * n.1 + j.1, j.2, n.2);
    StepUnique(i.0, i.1, j.0, j.1, n.1);
  }

  lemma MulMono(a: int, b: int, c: int)
    requires a <= b && c >= 0
    ensures a * c <= b * c
  {
    assert b * c - a * c == (b - a) * c;
  }

  /** A digit pair (q, r) with 0 <= r < n addresses 0 <= q * n + r < big * n. */
  lemma StepBound(q: int, r: int, big: int, n: int)
    requires 0 <= q < big && 0 <= r < n
    ensures 0 <= q * n + r < big * n
  {
    MulMono(0, q, n);
    MulMono(q, big - 1, n);
    assert (big - 1) * n == big * n - n;
  }

  /** A digit pair is determined by the number it addresses. */
  lemma StepUnique(q: int, r: int, q': int, r': int, n: int)
    requires 0 <= r < n && 0 <= r' < n && q * n + r == q' * n + r'
    ensures q == q' && r == r'
  {
    assert q' * n - q * n == (q' - q) * n;
    if q < q' {
      MulMono(1, q' - q, n);
    } else if q' < q {
      MulMono(1, q - q', n);
    }
  }

  /** Every statistic has exactly one row per categorical position, each as long as the stream-id axis. */
  ghost predicate WellShaped(f: Frame)
  {
    forall st :: st in f.vars ==>
      && (forall i :: i in f.vars[st] <==> InBox(f, i))
      && (forall i :: i in f.vars[st] ==> |f.vars[st][i]| == |f.streamIds|)
  }

  /** `np.nan` broadcast over `n` streams. */
  function MissingRow(n: nat): (r: Row)
    ensures |r| == n
    ensures forall k :: 0 <= k < n ==> r[k] == Missing
  {
    seq(n, k => Missing)
  }

  /** `np.zeros(shape) * np.nan`: an all-missing array over axes of lengths `n`, rows of length `width`. */
  ghost function EmptyCube(n: Idx, width: nat): (c: Cube)
    ensures forall i :: i in c <==> Within(n, i)
    ensures forall i :: i in c ==> c[i] == MissingRow(width)
  {
    imap i | Within(n, i) :: MissingRow(width)
  }

  /** A dataset with the given axes, all-missing variables `stats` and no attributes. */
  ghost function EmptyFrame(axisNames: seq<string>, landcover: seq<int>, model: seq<int>, scenario: seq<int>,
                      era: seq<int>, streamIds: seq<StreamId>, stats: set<string>): (f: Frame)
    ensures WellShaped(f)
    ensures f.vars.Keys == stats
    ensures forall st, i :: st in f.vars && i in f.vars[st] ==> f.vars[st][i] == MissingRow(|streamIds|)
    ensures f.attrs == map[] && f.coordAttrs == map[] && f.varAttrs == map[]
  {
    var shape := Frame(axisNames, landcover, model, scenario, era, streamIds, map[], map[], map[], map[]);
    shape.(vars := map st | st in stats :: EmptyCube(Extent(shape), |streamIds|))
  }

  /** Allocating one more statistic adds one all-missing cube and changes nothing else. */
  lemma EmptyFrameAdd(axisNames: seq<string>, landcover: seq<int>, model: seq<int>, scenario: seq<int>,
                      era: seq<int>, streamIds: seq<StreamId>, stats: set<string>, st: string)
    ensures var f := EmptyFrame(axisNames, landcover, model, scenario, era, streamIds, stats);
      EmptyFrame(axisNames, landcover, model, scenario, era, streamIds, stats + {st})
        == f.(vars := f.vars[st := EmptyCube(Extent(f), |streamIds|)])
  {
    var f := EmptyFrame(axisNames, landcover, model, scenario, era, streamIds, stats);
    var g := EmptyFrame(axisNames, landcover, model, scenario, era, streamIds, stats + {st});
    assert g.vars == f.vars[st := EmptyCube(Extent(f), |streamIds|)];
  }

  /** `ds[st].loc[i] = row` on a dataset value. */
  function WriteSlice(f: Frame, st: string, i: Idx, row: Row): (r: Frame)
    requires st in f.vars
    ensures r.vars.Keys == f.vars.Keys
  {
    f.(vars := f.vars[st := f.vars[st][i := row]])
  }

  /**
   * Writing a slice replaces the row of `st` at `i` by `row`; every other row
   * of every statistic, the axes and the attributes stay as they were.
   */
  lemma WriteSliceEffect(f: Frame, st: string, i: Idx, row: Row)
    requires st in f.vars
    ensures var r := WriteSlice(f, st, i, row);
      && r.vars.Keys == f.vars.Keys
      && i in r.vars[st] && r.vars[st][i] == row
      && (forall st', j :: st' in f.vars && j in f.vars[st'] && (st', j) != (st, i) ==>
            j in r.vars[st'] && r.vars[st'][j] == f.vars[st'][j])
      && (forall st' :: st' in f.vars ==> r.vars[st'].Keys == f.vars[st'].Keys + (if st' == st then iset{i} else iset{}))
      && r.(vars := f.vars) == f
  {
  }

  /** One cell of the effect of writing a slice: the written position holds `row`, any other keeps its row. */
  lemma WriteSliceAt(f: Frame, st: string, i: Idx, row: Row, st': string, j: Idx)
    requires st in f.vars && st' in f.vars && j in f.vars[st']
    ensures var r := WriteSlice(f, st, i, row);
      && st' in r.vars && j in r.vars[st']
      && r.vars[st'][j] == if st' == st && j == i then row else f.vars[st'][j]
  {
  }

  /** Writing a row of the right length at a position inside the axes keeps the dataset well shaped. */
  lemma WriteSliceKeepsShape(f: Frame, st: string, i: Idx, row: Row)
    requires WellShaped(f) && st in f.vars && InBox(f, i) && |row| == |f.streamIds|
    ensures WellShaped(WriteSlice(f, st, i, row))
  {
    WriteSliceEffect(f, st, i, row);
  }

  class Dataset {
    var axisNames: seq<string>
    var landcover: seq<int>
    var model: seq<int>
    var scenario: seq<int>
    var era: seq<int>
    var streamIds: seq<StreamId>
    /** One flat row-major buffer per statistic. */
    var data: map<string, array<Row>>
    var attrs: map<string, AttrValue>
    var coordAttrs: map<string, map<string, AttrValue>>
    var varAttrs: map<string, map<string, AttrValue>>
    /** The contents of `data`, as values. */
    ghost var cubes: map<string, Cube>

    ghost function Value(): Frame
      reads this
    {
      Frame(axisNames, landcover, model, scenario, era, streamIds, cubes, attrs, coordAttrs, varAttrs)
    }

    /** The lengths of the four categorical axes. */
    function Shape(): Idx
      reads this
    {
      (|landcover|, |model|, |scenario|, |era|)
    }

    /**
     * Each statistic's buffer holds one row per categorical position, no two
     * statistics share a buffer, and `cubes` mirrors the buffers.
     */
    ghost predicate Valid()
      reads this, data.Values
    {
      && data.Keys == cubes.Keys
      && (forall a, b :: a in data && b in data && a != b ==> data[a] != data[b])
      && (forall st :: st in data ==> data[st].Length == Volume(Shape()))
      && (forall st, i :: st in cubes ==> (i in cubes[st] <==> Within(Shape(), i)))
      && (forall st, i :: st in data && Within(Shape(), i) ==>
            && data[st][Offset(Shape(), i)] == cubes[st][i]
            && |cubes[st][i]| == |streamIds|)
    }

    lemma ValidIsWellShaped()
      requires Valid()
      ensures WellShaped(Value())
    {
      var f := Value();
      assert Extent(f) == Shape();
      forall st | st in f.vars
        ensures forall i :: i in f.vars[st] <==> InBox(f, i)
        ensures forall i :: i in f.vars[st] ==> |f.vars[st][i]| == |f.streamIds|
      {
        assert st in data;
      }
    }

    /** A dataset over the given axes with no variables and no attributes. */
    constructor (axisNames: seq<string>, landcover: seq<int>, model: seq<int>, scenario: seq<int>,
                 era: seq<int>, streamIds: seq<StreamId>)
      ensures Valid()
      ensures Value() == EmptyFrame(axisNames, landcover, model, scenario, era, streamIds, {})
    {
      this.axisNames := axisNames;
      this.landcover := landcover;
      this.model := model;
      this.scenario := scenario;
      this.era := era;
      this.streamIds := streamIds;
      data := map[];
      attrs := map[];
      coordAttrs := map[];
      varAttrs := map[];
      cubes := map[];
    }

    /** Adds (or replaces) variable `st` with a freshly allocated all-missing buffer. */
    method AddVariable(st: string)
      requires Valid()
      modifies this`data, this`cubes
      ensures Valid()
      ensures Value() == old(Value()).(vars := old(cubes)[st := EmptyCube(Shape(), |streamIds|)])
    {
      var n := |streamIds|;
      var shape := Shape();
      VolumeNonNegative(shape);
      var arr := new Row[Volume(shape)](k => MissingRow(n));
      ghost var before := data;
      data := data[st := arr];
      cubes := cubes[st := EmptyCube(shape, n)];
      forall st', j | st' in data && Within(shape, j)
        ensures data[st'][Offset(shape, j)] == cubes[st'][j] && |cubes[st'][j]| == n
      {
        if st' != st {
          assert st' in before && data[st'] == before[st'];
        }
      }
    }

    /** `ds[st].loc[i] = row`, in place. */
    method WriteRow(st: string, i: Idx, row: Row)
      requires Valid() && st in data && Within(Shape(), i) && |row| == |streamIds|
      modifies this`cubes, data[st]
      ensures Valid() && data == old(data)
      ensures Value() == WriteSlice(old(Value()), st, i, row)
    {
      var shape := Shape();
      var arr := data[st];
      arr[Offset(shape, i)] := row;
      cubes := cubes[st := cubes[st][i := row]];
      assert data.Keys == cubes.Keys;
      forall st', j | st' in cubes
        ensures j in cubes[st'] <==> Within(shape, j)
      {
        assert st' == st ==> cubes[st'].Keys == old(cubes[st]).Keys + iset{i};
      }
      forall st', j | st' in data && Within(shape, j)
        ensures data[st'][Offset(shape, j)] == cubes[st'][j] && |cubes[st'][j]| == |streamIds|
      {
        if st' != st {
          assert data[st'] != arr;
        } else if j != i && Offset(shape, j) == Offset(shape, i) {
          OffsetInjective(shape, i, j);
        }
      }
    }

    /** `ds.attrs[key] = value` (what `assign_attrs` does for one key). */
    method SetAttr(key: string, value: AttrValue)
      requires Valid()
      modifies this`attrs
      ensures Valid() && data == old(data)
      ensures Value() == old(Value()).(attrs := old(attrs)[key := value])
    {
      attrs := attrs[key := value];
    }

    /** `ds[coord].attrs[key] = value`. */
    method SetCoordAttr(coord: string, key: string, value: AttrValue)
      requires Valid()
      modifies this`coordAttrs
      ensures Valid() && data == old(data)
      ensures Value() == old(Value()).(coordAttrs := old(coordAttrs)[coord := AttrsOf(old(coordAttrs), coord)[key := value]])
    {
      coordAttrs := coordAttrs[coord := AttrsOf(coordAttrs, coord)[key := value]];
    }

    /** `ds[var].attrs[key] = value`. */
    method SetVarAttr(v: string, key: string, value: AttrValue)
      requires Valid()
      modifies this`varAttrs
      ensures Valid() && data == old(data)
      ensures Value() == old(Value()).(varAttrs := old(varAttrs)[v := AttrsOf(old(varAttrs), v)[key := value]])
    {
      varAttrs := varAttrs[v := AttrsOf(varAttrs, v)[key := value]];
    }
  }

  /** The attributes recorded for `name` so far (none if nothing was set). */
  function AttrsOf(table: map<string, map<string, AttrValue>>, name: string): (r: map<string, AttrValue>)
    ensures name !in table ==> r == map[]
    ensures name in table ==> r == table[name]
  {
    if name in table then table[name] else map[]
  }
}

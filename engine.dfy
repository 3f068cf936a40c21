/**
 * The first half of the dataset assembly engine (data/preprocess/functions.py
 * and its older variant functions.py): which files are used, what
 * coordinates a file name carries, the sorted deduplicated axes, the integer
 * encoding of an axis and the allocation of the empty dataset.
 *
 * The two variants differ only in constants, gathered in a `Variant`.
 */
module Engine {
  import opened Wrappers
  import opened Text
  import opened Ordering
  import opened Datasets

  /**
   * What distinguishes the two variants of the engine: the file-name markers
   * that exclude a file, the encoding table, the dimension names and the
   * statistic keys.
   */
  datatype Variant = Variant(
    markers: seq<string>,
    table: map<string, map<string, int>>,
    axisNames: seq<string>,
    statKeys: seq<string>)

  /** The names of the four categorical dimensions of `v` (every variant has five axis names). */
  function CategoricalNames(v: Variant): (names: seq<string>)
    ensures |names| == 4
  {
    if |v.axisNames| >= 4 then v.axisNames[..4] else ["landcover", "model", "scenario", "era"]
  }

  // ---------------------------------------------------------------- filter_files

  /** The name carries one of the markers as a substring. */
  predicate Excluded(name: string, markers: seq<string>)
  {
    exists k :: 0 <= k < |markers| && Contains(name, markers[k])
  }

  /** The names a filter keeps, in input order. */
  function Kept(names: seq<string>, markers: seq<string>): (kept: seq<string>)
    ensures |kept| <= |names|
  {
    if names == [] then []
    else
      var init := Kept(names[..|names| - 1], markers);
      if Excluded(names[|names| - 1], markers) then init else init + [names[|names| - 1]]
  }

  /** A name is kept exactly when it is one of the inputs and carries no marker. */
  lemma {:induction false} KeptMembers(names: seq<string>, markers: seq<string>)
    ensures forall x :: x in Kept(names, markers) <==> x in names && !Excluded(x, markers)
  {
    if names != [] {
      var init := names[..|names| - 1];
      KeptMembers(init, markers);
      assert names == init + [names[|names| - 1]];
    }
  }

  /** Filtering commutes with concatenation, so kept names stay in input order. */
  lemma {:induction false} KeptAppend(a: seq<string>, b: seq<string>, markers: seq<string>)
    ensures Kept(a + b, markers) == Kept(a, markers) + Kept(b, markers)
    decreases |b|
  {
    if b == [] {
      assert a + b == a;
    } else {
      var init := b[..|b| - 1];
      KeptAppend(a, init, markers);
      assert (a + b)[..|a + b| - 1] == a + init;
      assert (a + b)[|a + b| - 1] == b[|b| - 1];
    }
  }

  /**
   * `filter_files`: walks the names once, counting each excluded one and
   * appending each other one; the count and the kept list add up to the input.
   */
  method FilterFiles(names: seq<string>, markers: seq<string>) returns (kept: seq<string>, count: nat)
    ensures kept == Kept(names, markers)
    ensures count + |kept| == |names|
  {
    kept := [];
    count := 0;
    for i := 0 to |names|
      invariant kept == Kept(names[..i], markers)
      invariant count + |kept| == i
    {
      assert names[..i + 1][..i] == names[..i];
      var excluded := false;
      for k := 0 to |markers|
        invariant excluded <==> exists k' :: 0 <= k' < k && Contains(names[i], markers[k'])
      {
        if Contains(names[i], markers[k]) {
          excluded := true;
        }
      }
      if excluded {
        count := count + 1;
      } else {
        kept := kept + [names[i]];
      }
    }
    assert names[..|names|] == names;
  }

  // ---------------------------------------------------------------- file names

  /** The coordinates a statistics file name carries. */
  datatype Coords = Coords(landcover: string, model: string, scenario: string, variant: string, era: string)

  /** The part of `s` before its first '.', as `s.split(".")[0]` gives it. */
  function Stem(s: string): (stem: string)
    ensures '.' !in stem && stem <= s
    ensures |stem| == |s| || s[|stem|] == '.'
  {
    var parts := Split(s, '.');
    if |parts| == 1 then parts[0]
    else
      assert s == parts[0] + ['.'] + Join(parts[1..], '.');
      parts[0]
  }

  /**
   * The positional parse of a name split on '_': fields 0..3 are landcover,
   * model, scenario and variant, and the era joins field 5 with the stem of
   * field 6. A name with fewer than seven fields has no coordinates.
   */
  function ParseName(name: string): (r: Option<Coords>)
    ensures r.Some? <==> |Split(name, '_')| >= 7
    ensures r.Some? ==>
      var parts := Split(name, '_');
      && r.value.landcover == parts[0] && r.value.model == parts[1]
      && r.value.scenario == parts[2] && r.value.variant == parts[3]
      && r.value.era == parts[5] + "_" + Stem(parts[6])
  {
    var parts := Split(name, '_');
    if |parts| < 7 then None
    else Some(Coords(parts[0], parts[1], parts[2], parts[3], parts[5] + "_" + Stem(parts[6])))
  }

  /** No parsed field contains the separator, so the name is its fields joined back. */
  lemma ParsedFieldsHaveNoSeparator(name: string)
    requires ParseName(name).Some?
    ensures var c := ParseName(name).value;
      '_' !in c.landcover && '_' !in c.model && '_' !in c.scenario && '_' !in c.variant
  {
  }

  // ---------------------------------------------------------------- get_unique_coords

  /** The coordinates of the names that parse, in input order. */
  function Parsed(names: seq<string>): (cs: seq<Coords>)
    ensures |cs| <= |names|
  {
    if names == [] then []
    else
      var init := Parsed(names[..|names| - 1]);
      match ParseName(names[|names| - 1])
      case Some(c) => init + [c]
      case None => init
  }

  lemma {:induction false} ParsedMembers(names: seq<string>)
    ensures forall c :: c in Parsed(names) <==> exists n :: n in names && ParseName(n) == Some(c)
  {
    if names != [] {
      var init := names[..|names| - 1];
      ParsedMembers(init);
      assert names == init + [names[|names| - 1]];
    }
  }

  /** Field `k` of a coordinate tuple (0 landcover, 1 model, 2 scenario, 3 variant, 4 era). */
  function Field(c: Coords, k: nat): string
  {
    match k
    case 0 => c.landcover
    case 1 => c.model
    case 2 => c.scenario
    case 3 => c.variant
    case _ => c.era
  }

  function Project(cs: seq<Coords>, k: nat): (r: seq<string>)
    ensures |r| == |cs| && forall i :: 0 <= i < |cs| ==> r[i] == Field(cs[i], k)
  {
    seq(|cs|, i requires 0 <= i < |cs| => Field(cs[i], k))
  }

  /** The five axes `get_unique_coords` returns (keys landcovers/models/... or lcs/models/...). */
  datatype Axes = Axes(landcovers: seq<string>, models: seq<string>, scenarios: seq<string>,
                       variants: seq<string>, eras: seq<string>)

  /**
   * The axis that becomes categorical dimension `k` of the dataset
   * (0 landcover, 1 model, 2 scenario, 3 era); the variants are not a dimension.
   */
  function CategoricalAxis(a: Axes, k: nat): seq<string>
  {
    match k
    case 0 => a.landcovers
    case 1 => a.models
    case 2 => a.scenarios
    case _ => a.eras
  }

  /** A value is on axis `k` exactly when some parseable name carries it in field `k`. */
  ghost predicate Carried(names: seq<string>, k: nat, x: string)
  {
    exists n :: n in names && ParseName(n).Some? && Field(ParseName(n).value, k) == x
  }

  /** Projection lists exactly the field values of the tuples it projects. */
  lemma ProjectMembers(cs: seq<Coords>, k: nat, x: string)
    ensures x in Project(cs, k) <==> exists c :: c in cs && Field(c, k) == x
  {
    if exists c :: c in cs && Field(c, k) == x {
      var c :| c in cs && Field(c, k) == x;
      var i :| 0 <= i < |cs| && cs[i] == c;
      assert Project(cs, k)[i] == x;
    }
  }

  /**
   * Axis `k` of a list of names: the values the parseable names carry in
   * field `k`, each once, in increasing order.
   */
  function Axis(names: seq<string>, k: nat): (axis: seq<string>)
    ensures StrictlySorted(axis)
    ensures forall x :: x in axis <==> Carried(names, k, x)
  {
    var cs := Parsed(names);
    var axis := SortUnique(Project(cs, k));
    forall x
      ensures x in axis <==> Carried(names, k, x)
    {
      assert x in axis <==> x in Elems(Project(cs, k));
      ProjectMembers(cs, k, x);
      ParsedMembers(names);
    }
    axis
  }

  /** `get_unique_coords` as a value: the five axes. */
  function UniqueCoords(names: seq<string>): Axes
  {
    Axes(Axis(names, 0), Axis(names, 1), Axis(names, 2), Axis(names, 3), Axis(names, 4))
  }

  lemma ProjectAppend(cs: seq<Coords>, c: Coords, k: nat)
    ensures Project(cs + [c], k) == Project(cs, k) + [Field(c, k)]
  {
  }

  /**
   * `get_unique_coords`: one pass appending the five fields of each name that
   * parses (skipping the others), then `sorted(set(...))` per axis.
   */
  method GetUniqueCoords(names: seq<string>) returns (a: Axes)
    ensures a == UniqueCoords(names)
  {
    var landcovers, models, scenarios, variants, eras := [], [], [], [], [];
    ghost var cs: seq<Coords> := [];
    for i := 0 to |names|
      invariant cs == Parsed(names[..i])
      invariant landcovers == Project(cs, 0) && models == Project(cs, 1) && scenarios == Project(cs, 2)
      invariant variants == Project(cs, 3) && eras == Project(cs, 4)
    {
      assert names[..i + 1][..i] == names[..i];
      match ParseName(names[i])
      case Some(c) =>
        ProjectAppend(cs, c, 0);
        ProjectAppend(cs, c, 1);
        ProjectAppend(cs, c, 2);
        ProjectAppend(cs, c, 3);
        ProjectAppend(cs, c, 4);
        landcovers := landcovers + [c.landcover];
        models := models + [c.model];
        scenarios := scenarios + [c.scenario];
        variants := variants + [c.variant];
        eras := eras + [c.era];
        cs := cs + [c];
      case None =>
    }
    assert names[..|names|] == names;
    a := Axes(SortUnique(landcovers), SortUnique(models), SortUnique(scenarios),
              SortUnique(variants), SortUnique(eras));
  }

  /**
   * An axis depends only on which names occur: reordering or repeating the
   * names gives the identical axis.
   */
  lemma AxisDependsOnlyOnNames(xs: seq<string>, ys: seq<string>, k: nat)
    requires Elems(xs) == Elems(ys)
    ensures Axis(xs, k) == Axis(ys, k)
  {
    forall x
      ensures Carried(xs, k, x) <==> Carried(ys, k, x)
    {
      assert forall n :: n in xs <==> n in Elems(xs);
      assert forall n :: n in ys <==> n in Elems(ys);
    }
    assert Elems(Axis(xs, k)) == Elems(Axis(ys, k));
    StrictlySortedUnique(Axis(xs, k), Axis(ys, k));
  }

  /** Reordering or repeating the file names leaves all five axes unchanged. */
  lemma UniqueCoordsDependsOnlyOnNames(xs: seq<string>, ys: seq<string>)
    requires Elems(xs) == Elems(ys)
    ensures UniqueCoords(xs) == UniqueCoords(ys)
  {
    AxisDependsOnlyOnNames(xs, ys, 0);
    AxisDependsOnlyOnNames(xs, ys, 1);
    AxisDependsOnlyOnNames(xs, ys, 2);
    AxisDependsOnlyOnNames(xs, ys, 3);
    AxisDependsOnlyOnNames(xs, ys, 4);
  }

  /** A name with fewer than seven fields contributes to no axis. */
  lemma UnparseableNameContributesNothing(names: seq<string>, bad: string)
    requires |Split(bad, '_')| < 7
    ensures forall k :: Axis(names + [bad], k) == Axis(names, k)
  {
    assert Parsed(names + [bad]) == Parsed(names) by {
      assert (names + [bad])[..|names + [bad]| - 1] == names;
    }
  }

  // ---------------------------------------------------------------- encode

  datatype EncodeOutcome =
    | Encoded(codes: seq<int>)
    /** The function falls off its if/elif chain and returns None. */
    | NoSuchDimension
    /** A label the table lacks raises KeyError. */
    | UnknownLabel(name: string)

  /**
   * `encode(list, type)`: every label through `table[type]`, in order; an
   * unknown type gives None and the first unknown label raises KeyError.
   */
  function Encode(table: map<string, map<string, int>>, labels: seq<string>, dim: string): (r: EncodeOutcome)
    ensures r == NoSuchDimension <==> dim !in table
    ensures r.Encoded? ==> (|r.codes| == |labels| &&
      forall i :: 0 <= i < |labels| ==> labels[i] in table[dim] && r.codes[i] == table[dim][labels[i]])
    ensures r.UnknownLabel? ==> dim in table && r.name in labels && r.name !in table[dim]
    ensures r.UnknownLabel? ==>
      exists i :: 0 <= i < |labels| && labels[i] == r.name && forall j :: 0 <= j < i ==> labels[j] in table[dim]
    ensures dim in table ==> (r.Encoded? <==> forall i :: 0 <= i < |labels| ==> labels[i] in table[dim])
  {
    if dim !in table then NoSuchDimension
    else if labels == [] then Encoded([])
    else
      var init := Encode(table, labels[..|labels| - 1], dim);
      var last := labels[|labels| - 1];
      if init.UnknownLabel? then init
      else if last !in table[dim] then UnknownLabel(last)
      else Encoded(init.codes + [table[dim][last]])
  }

  /** The error `create_empty_dataset` stops with: the first axis with an unknown label. */
  datatype AllocError = UnknownCategory(dim: string, name: string) | MissingDimension(dim: string)

  /** Encoding axis `k` fails with error `e`: its dimension is missing, or `e` names its unknown label. */
  predicate AxisFails(v: Variant, axes: Axes, k: int, e: AllocError)
    requires 0 <= k < 4
  {
    var dim := CategoricalNames(v)[k];
    match Encode(v.table, CategoricalAxis(axes, k), dim)
    case NoSuchDimension => e == MissingDimension(dim)
    case UnknownLabel(bad) => e == UnknownCategory(dim, bad)
    case Encoded(_) => false
  }

  /** The four encoded categorical coordinates of `axes`, or the first encoding failure. */
  function EncodeAxes(v: Variant, axes: Axes): (r: Result<seq<seq<int>>, AllocError>)
    ensures r.Success? ==> (|r.value| == 4 &&
      forall k :: 0 <= k < 4 ==> Encode(v.table, CategoricalAxis(axes, k), CategoricalNames(v)[k]) == Encoded(r.value[k]))
    ensures r.Failure? <==> exists k :: 0 <= k < 4 && !Encode(v.table, CategoricalAxis(axes, k), CategoricalNames(v)[k]).Encoded?
    ensures r.Failure? ==>
      exists k :: 0 <= k < 4 && AxisFails(v, axes, k, r.error) &&
        forall j :: 0 <= j < k ==> Encode(v.table, CategoricalAxis(axes, j), CategoricalNames(v)[j]).Encoded?
  {
    EncodeFromReportsFirst(v, axes, 0);
    EncodeFrom(v, axes, 0)
  }

  function EncodeFrom(v: Variant, axes: Axes, k: nat): (r: Result<seq<seq<int>>, AllocError>)
    requires k <= 4
    ensures r.Success? ==> (|r.value| == 4 - k &&
      forall j :: k <= j < 4 ==> Encode(v.table, CategoricalAxis(axes, j), CategoricalNames(v)[j]) == Encoded(r.value[j - k]))
    ensures r.Failure? <==> exists j :: k <= j < 4 && !Encode(v.table, CategoricalAxis(axes, j), CategoricalNames(v)[j]).Encoded?
    decreases 4 - k
  {
    if k == 4 then Success([])
    else
      var dim := CategoricalNames(v)[k];
      match Encode(v.table, CategoricalAxis(axes, k), dim)
      case NoSuchDimension => Failure(MissingDimension(dim))
      case UnknownLabel(bad) => Failure(UnknownCategory(dim, bad))
      case Encoded(codes) =>
        match EncodeFrom(v, axes, k + 1)
        case Failure(e) => Failure(e)
        case Success(rest) => Success([codes] + rest)
  }

  /** The error EncodeFrom reports is that of the first axis from `k` on that fails. */
  lemma {:induction false} EncodeFromReportsFirst(v: Variant, axes: Axes, k: nat)
    requires k <= 4
    ensures var r := EncodeFrom(v, axes, k);
      r.Failure? ==>
        exists j :: k <= j < 4 && AxisFails(v, axes, j, r.error) &&
          forall i :: k <= i < j ==> Encode(v.table, CategoricalAxis(axes, i), CategoricalNames(v)[i]).Encoded?
    decreases 4 - k
  {
    var r := EncodeFrom(v, axes, k);
    if k < 4 && r.Failure? {
      if Encode(v.table, CategoricalAxis(axes, k), CategoricalNames(v)[k]).Encoded? {
        EncodeFromReportsFirst(v, axes, k + 1);
      } else {
        assert AxisFails(v, axes, k, r.error);
      }
    }
  }

  /** The dataset `create_empty_dataset` returns, as a value. */
  ghost function EmptyDataset(v: Variant, codes: seq<seq<int>>, streamIds: seq<StreamId>): Frame
    requires |codes| == 4
  {
    EmptyFrame(v.axisNames, codes[0], codes[1], codes[2], codes[3], streamIds, Elems(v.statKeys))
  }

  /**
   * `create_empty_dataset`: one all-missing array per statistic key over
   * the encoded axes and the given stream ids; an unknown label fails.
   */
  method CreateEmptyDataset(v: Variant, axes: Axes, streamIds: seq<StreamId>) returns (r: Result<Dataset, AllocError>)
    ensures r.Failure? <==> EncodeAxes(v, axes).Failure?
    ensures r.Failure? ==> r.error == EncodeAxes(v, axes).error
    ensures r.Success? ==> (fresh(r.value) && r.value.Valid() &&
      r.value.Value() == EmptyDataset(v, EncodeAxes(v, axes).value, streamIds))
  {
    var encoded := EncodeAxes(v, axes);
    if encoded.Failure? {
      return Failure(encoded.error);
    }
    var ds := Allocate(v, encoded.value, streamIds);
    return Success(ds);
  }

  /** The allocation loop of `create_empty_dataset`: one `AddVariable` per statistic key. */
  method Allocate(v: Variant, codes: seq<seq<int>>, streamIds: seq<StreamId>) returns (ds: Dataset)
    requires |codes| == 4
    ensures fresh(ds) && ds.Valid() && ds.Value() == EmptyDataset(v, codes, streamIds)
  {
    ds := new Dataset(v.axisNames, codes[0], codes[1], codes[2], codes[3], streamIds);
    for i := 0 to |v.statKeys|
      invariant fresh(ds) && ds.Valid()
      invariant ds.Value() == EmptyFrame(v.axisNames, codes[0], codes[1], codes[2], codes[3], streamIds, Elems(v.statKeys[..i]))
    {
      EmptyFrameAdd(v.axisNames, codes[0], codes[1], codes[2], codes[3], streamIds, Elems(v.statKeys[..i]), v.statKeys[i]);
      ds.AddVariable(v.statKeys[i]);
      ElemsOfLongerPrefix(v.statKeys, i);
    }
    assert v.statKeys[..|v.statKeys|] == v.statKeys;
  }
}

/**
 * data/rasdaman/build_ingest_json.py: the ingest manifest for one combined
 * statistics file. The two attribute dictionaries the script evaluates
 * ("Rasdaman Encodings" and "Statistics Metadata") are taken as already
 * parsed inputs, and the JSON text is left abstract except for the final
 * unquoting of "true" and "false".
 */
module IngestManifest {
  import opened Wrappers
  import opened Text

  // ---------------------------------------------------------------- dicts

  /** A Python dict: its key-value pairs in insertion order. */
  type Dict<K, V> = seq<(K, V)>

  function Keys<K, V>(d: Dict<K, V>): (r: seq<K>)
    ensures |r| == |d| && forall i :: 0 <= i < |d| ==> r[i] == d[i].0
  {
    seq(|d|, i requires 0 <= i < |d| => d[i].0)
  }

  predicate Distinct<T(==)>(s: seq<T>)
  {
    forall i, j :: 0 <= i < j < |s| ==> s[i] != s[j]
  }

  /** `d[k] = v`: an existing key keeps its place and takes the new value; a new key goes last. */
  function Put<K(==,!new), V>(d: Dict<K, V>, k: K, v: V): (r: Dict<K, V>)
    ensures Keys(r) == if k in Keys(d) then Keys(d) else Keys(d) + [k]
  {
    if d == [] then [(k, v)]
    else if d[0].0 == k then [(k, v)] + d[1..]
    else
      assert Keys(d) == [d[0].0] + Keys(d[1..]);
      [d[0]] + Put(d[1..], k, v)
  }

  /** The dict read as a map: a key's value is the one in its (first) pair. */
  function AsMap<K(==,!new), V>(d: Dict<K, V>): (m: map<K, V>)
    ensures forall k :: k in m <==> k in Keys(d)
  {
    if d == [] then map[]
    else
      assert Keys(d) == [d[0].0] + Keys(d[1..]);
      AsMap(d[1..])[d[0].0 := d[0].1]
  }

  /** Assigning a key changes its value and nothing else. */
  lemma {:induction false} PutEffect<K(!new), V>(d: Dict<K, V>, k: K, v: V)
    ensures AsMap(Put(d, k, v)) == AsMap(d)[k := v]
  {
    if d != [] && d[0].0 != k {
      PutEffect(d[1..], k, v);
    }
  }

  /** Assigning a key the dict does not have appends one pair. */
  lemma {:induction false} PutFresh<K(!new), V>(d: Dict<K, V>, k: K, v: V)
    requires k !in Keys(d)
    ensures Put(d, k, v) == d + [(k, v)]
  {
    if d != [] {
      assert Keys(d) == [d[0].0] + Keys(d[1..]);
      PutFresh(d[1..], k, v);
    }
  }

  /** With distinct keys, the map holds every pair of the dict. */
  lemma {:induction false} AsMapAt<K(!new), V>(d: Dict<K, V>, i: nat)
    requires Distinct(Keys(d)) && i < |d|
    ensures AsMap(d)[d[i].0] == d[i].1
  {
    if i > 0 {
      assert Keys(d[1..]) == Keys(d)[1..];
      assert d[0].0 == Keys(d)[0] != Keys(d)[i] == d[i].0;
      AsMapAt(d[1..], i - 1);
    }
  }

  // ---------------------------------------------------------------- encodings part

  /** The value of one entry of `encoding_dict`: a statistic's units or a dimension's code table. */
  datatype Encoded = Units(units: string) | CodeTable(labels: Dict<int, string>)

  /** The ways the script raises before it has a manifest. */
  datatype IngestError =
    | MissingUnits(stat: string)     // `stats_metadata[stat]["units"]` raises KeyError
    | NoGeomId                       // `all_dims.index("geom_id")` raises ValueError
    | UnknownType(kind: string)      // `title_string` is never bound

  /** The inner loop: code -> label, a later label taking a repeated code. */
  function Inverted(labels: Dict<string, int>): Dict<int, string>
  {
    if labels == [] then []
    else
      var (name, code) := labels[|labels| - 1];
      Put(Inverted(labels[..|labels| - 1]), code, name)
  }

  /** No two labels share a code. */
  predicate DistinctCodes(labels: Dict<string, int>)
  {
    forall i, j :: 0 <= i < j < |labels| ==> labels[i].1 != labels[j].1
  }

  /**
   * When no two labels share a code, the inverted table sends every code
   * back to its label, and its keys are exactly the codes.
   */
  lemma InvertedIsInverse(labels: Dict<string, int>)
    requires DistinctCodes(labels)
    ensures var inv := AsMap(Inverted(labels));
      && (forall c :: c in inv <==> c in Values(labels))
      && (forall i :: 0 <= i < |labels| ==> labels[i].1 in inv && inv[labels[i].1] == labels[i].0)
  {
    var inv := AsMap(Inverted(labels));
    assert forall c :: c in inv <==> c in Values(labels) by {
      InvertedKeys(labels);
    }
    forall i | 0 <= i < |labels|
      ensures labels[i].1 in inv && inv[labels[i].1] == labels[i].0
    {
      InvertedAt(labels, i);
    }
  }

  /** A code no other label shares maps back to its own label. */
  lemma {:induction false} InvertedAt(labels: Dict<string, int>, i: nat)
    requires DistinctCodes(labels) && i < |labels|
    ensures labels[i].1 in AsMap(Inverted(labels))
    ensures AsMap(Inverted(labels))[labels[i].1] == labels[i].0
  {
    var init := labels[..|labels| - 1];
    var (name, code) := labels[|labels| - 1];
    PutEffect(Inverted(init), code, name);
    if i < |labels| - 1 {
      assert labels[i] == init[i];
      InvertedAt(init, i);
    }
  }

  /** The inverted table's keys are the codes. */
  lemma {:induction false} InvertedKeys(labels: Dict<string, int>)
    ensures forall c :: c in Keys(Inverted(labels)) <==> c in Values(labels)
  {
    if labels != [] {
      var init := labels[..|labels| - 1];
      var (name, code) := labels[|labels| - 1];
      InvertedKeys(init);
      assert Values(labels) == Values(init) + [code];
      assert Keys(Inverted(labels)) == Keys(Put(Inverted(init), code, name));
    }
  }

  function Values<K, V>(d: Dict<K, V>): (r: seq<V>)
    ensures |r| == |d| && forall i :: 0 <= i < |d| ==> r[i] == d[i].1
  {
    seq(|d|, i requires 0 <= i < |d| => d[i].1)
  }

  /** The first loop: one entry per statistic, its units. */
  function UnitsPart(stats: Dict<string, map<string, string>>): Result<Dict<string, Encoded>, IngestError>
  {
    if stats == [] then Success([])
    else
      var last := stats[|stats| - 1];
      match UnitsPart(stats[..|stats| - 1])
      case Failure(e) => Failure(e)
      case Success(acc) =>
        if "units" in last.1 then Success(Put(acc, last.0, Units(last.1["units"])))
        else Failure(MissingUnits(last.0))
  }

  /** The second loop: one entry per dimension, its inverted code table. */
  function DimsPart(acc: Dict<string, Encoded>, encodings: Dict<string, Dict<string, int>>): Dict<string, Encoded>
  {
    if encodings == [] then acc
    else
      var (dim, labels) := encodings[|encodings| - 1];
      Put(DimsPart(acc, encodings[..|encodings| - 1]), dim, CodeTable(Inverted(labels)))
  }

  function EncodingDict(stats: Dict<string, map<string, string>>, encodings: Dict<string, Dict<string, int>>)
    : Result<Dict<string, Encoded>, IngestError>
  {
    match UnitsPart(stats)
    case Failure(e) => Failure(e)
    case Success(acc) => Success(DimsPart(acc, encodings))
  }

  /** The inner loop of the encodings part. */
  method Invert(labels: Dict<string, int>) returns (inv: Dict<int, string>)
    ensures inv == Inverted(labels)
  {
    inv := [];
    for j := 0 to |labels|
      invariant inv == Inverted(labels[..j])
    {
      assert labels[..j + 1][..j] == labels[..j];
      inv := Put(inv, labels[j].1, labels[j].0);
    }
    assert labels[..|labels|] == labels;
  }

  /** The encodings part: the units loop, then the dimension loop. */
  method BuildEncodingDict(stats: Dict<string, map<string, string>>, encodings: Dict<string, Dict<string, int>>)
    returns (r: Result<Dict<string, Encoded>, IngestError>)
    ensures r == EncodingDict(stats, encodings)
  {
    var acc: Dict<string, Encoded> := [];
    for j := 0 to |stats|
      invariant UnitsPart(stats[..j]) == Success(acc)
    {
      assert stats[..j + 1][..j] == stats[..j];
      var (stat, fields) := stats[j];
      if "units" !in fields {
        UnitsPartStuck(stats, j + 1);
        return Failure(MissingUnits(stat));
      }
      acc := Put(acc, stat, Units(fields["units"]));
    }
    assert stats[..|stats|] == stats;
    var units := acc;
    for j := 0 to |encodings|
      invariant acc == DimsPart(units, encodings[..j])
    {
      assert encodings[..j + 1][..j] == encodings[..j];
      var inv := Invert(encodings[j].1);
      acc := Put(acc, encodings[j].0, CodeTable(inv));
    }
    assert encodings[..|encodings|] == encodings;
    return Success(acc);
  }

  lemma {:induction false} UnitsPartStuck(stats: Dict<string, map<string, string>>, k: nat)
    requires 0 < k <= |stats| && UnitsPart(stats[..k]).Failure?
    ensures UnitsPart(stats) == UnitsPart(stats[..k])
  {
    if k < |stats| {
      assert stats[..|stats| - 1][..k] == stats[..k];
      UnitsPartStuck(stats[..|stats| - 1], k);
    } else {
      assert stats[..k] == stats;
    }
  }

  /** The units loop succeeds exactly when every statistic has units. */
  lemma {:induction false} UnitsPartSucceeds(stats: Dict<string, map<string, string>>)
    ensures UnitsPart(stats).Success? <==> forall i :: 0 <= i < |stats| ==> "units" in stats[i].1
    ensures UnitsPart(stats).Failure? ==> UnitsPart(stats).error.MissingUnits?
  {
    if stats != [] {
      var init := stats[..|stats| - 1];
      UnitsPartSucceeds(init);
      assert forall i :: 0 <= i < |init| ==> init[i] == stats[i];
    }
  }

  /** When it succeeds, it holds one entry per statistic, that statistic's units. */
  lemma {:induction false} UnitsPartContents(stats: Dict<string, map<string, string>>)
    requires forall i :: 0 <= i < |stats| ==> "units" in stats[i].1
    requires Distinct(Keys(stats))
    ensures UnitsPart(stats).Success?
    ensures var m := AsMap(UnitsPart(stats).value);
      && (forall k :: k in m <==> k in Keys(stats))
      && (forall i :: 0 <= i < |stats| ==> m[stats[i].0] == Units(stats[i].1["units"]))
  {
    if stats != [] {
      var init := stats[..|stats| - 1];
      var (stat, fields) := stats[|stats| - 1];
      assert forall i :: 0 <= i < |init| ==> stats[i] == init[i] && stats[i].0 != stat;
      assert Keys(stats) == Keys(init) + [stat];
      UnitsPartContents(init);
      var acc := UnitsPart(init).value;
      PutEffect(acc, stat, Units(fields["units"]));
    }
  }

  /** After the dimension loop each dimension holds its own inverted table; other keys keep their values. */
  lemma {:induction false} DimsPartContents(acc: Dict<string, Encoded>, encodings: Dict<string, Dict<string, int>>)
    requires Distinct(Keys(encodings))
    ensures var m := AsMap(DimsPart(acc, encodings));
      && (forall k :: k in m <==> k in Keys(acc) || k in Keys(encodings))
      && (forall i :: 0 <= i < |encodings| ==> m[encodings[i].0] == CodeTable(Inverted(encodings[i].1)))
      && (forall k :: k in Keys(acc) && k !in Keys(encodings) ==> m[k] == AsMap(acc)[k])
  {
    if encodings != [] {
      var init := encodings[..|encodings| - 1];
      var (dim, labels) := encodings[|encodings| - 1];
      assert Keys(encodings) == Keys(init) + [dim];
      DimsPartContents(acc, init);
      PutEffect(DimsPart(acc, init), dim, CodeTable(Inverted(labels)));
    }
  }

  /**
   * `encoding_dict` maps each statistic to its units and each dimension to
   * the exact inverse of its label-to-code table (when the codes are
   * distinct); a dimension named like a statistic takes that entry over.
   */
  lemma EncodingDictContents(stats: Dict<string, map<string, string>>, encodings: Dict<string, Dict<string, int>>)
    requires Distinct(Keys(stats)) && Distinct(Keys(encodings))
    ensures EncodingDict(stats, encodings).Success? <==> forall i :: 0 <= i < |stats| ==> "units" in stats[i].1
    ensures EncodingDict(stats, encodings).Success? ==>
      var m := AsMap(EncodingDict(stats, encodings).value);
      && (forall k :: k in m <==> k in Keys(stats) || k in Keys(encodings))
      && (forall i :: 0 <= i < |stats| && stats[i].0 !in Keys(encodings) ==> m[stats[i].0] == Units(stats[i].1["units"]))
      && (forall i :: 0 <= i < |encodings| ==>
            m[encodings[i].0].CodeTable? &&
            (DistinctCodes(encodings[i].1) ==>
              var inv := AsMap(m[encodings[i].0].labels);
              && (forall c :: c in inv <==> c in Values(encodings[i].1))
              && (forall j :: 0 <= j < |encodings[i].1| ==>
                    encodings[i].1[j].1 in inv && inv[encodings[i].1[j].1] == encodings[i].1[j].0)))
  {
    UnitsPartSucceeds(stats);
    if UnitsPart(stats).Success? {
      UnitsPartContents(stats);
      DimsPartContents(UnitsPart(stats).value, encodings);
      forall i | 0 <= i < |encodings| && DistinctCodes(encodings[i].1)
        ensures var inv := AsMap(Inverted(encodings[i].1));
          && (forall c :: c in inv <==> c in Values(encodings[i].1))
          && (forall j :: 0 <= j < |encodings[i].1| ==>
                encodings[i].1[j].1 in inv && inv[encodings[i].1[j].1] == encodings[i].1[j].0)
      {
        InvertedIsInverse(encodings[i].1);
      }
    }
  }

  // ---------------------------------------------------------------- bands part

  datatype Band = Band(name: string, identifier: string, nilValue: string)

  function BandsOf(stats: seq<string>): seq<Band>
  {
    seq(|stats|, i requires 0 <= i < |stats| => Band(stats[i], stats[i], "-9999.0"))
  }

  /** The band loop: one band per statistic, in the metadata's key order. */
  method BuildBands(stats: seq<string>) returns (bands: seq<Band>)
    ensures |bands| == |stats|
    ensures forall i :: 0 <= i < |stats| ==> bands[i] == Band(stats[i], stats[i], "-9999.0")
  {
    bands := [];
    for j := 0 to |stats|
      invariant |bands| == j
      invariant forall i :: 0 <= i < j ==> bands[i] == Band(stats[i], stats[i], "-9999.0")
    {
      bands := bands + [Band(stats[j], stats[j], "-9999.0")];
    }
  }

  // ---------------------------------------------------------------- axes part

  const GeomId := "geom_id"

  /** `all_dims.append(all_dims.pop(all_dims.index("geom_id")))`; `index` raises when it is missing. */
  function GeomIdLast(dims: seq<string>): Option<seq<string>>
  {
    if GeomId !in dims then None
    else
      var i := FirstIndex(dims, GeomId);
      Some(dims[..i] + dims[i + 1..] + [GeomId])
  }

  /** The list without any occurrence of `x`, in order. */
  function Without(s: seq<string>, x: string): (r: seq<string>)
    ensures x !in r
  {
    if s == [] then []
    else (if s[0] == x then [] else [s[0]]) + Without(s[1..], x)
  }

  lemma {:induction false} WithoutAppend(a: seq<string>, b: seq<string>, x: string)
    ensures Without(a + b, x) == Without(a, x) + Without(b, x)
  {
    if a != [] {
      assert (a + b)[1..] == a[1..] + b;
      WithoutAppend(a[1..], b, x);
    } else {
      assert a + b == b;
    }
  }

  lemma {:induction false} WithoutAbsent(s: seq<string>, x: string)
    requires x !in s
    ensures Without(s, x) == s
  {
    if s != [] {
      WithoutAbsent(s[1..], x);
    }
  }

  /**
   * The axis order exists exactly when "geom_id" is a dimension; it is a
   * rearrangement of the dimensions that ends in "geom_id".
   */
  lemma GeomIdLastShape(dims: seq<string>)
    ensures GeomIdLast(dims).Some? <==> GeomId in dims
    ensures GeomIdLast(dims).Some? ==>
      var r := GeomIdLast(dims).value;
      |r| == |dims| && r[|r| - 1] == GeomId && multiset(r) == multiset(dims)
  {
    if GeomId in dims {
      var i := FirstIndex(dims, GeomId);
      assert dims == dims[..i] + [GeomId] + dims[i + 1..];
    }
  }

  /**
   * With distinct dimensions the axis order is distinct too, and the
   * dimensions other than "geom_id" keep their relative order.
   */
  lemma GeomIdLastKeepsOrder(dims: seq<string>)
    requires GeomId in dims && Distinct(dims)
    ensures var r := GeomIdLast(dims).value;
      && |r| == |dims| && Distinct(r) && r[..|r| - 1] == Without(dims, GeomId)
  {
    var i := FirstIndex(dims, GeomId);
    var r := GeomIdLast(dims).value;
    var before, after := dims[..i], dims[i + 1..];
    assert dims == before + [GeomId] + after;
    assert r == before + after + [GeomId];
    assert GeomId !in after by {
      forall j | 0 <= j < |after| ensures after[j] != GeomId {
        assert after[j] == dims[i + 1 + j];
      }
    }
    WithoutOne(before, after, GeomId);
    assert r[..|r| - 1] == before + after;
    DistinctMoved(before, after, GeomId);
  }

  lemma {:induction false} WithoutOne(before: seq<string>, after: seq<string>, x: string)
    requires x !in before && x !in after
    ensures Without(before + [x] + after, x) == before + after
  {
    calc {
      Without(before + [x] + after, x);
      { WithoutAppend(before + [x], after, x); }
      Without(before + [x], x) + Without(after, x);
      { WithoutAppend(before, [x], x); WithoutAbsent(after, x); }
      Without(before, x) + Without([x], x) + after;
      { WithoutAbsent(before, x); assert Without([x], x) == []; }
      before + after;
    }
  }

  lemma DistinctMoved(before: seq<string>, after: seq<string>, x: string)
    requires Distinct(before + [x] + after)
    ensures Distinct(before + after + [x])
  {
    var d, r, i := before + [x] + after, before + after + [x], |before|;
    forall a, b | 0 <= a < b < |r| ensures r[a] != r[b]
    {
      var a' := if a < i then a else a + 1;
      var b' := if b == |r| - 1 then i else if b < i then b else b + 1;
      assert r[a] == d[a'];
      assert r[b] == d[b'];
    }
  }

  datatype Axis = Axis(min: string, max: string, directPositions: string, gridOrder: nat, irregular: string)

  /** The entry of `axes_dict` for a dimension at grid position `order`. */
  function AxisFor(dim: string, order: nat): Axis
  {
    Axis("${netcdf:variable:" + dim + ":min}", "${netcdf:variable:" + dim + ":max}",
         "${netcdf:variable:" + dim + "}", order, "true")
  }

  /** The axes loop as a fold: each dimension in turn takes the next grid position. */
  function AxesOf(dims: seq<string>): Dict<string, Axis>
  {
    if dims == [] then []
    else Put(AxesOf(dims[..|dims| - 1]), dims[|dims| - 1], AxisFor(dims[|dims| - 1], |dims| - 1))
  }

  /** The axes loop with its `grid_order` counter. */
  method BuildAxes(dims: seq<string>) returns (axes: Dict<string, Axis>)
    ensures axes == AxesOf(dims)
  {
    axes := [];
    var gridOrder := 0;
    for j := 0 to |dims|
      invariant gridOrder == j
      invariant axes == AxesOf(dims[..j])
    {
      assert dims[..j + 1][..j] == dims[..j];
      axes := Put(axes, dims[j], AxisFor(dims[j], gridOrder));
      gridOrder := gridOrder + 1;
    }
    assert dims[..|dims|] == dims;
  }

  /** With distinct dimensions the axes follow their order, and the grid positions are 0, 1, ..., n-1. */
  lemma {:induction false} AxesInGridOrder(dims: seq<string>)
    requires Distinct(dims)
    ensures |AxesOf(dims)| == |dims|
    ensures forall i :: 0 <= i < |dims| ==> AxesOf(dims)[i] == (dims[i], AxisFor(dims[i], i))
    ensures forall i :: 0 <= i < |dims| ==> AxesOf(dims)[i].1.gridOrder == i
  {
    if dims != [] {
      var init := dims[..|dims| - 1];
      AxesInGridOrder(init);
      assert Keys(AxesOf(init)) == init;
      PutFresh(AxesOf(init), dims[|dims| - 1], AxisFor(dims[|dims| - 1], |dims| - 1));
    }
  }

  // ---------------------------------------------------------------- the manifest

  datatype Target = Target(title: string, coverageId: string, ncPath: string)

  /** The geometry-specific part; any other type leaves the title unbound. */
  function TargetOf(kind: string): (r: Option<Target>)
    ensures r.Some? <==> kind == "seg" || kind == "hru"
  {
    if kind == "seg" then
      Some(Target("'Hydrological Summary Statistics for CONUS Stream Segments'", "conus_hydro_segments", "seg.nc"))
    else if kind == "hru" then
      Some(Target("'Hydrological Summary Statistics for CONUS Watersheds'", "conus_hydro_hrus", "hru.nc"))
    else None
  }

  /** The parts of the ingest dictionary that depend on the inputs. */
  datatype Manifest = Manifest(target: Target, encoding: Dict<string, Encoded>, bands: seq<Band>, axes: Dict<string, Axis>)

  function Ingest(stats: Dict<string, map<string, string>>, encodings: Dict<string, Dict<string, int>>, kind: string)
    : Result<Manifest, IngestError>
  {
    Assemble(EncodingDict(stats, encodings), GeomIdLast(Keys(encodings)), TargetOf(kind), kind, BandsOf(Keys(stats)))
  }

  /** The parts in the order the script computes them; the first failure wins. */
  function Assemble(enc: Result<Dict<string, Encoded>, IngestError>, dims: Option<seq<string>>, target: Option<Target>,
                    kind: string, bands: seq<Band>): Result<Manifest, IngestError>
  {
    match enc
    case Failure(e) => Failure(e)
    case Success(enc) =>
      match dims
      case None => Failure(NoGeomId)
      case Some(dims) =>
        match target
        case None => Failure(UnknownType(kind))
        case Some(t) => Success(Manifest(t, enc, bands, AxesOf(dims)))
  }

  /** `build_ingest_json`, up to the JSON text. */
  method BuildIngest(stats: Dict<string, map<string, string>>, encodings: Dict<string, Dict<string, int>>, kind: string)
    returns (r: Result<Manifest, IngestError>)
    ensures r == Ingest(stats, encodings, kind)
  {
    var enc := BuildEncodingDict(stats, encodings);
    if enc.Failure? {
      return Failure(enc.error);
    }
    var bands := BuildBands(Keys(stats));
    assert bands == BandsOf(Keys(stats));
    var dims := GeomIdLast(Keys(encodings));
    if dims.None? {
      return Failure(NoGeomId);
    }
    var axes := BuildAxes(dims.value);
    var target := TargetOf(kind);
    if target.None? {
      return Failure(UnknownType(kind));
    }
    r := Success(Manifest(target.value, enc.value, bands, axes));
  }

  /**
   * The script fails exactly when a statistic has no units, "geom_id" is
   * not a dimension, or the geometry type is neither "seg" nor "hru", and
   * it reports the first of these in that order.
   */
  lemma IngestOutcome(stats: Dict<string, map<string, string>>, encodings: Dict<string, Dict<string, int>>, kind: string)
    ensures var r := Ingest(stats, encodings, kind);
      && (r.Success? <==>
            (forall i :: 0 <= i < |stats| ==> "units" in stats[i].1) && GeomId in Keys(encodings) && (kind == "seg" || kind == "hru"))
      && (r.Failure? && r.error.MissingUnits? <==> exists i :: 0 <= i < |stats| && "units" !in stats[i].1)
      && (r.Failure? && r.error.NoGeomId? <==>
            (forall i :: 0 <= i < |stats| ==> "units" in stats[i].1) && GeomId !in Keys(encodings))
  {
    UnitsPartSucceeds(stats);
    GeomIdLastShape(Keys(encodings));
  }

  /**
   * A manifest has one band per statistic, named by it, and its axes are
   * those the dimension names give, "geom_id" last (see AxesOfDimensions).
   */
  lemma IngestParts(stats: Dict<string, map<string, string>>, encodings: Dict<string, Dict<string, int>>, kind: string,
                    m: Manifest)
    requires Ingest(stats, encodings, kind) == Success(m)
    ensures GeomId in Keys(encodings) && (kind == "seg" || kind == "hru")
    ensures |m.bands| == |stats|
    ensures forall i :: 0 <= i < |stats| ==> m.bands[i] == Band(stats[i].0, stats[i].0, "-9999.0")
    ensures m.axes == AxesOf(GeomIdLast(Keys(encodings)).value)
  {
    GeomIdLastShape(Keys(encodings));
  }

  /**
   * The axes built from distinct dimensions that include "geom_id": one per
   * dimension, "geom_id" last, grid positions 0, 1, ..., n-1 in axis order.
   */
  lemma AxesOfDimensions(names: seq<string>)
    requires GeomId in names && Distinct(names)
    ensures var axes := AxesOf(GeomIdLast(names).value);
      && |axes| == |names|
      && axes[|names| - 1].0 == GeomId
      && multiset(Keys(axes)) == multiset(names)
      && (forall i :: 0 <= i < |names| ==> axes[i].1.gridOrder == i)
  {
    var dims := GeomIdLast(names).value;
    GeomIdLastShape(names);
    GeomIdLastKeepsOrder(names);
    AxesInGridOrder(dims);
    assert Keys(AxesOf(dims)) == dims;
  }

  // ---------------------------------------------------------------- true / false unquoting

  /** A piece of the JSON text: punctuation and layout, or a double-quoted string. */
  datatype Token = Plain(text: string) | Quoted(text: string)

  function Render(ts: seq<Token>): string
  {
    if ts == [] then ""
    else (if ts[0].Plain? then ts[0].text else "\"" + ts[0].text + "\"") + Render(ts[1..])
  }

  /** What follows a closing quote in the text `json.dumps` writes. */
  predicate Punctuation(c: char)
  {
    c == ',' || c == ':' || c == '}' || c == ']' || c == ' ' || c == '\n'
  }

  /**
   * The text of a string as `json.dumps` writes it between its quotes: every
   * quote character in it is escaped by a backslash.
   */
  predicate EscapedQuotes(s: string)
  {
    forall j :: 0 <= j < |s| && s[j] == '"' ==> 0 < j && s[j - 1] == '\\'
  }

  /** The string's text ends in an escaped quote followed by `w`, as `x"true` is written `x\"true`. */
  predicate EndsInQuoted(s: string, w: string)
  {
    |s| > |w| && s[|s| - |w| - 1..] == "\"" + w
  }

  /**
   * JSON text as `json.dumps` writes it: punctuation, layout, numbers and
   * keywords without quote characters, and strings whose inner quotes are
   * escaped, each followed by punctuation (or ending the text).
   */
  predicate JsonLike(ts: seq<Token>)
  {
    forall i :: 0 <= i < |ts| ==>
      && (ts[i].Plain? ==> '"' !in ts[i].text)
      && (ts[i].Quoted? ==> EscapedQuotes(ts[i].text))
      && (ts[i].Quoted? && i + 1 < |ts| ==> ts[i + 1].Plain? && |ts[i + 1].text| > 0 && Punctuation(ts[i + 1].text[0]))
  }

  /** No string of the text ends in an escaped quote followed by `w`. */
  predicate NoQuotedSuffix(ts: seq<Token>, w: string)
  {
    forall i :: 0 <= i < |ts| && ts[i].Quoted? ==> !EndsInQuoted(ts[i].text, w)
  }

  /** A word `replace` may unquote exactly: no quote or backslash at its ends or inside. */
  predicate Word(w: string)
  {
    |w| > 0 && '"' !in w && !Punctuation(w[0]) && w[|w| - 1] != '\\'
  }

  /** The pieces with the string `w` turned into bare text. */
  function Unquoted(ts: seq<Token>, w: string): (r: seq<Token>)
    ensures |r| == |ts|
    ensures forall i :: 0 <= i < |ts| ==> r[i] == if ts[i] == Quoted(w) then Plain(w) else ts[i]
  {
    seq(|ts|, i requires 0 <= i < |ts| => if ts[i] == Quoted(w) then Plain(w) else ts[i])
  }

  /** The last two statements of the script. */
  function UnquoteBooleans(json: string): string
  {
    ReplaceAll(ReplaceAll(json, "\"false\"", "false"), "\"true\"", "true")
  }

  lemma ReplaceQuoteFree(s: string, pat: string, rep: string)
    requires |pat| > 0 && pat[0] !in s
    ensures ReplaceAll(s, pat, rep) == s
  {
    ReplaceSkipsPrefix(s, "", pat, rep);
    assert s + "" == s;
  }

  /** One replacement pass over JSON-like text touches exactly the strings equal to `w`. */
  lemma {:induction false} ReplaceOnePass(ts: seq<Token>, w: string)
    requires JsonLike(ts) && NoQuotedSuffix(ts, w) && Word(w)
    ensures ReplaceAll(Render(ts), "\"" + w + "\"", w) == Render(Unquoted(ts, w))
  {
    var pat := "\"" + w + "\"";
    if ts != [] {
      var rest := ts[1..];
      assert JsonLike(rest) && NoQuotedSuffix(rest, w) by {
        forall i | 0 <= i < |rest| ensures rest[i] == ts[i + 1] { }
      }
      assert Unquoted(ts, w)[1..] == Unquoted(rest, w);
      ReplaceOnePass(rest, w);
      var s := ts[0].text;
      var tail := Render(rest);
      if ts[0].Plain? {
        ReplaceSkipsPrefix(s, tail, pat, w);
      } else if s == w {
        assert Render(ts) == pat + tail;
        ReplaceAtFront(tail, pat, w);
      } else {
        assert tail == [] || Punctuation(tail[0]) by {
          if rest != [] {
            assert tail == rest[0].text + Render(rest[1..]);
          }
        }
        var a := "\"" + s + "\"";
        forall i | 0 <= i < |a| ensures !StartsWith((a + tail)[i..], pat) {
          NoMatchInString(s, tail, w, i);
        }
        ReplaceNoMatchPrefix(a, tail, pat, w);
      }
    }
  }

  /**
   * Inside a string other than `w` whose quotes are escaped and which does not
   * end in an escaped quote followed by `w`, and at its two quotes, the quoted
   * `w` does not start.
   */
  lemma {:induction false} NoMatchInString(s: string, tail: string, w: string, i: int)
    requires EscapedQuotes(s) && !EndsInQuoted(s, w) && Word(w) && s != w
    requires tail == [] || Punctuation(tail[0])
    requires 0 <= i < |s| + 2
    ensures !StartsWith(("\"" + s + "\"" + tail)[i..], "\"" + w + "\"")
  {
    var text, pat := "\"" + s + "\"" + tail, "\"" + w + "\"";
    var n := |w|;
    assert |text| == |s| + 2 + |tail| && |pat| == n + 2;
    assert text[0] == '"' && text[|s| + 1] == '"';
    assert forall k :: 0 <= k < |s| ==> text[k + 1] == s[k];
    assert forall k :: 0 <= k < |tail| ==> text[|s| + 2 + k] == tail[k];
    assert forall k :: 0 <= k < n ==> pat[k + 1] == w[k];
    assert pat[0] == '"' && pat[n + 1] == '"';
    if i + n + 2 <= |text| {
      // a position k of the pattern at which the text differs from it
      var k: int;
      if i == 0 {
        if |s| < n {
          k := |s| + 1;
        } else if |s| == n {
          var d :| 0 <= d < n && s[d] != w[d];
          k := d + 1;
        } else if s[n] != '"' {
          k := n + 1;
        } else {
          k := n;
        }
      } else if i <= |s| {
        var q := i + n + 1;
        if s[i - 1] != '"' {
          k := 0;
        } else if q <= |s| {
          k := if s[q - 1] != '"' then n + 1 else n;
        } else if q == |s| + 1 {
          assert |s[i - 1..]| == |"\"" + w|;
          var d :| 0 <= d < n + 1 && s[i - 1..][d] != ("\"" + w)[d];
          assert s[i - 1..][d] == s[i - 1 + d] == text[i + d];
          assert ("\"" + w)[d] == pat[d];
          k := d;
        } else {
          k := |s| + 1 - i;
        }
      } else {
        k := 1;
      }
      assert 0 <= k < n + 2 && text[i + k] != pat[k];
      assert text[i..][..n + 2][k] == text[i + k];
    }
  }

  /**
   * Every quoted "true" and "false" in JSON text as `json.dumps` writes it
   * loses its quotes, and the rest of the text is left as it was, unless a
   * string's own text ends in an escaped quote followed by one of the words.
   */
  lemma UnquoteBooleansEffect(ts: seq<Token>)
    requires JsonLike(ts) && NoQuotedSuffix(ts, "false") && NoQuotedSuffix(ts, "true")
    ensures UnquoteBooleans(Render(ts)) == Render(Unquoted(Unquoted(ts, "false"), "true"))
  {
    assert "\"" + "false" + "\"" == "\"false\"";
    assert "\"" + "true" + "\"" == "\"true\"";
    assert Word("false") && Word("true");
    ReplaceOnePass(ts, "false");
    var ts' := Unquoted(ts, "false");
    assert JsonLike(ts') && NoQuotedSuffix(ts', "true") by {
      forall i | 0 <= i < |ts'|
        ensures ts'[i].Plain? ==> '"' !in ts'[i].text
        ensures ts'[i].Quoted? ==> ts'[i] == ts[i]
        ensures ts'[i].Quoted? && i + 1 < |ts'| ==>
          ts'[i + 1].Plain? && |ts'[i + 1].text| > 0 && Punctuation(ts'[i + 1].text[0])
      {
        if ts'[i].Quoted? && i + 1 < |ts'| {
          assert ts[i].Quoted? && ts'[i + 1] == ts[i + 1];
        }
      }
    }
    ReplaceOnePass(ts', "true");
  }

  /** One axis of the crs value, as `json.dumps` writes it between the value's quotes. */
  function CrsAxis(name: string): string
  {
    "OGC/0/Index1D?axis-label=\\\"" + name + "\\\""
  }

  /** The crs value of the manifest as `json.dumps` writes it between its quotes. */
  const CrsText: string :=
    CrsAxis("lc") + "@" + CrsAxis("model") + "@" + CrsAxis("scenario") + "@" + CrsAxis("era") + "@" + CrsAxis(GeomId)

  /** The line of the manifest that holds the crs falls under UnquoteBooleansEffect. */
  lemma CrsLineIsJsonLike()
    ensures var line := [Quoted("crs"), Plain(": "), Quoted(CrsText), Plain(",\n")];
      JsonLike(line) && NoQuotedSuffix(line, "true") && NoQuotedSuffix(line, "false")
  {
    CrsTextIsEscaped();
    StringLineIsJsonLike("crs", CrsText, "true");
    StringLineIsJsonLike("crs", CrsText, "false");
  }

  /** A key and a string value ending in a quote make a line of JSON text that no word's `replace` corrupts. */
  lemma StringLineIsJsonLike(key: string, value: string, w: string)
    requires EscapedQuotes(key) && |key| <= |w| && EscapedQuotes(value)
    requires |value| > 0 && value[|value| - 1] == '"' && |w| > 0 && w[|w| - 1] != '"'
    ensures var line := [Quoted(key), Plain(": "), Quoted(value), Plain(",\n")];
      JsonLike(line) && NoQuotedSuffix(line, w)
  {
    EndsInQuotedLast(value, w);
  }

  /** The crs value has every quote escaped and ends in a quote. */
  lemma CrsTextIsEscaped()
    ensures EscapedQuotes(CrsText) && |CrsText| > 0 && CrsText[|CrsText| - 1] == '"'
  {
    var names := ["lc", "model", "scenario", "era", GeomId];
    forall k | 0 <= k < |names| ensures EscapedQuotes(CrsAxis(names[k])) {
      CrsAxisIsEscaped(names[k]);
    }
    var t := CrsAxis("lc");
    EscapedAppend(t, "@");
    EscapedAppend(t + "@", CrsAxis("model"));
    t := t + "@" + CrsAxis("model");
    EscapedAppend(t, "@");
    EscapedAppend(t + "@", CrsAxis("scenario"));
    t := t + "@" + CrsAxis("scenario");
    EscapedAppend(t, "@");
    EscapedAppend(t + "@", CrsAxis("era"));
    t := t + "@" + CrsAxis("era");
    EscapedAppend(t, "@");
    EscapedAppend(t + "@", CrsAxis(GeomId));
    t := t + "@" + CrsAxis(GeomId);
    assert t == CrsText;
    var last := CrsAxis(GeomId);
    assert CrsText[|CrsText| - 1] == last[|last| - 1] == '"';
  }

  lemma CrsAxisIsEscaped(name: string)
    requires '"' !in name
    ensures EscapedQuotes(CrsAxis(name))
  {
    var a := CrsAxis(name);
    var p := |"OGC/0/Index1D?axis-label=\\\""|;
    assert forall j :: 0 <= j < p - 1 ==> a[j] != '"';
    assert a[p - 2] == '\\' && a[p - 1] == '"';
    assert forall j :: p <= j < p + |name| ==> a[j] == name[j - p];
    assert a[p + |name|] == '\\' && a[p + |name| + 1] == '"';
  }

  /** Appending text whose first character is not a quote keeps every quote escaped. */
  lemma EscapedAppend(a: string, b: string)
    requires EscapedQuotes(a) && EscapedQuotes(b)
    ensures EscapedQuotes(a + b)
  {
    forall j | 0 <= j < |a + b| && (a + b)[j] == '"' ensures 0 < j && (a + b)[j - 1] == '\\' {
      if j >= |a| {
        assert (a + b)[j] == b[j - |a|];
        if j > |a| { assert (a + b)[j - 1] == b[j - |a| - 1]; }
      }
    }
  }

  lemma EndsInQuotedLast(s: string, w: string)
    requires |w| > 0
    ensures EndsInQuoted(s, w) ==> s[|s| - 1] == w[|w| - 1]
  {
    if EndsInQuoted(s, w) {
      assert s[|s| - |w| - 1..][|w|] == s[|s| - 1];
    }
  }
}

/**
 * `populate_encodings_metadata` of data/preprocess/functions.py: each
 * categorical coordinate gets its decoding table as its "encoding"
 * attribute, and each statistic gets its description and units from the
 * statistics table. Any lookup that fails raises KeyError and ends the run.
 */
module Metadata {
  import opened Wrappers
  import opened Datasets
  import Luts

  const EncodingKey: string := "encoding"
  const DescriptionKey: string := "description"
  const UnitsKey: string := "units"

  type AttrTable = map<string, map<string, AttrValue>>

  /**
   * The coordinate loop over `dims`: `ds[dim].attrs["encoding"] =
   * str(reverse[dim])`, None once `dim` is not a coordinate of the dataset
   * or not a key of the reverse table.
   */
  function SetEncodings(attrs: AttrTable, coords: seq<string>, reverse: map<string, map<int, string>>,
                        dims: seq<string>): Option<AttrTable>
  {
    if dims == [] then Some(attrs)
    else
      match SetEncodings(attrs, coords, reverse, dims[..|dims| - 1])
      case None => None
      case Some(a) =>
        var dim := dims[|dims| - 1];
        if dim in coords && dim in reverse then
          Some(a[dim := AttrsOf(a, dim)[EncodingKey := EncodingRepr(reverse[dim])]])
        else None
  }

  /**
   * The variable loop over `keys`: `ds[var].attrs["description"]` and
   * `["units"]` from the statistics table `info`, None once `var` is not a
   * variable of the dataset or has no entry.
   */
  function SetDescriptions(attrs: AttrTable, vars: set<string>, info: string -> Option<Luts.StatMeta>,
                           keys: seq<string>): Option<AttrTable>
  {
    if keys == [] then Some(attrs)
    else
      match SetDescriptions(attrs, vars, info, keys[..|keys| - 1])
      case None => None
      case Some(a) =>
        var key := keys[|keys| - 1];
        if key in vars && info(key).Some? then
          var m := info(key).value;
          var a' := a[key := AttrsOf(a, key)[DescriptionKey := Text(m.description)]];
          Some(a'[key := AttrsOf(a', key)[UnitsKey := Text(m.units)]])
        else None
  }

  /** The whole of `populate_encodings_metadata`, None where it raises. */
  function Annotate(f: Frame, reverse: map<string, map<int, string>>, dims: seq<string>,
                    info: string -> Option<Luts.StatMeta>, keys: seq<string>): Option<Frame>
  {
    match (SetEncodings(f.coordAttrs, f.axisNames, reverse, dims), SetDescriptions(f.varAttrs, f.vars.Keys, info, keys))
    case (Some(c), Some(v)) => Some(f.(coordAttrs := c, varAttrs := v))
    case _ => None
  }

  /** Once a prefix of the loop has raised, the whole loop has. */
  lemma {:induction false} SetEncodingsStuck(attrs: AttrTable, coords: seq<string>, reverse: map<string, map<int, string>>,
                                             dims: seq<string>, k: nat)
    requires k <= |dims| && SetEncodings(attrs, coords, reverse, dims[..k]).None?
    ensures SetEncodings(attrs, coords, reverse, dims).None?
  {
    if k < |dims| {
      assert dims[..|dims| - 1][..k] == dims[..k];
      SetEncodingsStuck(attrs, coords, reverse, dims[..|dims| - 1], k);
    } else {
      assert dims[..k] == dims;
    }
  }

  lemma {:induction false} SetDescriptionsStuck(attrs: AttrTable, vars: set<string>, info: string -> Option<Luts.StatMeta>,
                                                keys: seq<string>, k: nat)
    requires k <= |keys| && SetDescriptions(attrs, vars, info, keys[..k]).None?
    ensures SetDescriptions(attrs, vars, info, keys).None?
  {
    if k < |keys| {
      assert keys[..|keys| - 1][..k] == keys[..k];
      SetDescriptionsStuck(attrs, vars, info, keys[..|keys| - 1], k);
    } else {
      assert keys[..k] == keys;
    }
  }

  /** The coordinate loop succeeds exactly when every dimension is a coordinate with a decoding table. */
  lemma {:induction false} SetEncodingsSucceeds(attrs: AttrTable, coords: seq<string>, reverse: map<string, map<int, string>>,
                                                dims: seq<string>)
    ensures SetEncodings(attrs, coords, reverse, dims).Some? <==>
      forall k :: 0 <= k < |dims| ==> dims[k] in coords && dims[k] in reverse
  {
    if dims != [] {
      SetEncodingsSucceeds(attrs, coords, reverse, dims[..|dims| - 1]);
    }
  }

  /**
   * After the coordinate loop each dimension carries its decoding table as
   * its "encoding", every other attribute of every coordinate is kept, and
   * coordinates outside `dims` are untouched.
   */
  lemma {:induction false} SetEncodingsEffect(attrs: AttrTable, coords: seq<string>, reverse: map<string, map<int, string>>,
                                              dims: seq<string>, d: string)
    requires SetEncodings(attrs, coords, reverse, dims).Some?
    ensures var a := SetEncodings(attrs, coords, reverse, dims).value;
      && (d in dims ==> d in reverse && d in a && EncodingKey in a[d] && a[d][EncodingKey] == EncodingRepr(reverse[d]))
      && (d !in dims ==> AttrsOf(a, d) == AttrsOf(attrs, d))
      && (forall key :: key != EncodingKey && key in AttrsOf(attrs, d) ==>
            key in AttrsOf(a, d) && AttrsOf(a, d)[key] == AttrsOf(attrs, d)[key])
  {
    if dims != [] {
      var init := dims[..|dims| - 1];
      SetEncodingsEffect(attrs, coords, reverse, init, d);
      assert d in dims <==> d in init || d == dims[|dims| - 1];
    }
  }

  /** The variable loop succeeds exactly when every key is a variable with an entry in the statistics table. */
  lemma {:induction false} SetDescriptionsSucceeds(attrs: AttrTable, vars: set<string>, info: string -> Option<Luts.StatMeta>,
                                                   keys: seq<string>)
    ensures SetDescriptions(attrs, vars, info, keys).Some? <==>
      forall k :: 0 <= k < |keys| ==> keys[k] in vars && info(keys[k]).Some?
  {
    if keys != [] {
      SetDescriptionsSucceeds(attrs, vars, info, keys[..|keys| - 1]);
    }
  }

  /**
   * After the variable loop each statistic carries its entry's description
   * and units, every other attribute of every variable is kept, and
   * variables outside `keys` are untouched.
   */
  lemma {:induction false} SetDescriptionsEffect(attrs: AttrTable, vars: set<string>, info: string -> Option<Luts.StatMeta>,
                                                 keys: seq<string>, v: string)
    requires SetDescriptions(attrs, vars, info, keys).Some?
    ensures var a := SetDescriptions(attrs, vars, info, keys).value;
      && (v in keys ==>
            && info(v).Some? && v in a && DescriptionKey in a[v] && UnitsKey in a[v]
            && a[v][DescriptionKey] == Text(info(v).value.description)
            && a[v][UnitsKey] == Text(info(v).value.units))
      && (v !in keys ==> AttrsOf(a, v) == AttrsOf(attrs, v))
      && (forall key :: key != DescriptionKey && key != UnitsKey && key in AttrsOf(attrs, v) ==>
            key in AttrsOf(a, v) && AttrsOf(a, v)[key] == AttrsOf(attrs, v)[key])
  {
    if keys != [] {
      var init := keys[..|keys| - 1];
      SetDescriptionsEffect(attrs, vars, info, init, v);
      assert v in keys <==> v in init || v == keys[|keys| - 1];
    }
  }

  /**
   * With the current tables, `populate_encodings_metadata` succeeds exactly
   * when the four categorical dimensions are coordinates and every statistic
   * is a variable with an entry in the table; it then changes nothing but
   * coordinate and variable attributes, so the data, the axes and the global
   * attributes stay as they were.
   */
  lemma AnnotateCurrent(f: Frame)
    ensures var r := Annotate(f, Luts.ReverseEncodingsLookup, Luts.CategoricalDims, Luts.StatInfo, Luts.StatKeys);
      && (r.Some? <==>
            && (forall k :: 0 <= k < |Luts.CategoricalDims| ==> Luts.CategoricalDims[k] in f.axisNames)
            && (forall k :: 0 <= k < |Luts.StatKeys| ==> Luts.StatKeys[k] in f.vars))
      && (r.Some? ==> r.value == f.(coordAttrs := r.value.coordAttrs, varAttrs := r.value.varAttrs))
  {
    Luts.TablesCoverCategoricalDims();
    Luts.StatInfoCoversKeys();
    SetEncodingsSucceeds(f.coordAttrs, f.axisNames, Luts.ReverseEncodingsLookup, Luts.CategoricalDims);
    SetDescriptionsSucceeds(f.varAttrs, f.vars.Keys, Luts.StatInfo, Luts.StatKeys);
  }

  /** The coordinate loop, on the dataset object; returns the dimension the KeyError is about, if one is raised. */
  method WriteEncodings(ds: Dataset, reverse: map<string, map<int, string>>, dims: seq<string>) returns (err: Option<string>)
    requires ds.Valid()
    modifies ds`coordAttrs
    ensures ds.Valid() && ds.data == old(ds.data)
    ensures err.None? <==> SetEncodings(old(ds.coordAttrs), old(ds.axisNames), reverse, dims).Some?
    ensures err.None? ==> ds.Value() == old(ds.Value()).(coordAttrs := SetEncodings(old(ds.coordAttrs), old(ds.axisNames), reverse, dims).value)
  {
    ghost var f0 := ds.Value();
    for k := 0 to |dims|
      invariant ds.Valid() && ds.data == old(ds.data)
      invariant SetEncodings(f0.coordAttrs, f0.axisNames, reverse, dims[..k]) == Some(ds.coordAttrs)
      invariant ds.Value() == f0.(coordAttrs := ds.coordAttrs)
    {
      assert dims[..k + 1][..k] == dims[..k];
      var dim := dims[k];
      if dim !in ds.axisNames || dim !in reverse {
        SetEncodingsStuck(f0.coordAttrs, f0.axisNames, reverse, dims, k + 1);
        return Some(dim);
      }
      ds.SetCoordAttr(dim, EncodingKey, EncodingRepr(reverse[dim]));
    }
    assert dims[..|dims|] == dims;
    err := None;
  }

  /** The variable loop, on the dataset object; returns the variable the KeyError is about, if one is raised. */
  method WriteDescriptions(ds: Dataset, info: string -> Option<Luts.StatMeta>, keys: seq<string>) returns (err: Option<string>)
    requires ds.Valid()
    modifies ds`varAttrs
    ensures ds.Valid() && ds.data == old(ds.data)
    ensures err.None? <==> SetDescriptions(old(ds.varAttrs), old(ds.cubes.Keys), info, keys).Some?
    ensures err.None? ==> ds.Value() == old(ds.Value()).(varAttrs := SetDescriptions(old(ds.varAttrs), old(ds.cubes.Keys), info, keys).value)
  {
    ghost var f0 := ds.Value();
    for k := 0 to |keys|
      invariant ds.Valid() && ds.data == old(ds.data)
      invariant SetDescriptions(f0.varAttrs, f0.vars.Keys, info, keys[..k]) == Some(ds.varAttrs)
      invariant ds.Value() == f0.(varAttrs := ds.varAttrs)
    {
      assert keys[..k + 1][..k] == keys[..k];
      var key := keys[k];
      var m := info(key);
      if key !in ds.data || m.None? {
        SetDescriptionsStuck(f0.varAttrs, f0.vars.Keys, info, keys, k + 1);
        return Some(key);
      }
      ds.SetVarAttr(key, DescriptionKey, Text(m.value.description));
      ds.SetVarAttr(key, UnitsKey, Text(m.value.units));
    }
    assert keys[..|keys|] == keys;
    err := None;
  }

  /**
   * `populate_encodings_metadata`, on the dataset object; returns the name
   * the KeyError is about, if one is raised.
   */
  method PopulateEncodingsMetadata(ds: Dataset, reverse: map<string, map<int, string>>, dims: seq<string>,
                                   info: string -> Option<Luts.StatMeta>, keys: seq<string>) returns (err: Option<string>)
    requires ds.Valid()
    modifies ds`coordAttrs, ds`varAttrs
    ensures ds.Valid() && ds.data == old(ds.data)
    ensures err.None? <==> Annotate(old(ds.Value()), reverse, dims, info, keys).Some?
    ensures err.None? ==> ds.Value() == Annotate(old(ds.Value()), reverse, dims, info, keys).value
  {
    err := WriteEncodings(ds, reverse, dims);
    if err.Some? {
      return;
    }
    err := WriteDescriptions(ds, info, keys);
  }
}

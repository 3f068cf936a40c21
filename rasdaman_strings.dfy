/**
 * data/hydrograph_preprocessing/convert_strings_for_rasdaman.py: the string
 * coordinates of a dataset are replaced by their positions in the sorted
 * list of their distinct values, and the position-to-string table is kept in
 * the coordinate's "encoding" attribute so the strings can be recovered.
 */
module RasdamanStrings {
  import opened Wrappers
  import opened Text
  import opened Ordering

  /** The values of a coordinate: strings before conversion, integers after. */
  datatype CoordValues = Strings(strs: seq<string>) | Integers(ints: seq<int>)

  /** A coordinate attribute: the evaluated form of `str(encoding_map)`, or plain text. */
  datatype Attr = EncodingAttr(table: map<int, string>) | TextAttr(text: string)

  datatype Coordinate = Coordinate(values: CoordValues, dtype: string, attrs: map<string, Attr>)

  /** The coordinates of a dataset, by name. */
  type Coords = map<string, Coordinate>

  /** `[str(v) for v in values]`. */
  function Strs(c: CoordValues): (r: seq<string>)
    ensures |r| == Length(c)
  {
    match c
    case Strings(s) => s
    case Integers(xs) => seq(|xs|, i requires 0 <= i < |xs| => IntToString(xs[i]))
  }

  function Length(c: CoordValues): nat
  {
    match c
    case Strings(s) => |s|
    case Integers(xs) => |xs|
  }

  /**
   * `create_encoding_mapping`: the sorted distinct values, the table from
   * position to value (`encoding_map`) and the table from value to position
   * (`reverse_map`).
   */
  function CreateEncodingMapping(values: seq<string>): (r: (seq<string>, map<int, string>, map<string, int>))
    ensures StrictlySorted(r.0) && Elems(r.0) == Elems(values)
  {
    var unique := SortUnique(values);
    (unique,
     map i | 0 <= i < |unique| :: unique[i],
     map v | v in unique :: FirstIndex(unique, v))
  }

  /**
   * The two tables are exact inverses: the encoding table numbers the
   * distinct values 0..k-1 in sorted order, and every value of the input has
   * a position.
   */
  lemma EncodingMappingInverse(values: seq<string>)
    ensures var (unique, enc, rev) := CreateEncodingMapping(values);
      && (forall i :: i in enc <==> 0 <= i < |unique|)
      && (forall i :: 0 <= i < |unique| ==> enc[i] == unique[i])
      && (forall v :: v in rev <==> v in values)
      && (forall i :: i in enc ==> enc[i] in rev && rev[enc[i]] == i)
      && (forall v :: v in rev ==> rev[v] in enc && enc[rev[v]] == v)
  {
    var (unique, enc, rev) := CreateEncodingMapping(values);
    assert forall v :: v in unique <==> v in Elems(values);
    forall i | i in enc
      ensures enc[i] in rev && rev[enc[i]] == i
    {
      var j := FirstIndex(unique, unique[i]);
      if j < i {
        StrLtIrreflexive(unique[i]);
      }
    }
  }

  /**
   * The text of the "description" attribute for a dimension with `count`
   * distinct values; `len(encoding_map)` is the number of distinct values.
   */
  function Description(dim: string, count: nat): string
  {
    "Integer-encoded " + dim + " dimension (0-" + IntToString(count - 1) + ")"
  }

  /**
   * One pass of the loop for a dimension of the original dataset: the
   * coordinate becomes the positions of its values, and its attributes are
   * the encoding table, the original dtype and the description.
   */
  function ConvertOne(orig: Coords, conv: Coords, dim: string): Coords
    requires dim in orig
  {
    var values := Strs(orig[dim].values);
    var (unique, enc, rev) := CreateEncodingMapping(values);
    EncodingMappingInverse(values);
    var indices := seq(|values|, i requires 0 <= i < |values| => rev[values[i]]);
    conv[dim := Coordinate(Integers(indices), "int64",
                           map["encoding" := EncodingAttr(enc),
                               "original_dtype" := TextAttr(orig[dim].dtype),
                               "description" := TextAttr(Description(dim, |unique|))])]
  }

  /** `convert_string_dimensions` as a function: a dimension missing from the original is skipped. */
  function ConvertAll(orig: Coords, dims: seq<string>): Coords
  {
    if dims == [] then orig
    else
      var conv := ConvertAll(orig, dims[..|dims| - 1]);
      var dim := dims[|dims| - 1];
      if dim in orig then ConvertOne(orig, conv, dim) else conv
  }

  /** `convert_string_dimensions`: the loop over the requested dimensions. */
  method ConvertStringDimensions(ds: Coords, dims: seq<string>) returns (converted: Coords)
    ensures converted == ConvertAll(ds, dims)
  {
    converted := ds;
    for k := 0 to |dims|
      invariant converted == ConvertAll(ds, dims[..k])
    {
      assert dims[..k + 1][..k] == dims[..k];
      var dim := dims[k];
      if dim !in ds {
        continue;
      }
      converted := ConvertOne(ds, converted, dim);
    }
    assert dims[..|dims|] == dims;
  }

  /**
   * What the loop leaves for a converted dimension: integer positions, one
   * per original value, an encoding that maps each position back to the
   * original value, the original dtype and the description of the range.
   */
  ghost predicate Converted(orig: Coordinate, c: Coordinate, dim: string)
  {
    var values := Strs(orig.values);
    var enc := CreateEncodingMapping(values).1;
    && c.values.Integers?
    && |c.values.ints| == |values|
    && "encoding" in c.attrs && c.attrs["encoding"] == EncodingAttr(enc)
    && "original_dtype" in c.attrs && c.attrs["original_dtype"] == TextAttr(orig.dtype)
    && "description" in c.attrs
    && c.attrs["description"] == TextAttr(Description(dim, |SortUnique(values)|))
    && (forall i :: 0 <= i < |values| ==>
          c.values.ints[i] in enc && enc[c.values.ints[i]] == values[i])
  }

  lemma ConvertOneEffect(orig: Coords, conv: Coords, dim: string)
    requires dim in orig
    ensures var r := ConvertOne(orig, conv, dim);
      && r.Keys == conv.Keys + {dim}
      && Converted(orig[dim], r[dim], dim)
      && (forall d :: d in conv && d != dim ==> r[d] == conv[d])
  {
    var values := Strs(orig[dim].values);
    EncodingMappingInverse(values);
    var (unique, enc, rev) := CreateEncodingMapping(values);
    var indices := seq(|values|, i requires 0 <= i < |values| => rev[values[i]]);
    var c := Coordinate(Integers(indices), "int64",
                        map["encoding" := EncodingAttr(enc),
                            "original_dtype" := TextAttr(orig[dim].dtype),
                            "description" := TextAttr(Description(dim, |unique|))]);
    assert ConvertOne(orig, conv, dim) == conv[dim := c];
    forall i | 0 <= i < |values|
      ensures indices[i] in enc && enc[indices[i]] == values[i]
    {
      assert values[i] in rev;
    }
  }

  /**
   * After conversion every requested dimension of the original is converted
   * as above; coordinates not requested are left as they were, and no
   * coordinate is added or removed.
   */
  lemma {:induction false} ConvertAllEffect(orig: Coords, dims: seq<string>, dim: string)
    ensures var conv := ConvertAll(orig, dims);
      && conv.Keys == orig.Keys
      && (dim in orig && dim !in dims ==> conv[dim] == orig[dim])
      && (dim in orig && dim in dims ==> Converted(orig[dim], conv[dim], dim))
  {
    if dims != [] {
      var init := dims[..|dims| - 1];
      var d := dims[|dims| - 1];
      ConvertAllEffect(orig, init, dim);
      assert dim in dims <==> dim in init || dim == d;
      if d in orig {
        ConvertOneEffect(orig, ConvertAll(orig, init), d);
      }
    }
  }

  // ---------------------------------------------------------------- verify_conversion

  /** What `verify_conversion` reports for one dimension. */
  datatype Check =
    | Skipped
    | NoEncoding
    | CouldNotParse
    | SizeMismatch
    | Recoverable
    | NotRecoverable
    | Raised

  /** `encoding_map[int(idx)]` for every converted value; None where `int()` or the lookup raises. */
  function Recover(values: CoordValues, enc: map<int, string>): (r: Option<seq<string>>)
    ensures r.Some? ==> |r.value| == Length(values)
  {
    var ints := match values
      case Integers(xs) => Some(xs)
      case Strings(s) =>
        if forall i :: 0 <= i < |s| ==> ParseInt(s[i]).Some? then
          Some(seq(|s|, i requires 0 <= i < |s| && ParseInt(s[i]).Some? => ParseInt(s[i]).value))
        else None;
    if ints.Some? && forall i :: 0 <= i < |ints.value| ==> ints.value[i] in enc then
      Some(seq(|ints.value|, i requires 0 <= i < |ints.value| && ints.value[i] in enc => enc[ints.value[i]]))
    else None
  }

  /** The checks of `verify_conversion` for one dimension, in order. */
  function CheckDim(orig: Coords, conv: Coords, dim: string): Check
  {
    if dim !in orig then Skipped
    else if dim !in conv then Raised
    else if "encoding" !in conv[dim].attrs then NoEncoding
    else if !conv[dim].attrs["encoding"].EncodingAttr? then CouldNotParse
    else if Length(orig[dim].values) != Length(conv[dim].values) then SizeMismatch
    else
      match Recover(conv[dim].values, conv[dim].attrs["encoding"].table)
      case None => Raised
      case Some(recovered) => if recovered == Strs(orig[dim].values) then Recoverable else NotRecoverable
  }

  /** The report over a list of dimensions; an exception ends it. */
  function CheckAll(orig: Coords, conv: Coords, dims: seq<string>): seq<Check>
  {
    if dims == [] then []
    else
      var init := CheckAll(orig, conv, dims[..|dims| - 1]);
      if Raised in init then init else init + [CheckDim(orig, conv, dims[|dims| - 1])]
  }

  /** `verify_conversion`: the loop over the dimensions, stopping at an exception. */
  method VerifyConversion(orig: Coords, conv: Coords, dims: seq<string>) returns (report: seq<Check>)
    ensures report == CheckAll(orig, conv, dims)
  {
    report := [];
    for k := 0 to |dims|
      invariant report == CheckAll(orig, conv, dims[..k])
    {
      assert dims[..k + 1][..k] == dims[..k];
      if Raised in report {
        CheckAllStuck(orig, conv, dims, k);
        return;
      }
      report := report + [CheckDim(orig, conv, dims[k])];
    }
    assert dims[..|dims|] == dims;
  }

  lemma {:induction false} CheckAllStuck(orig: Coords, conv: Coords, dims: seq<string>, k: nat)
    requires k <= |dims| && Raised in CheckAll(orig, conv, dims[..k])
    ensures CheckAll(orig, conv, dims) == CheckAll(orig, conv, dims[..k])
  {
    if k < |dims| {
      assert dims[..|dims| - 1][..k] == dims[..k];
      CheckAllStuck(orig, conv, dims[..|dims| - 1], k);
    } else {
      assert dims[..k] == dims;
    }
  }

  /**
   * The round trip the script checks: converting a set of dimensions and
   * verifying the same dimensions reports every present one as recoverable
   * and every absent one as skipped.
   */
  lemma RoundTrip(orig: Coords, dims: seq<string>, dim: string)
    requires dim in dims
    ensures CheckDim(orig, ConvertAll(orig, dims), dim) == if dim in orig then Recoverable else Skipped
  {
    if dim in orig {
      ConvertAllEffect(orig, dims, dim);
      var conv := ConvertAll(orig, dims);
      assert Converted(orig[dim], conv[dim], dim);
      var values := Strs(orig[dim].values);
      var enc := CreateEncodingMapping(values).1;
      var recovered := Recover(conv[dim].values, enc);
      assert recovered.Some?;
      assert recovered.value == values;
    }
  }
}

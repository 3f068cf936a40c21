/**
 * The engine's two configurations with their lookup tables filled in, and
 * what the tables guarantee about encoding.
 */
module Variants {
  import opened Ordering
  import opened Text
  import opened Engine
  import Luts
  import LegacyLuts
  import Metadata

  /** data/preprocess/functions.py together with data/preprocess/luts.py. */
  function Current(): (v: Variant)
    ensures CategoricalNames(v) == Luts.CategoricalDims
  {
    Variant(
      ["diff", "1952_2005", "1952_2010"],
      Luts.EncodingsLookup,
      ["landcover", "model", "scenario", "era", "stream_id"],
      Luts.StatKeys)
  }

  /** functions.py together with luts.py, both at the repository root. */
  function Legacy(): (v: Variant)
    ensures CategoricalNames(v) == LegacyLuts.CategoricalDims
  {
    Variant(
      ["Maurer", "diff", "1952_2005"],
      LegacyLuts.EncodingsLookup,
      ["lc", "model", "scenario", "era", "geom_id"],
      LegacyLuts.StatKeys)
  }

  /**
   * The two filter policies: the current one drops "diff" files and both
   * long historical ranges; the older one drops Maurer files, "diff" files
   * and the 1952-2005 range, and keeps 1952-2010 files.
   */
  lemma FilterPolicies(name: string)
    ensures Excluded(name, Current().markers) <==>
      Contains(name, "diff") || Contains(name, "1952_2005") || Contains(name, "1952_2010")
    ensures Excluded(name, Legacy().markers) <==>
      Contains(name, "Maurer") || Contains(name, "diff") || Contains(name, "1952_2005")
  {
    var c := Current().markers;
    var l := Legacy().markers;
    if Contains(name, "diff") {
      assert Contains(name, c[0]) && Contains(name, l[1]);
    }
    if Contains(name, "1952_2005") {
      assert Contains(name, c[1]) && Contains(name, l[2]);
    }
    if Contains(name, "1952_2010") {
      assert Contains(name, c[2]);
    }
    if Contains(name, "Maurer") {
      assert Contains(name, l[0]);
    }
  }

  /**
   * After the older filter no model on the axis mentions Maurer, so its
   * labels never reach the older table, which has no Maurer entry.
   */
  lemma LegacyFilterLeavesNoMaurer(names: seq<string>)
    ensures forall x :: x in Axis(Kept(names, Legacy().markers), 1) ==> !Contains(x, "Maurer")
    ensures "Maurer" !in LegacyLuts.ModelCodes
  {
    var kept := Kept(names, Legacy().markers);
    KeptMembers(names, Legacy().markers);
    forall x | x in Axis(kept, 1)
      ensures !Contains(x, "Maurer")
    {
      var n :| n in kept && ParseName(n).Some? && Field(ParseName(n).value, 1) == x;
      FilterPolicies(n);
      if Contains(x, "Maurer") {
        SplitPartContains(n, '_', 1, "Maurer");
      }
    }
    LegacyLuts.ModelCodesShiftedByMaurer();
  }

  /**
   * With the current tables, the reverse table decodes every code back to
   * its label, and distinct labels get distinct codes.
   */
  lemma EncodeRoundTrip(labels: seq<string>, dim: string)
    requires Encode(Luts.EncodingsLookup, labels, dim).Encoded?
    ensures var codes := Encode(Luts.EncodingsLookup, labels, dim).codes;
      && dim in Luts.ReverseEncodingsLookup
      && (forall i :: 0 <= i < |codes| ==>
            codes[i] in Luts.ReverseEncodingsLookup[dim] && Luts.ReverseEncodingsLookup[dim][codes[i]] == labels[i])
      && (forall i, j :: 0 <= i < j < |codes| && labels[i] != labels[j] ==> codes[i] != codes[j])
  {
    Luts.TablesCoverCategoricalDims();
    Luts.EncodingsAreBijective();
    assert Luts.ExactInverse(Luts.EncodingsLookup[dim], Luts.ReverseEncodingsLookup[dim]);
  }

  /**
   * The coordinates `create_empty_dataset` writes are duplicate-free: axes
   * from `get_unique_coords` hold each label once, and the encoding keeps
   * them apart.
   */
  lemma EncodedAxesAreDistinct(names: seq<string>, k: nat)
    requires k < 4
    requires Encode(Luts.EncodingsLookup, CategoricalAxis(UniqueCoords(names), k), Luts.CategoricalDims[k]).Encoded?
    ensures var codes := Encode(Luts.EncodingsLookup, CategoricalAxis(UniqueCoords(names), k), Luts.CategoricalDims[k]).codes;
      forall i, j :: 0 <= i < j < |codes| ==> codes[i] != codes[j]
  {
    var labels := CategoricalAxis(UniqueCoords(names), k);
    assert StrictlySorted(labels);
    EncodeRoundTrip(labels, Luts.CategoricalDims[k]);
    forall i, j | 0 <= i < j < |labels|
      ensures labels[i] != labels[j]
    {
      StrLtIrreflexive(labels[i]);
    }
  }

  /** Annotating the dataset `create_empty_dataset` builds with the current tables never raises. */
  lemma AnnotateCreatedDataset(codes: seq<seq<int>>, streamIds: seq<Datasets.StreamId>)
    requires |codes| == 4
    ensures Metadata.Annotate(EmptyDataset(Current(), codes, streamIds), Luts.ReverseEncodingsLookup,
                     Luts.CategoricalDims, Luts.StatInfo, Luts.StatKeys).Some?
  {
    var f := EmptyDataset(Current(), codes, streamIds);
    Metadata.AnnotateCurrent(f);
    assert f.axisNames == ["landcover", "model", "scenario", "era", "stream_id"];
    assert forall k :: 0 <= k < |Luts.StatKeys| ==> Luts.StatKeys[k] in Elems(Luts.StatKeys);
  }
}

/**
 * The transforms applied to a filled dataset: `sort_by_model_dimension`,
 * `crosswalk_hrus` and `clip_dataset` of data/preprocess/functions.py (the
 * older functions.py has the same `crosswalk_hrus` and `clip_dataset` over a
 * stream axis called `geom_id`). Each returns a new dataset value.
 */
module Transforms {
  import opened Wrappers
  import opened Ordering
  import opened Datasets
  import opened Populate

  // ---------------------------------------------------------------- sort_by_model_dimension

  /** Where the row now at model position `b` came from: the first index of its label. */
  function SourceModel(model: seq<int>, sorted: seq<int>, b: int): (j: int)
    requires 0 <= b < |sorted| && multiset(sorted) == multiset(model)
    ensures 0 <= j < |model| && model[j] == sorted[b]
  {
    assert sorted[b] in multiset(model);
    IndexOf(model, sorted[b]).value
  }

  /** A cube re-read along the model axis in the order `sorted`. */
  ghost function ReorderModel(c: Cube, model: seq<int>, sorted: seq<int>): Cube
    requires multiset(sorted) == multiset(model)
  {
    imap i: Idx | 0 <= i.1 < |sorted| && (i.0, SourceModel(model, sorted, i.1), i.2, i.3) in c
      :: c[(i.0, SourceModel(model, sorted, i.1), i.2, i.3)]
  }

  /** `ds.sel(model=sorted(ds["model"].values.tolist()))`. */
  ghost function SortByModel(f: Frame): Frame
  {
    var sorted := SortInts(f.model);
    f.(model := sorted, vars := map st | st in f.vars :: ReorderModel(f.vars[st], f.model, sorted))
  }

  /**
   * Sorting leaves the model axis ascending and a permutation of what it
   * was, and changes nothing but the model axis and the statistics' rows.
   */
  lemma SortByModelAxes(f: Frame)
    ensures var r := SortByModel(f);
      && Ascending(r.model) && multiset(r.model) == multiset(f.model)
      && |r.model| == |f.model|
      && r == f.(model := r.model, vars := r.vars)
      && r.vars.Keys == f.vars.Keys
  {
    var r := SortByModel(f);
    assert |multiset(r.model)| == |multiset(f.model)|;
  }

  /** Re-reading a full cube along a permutation of the model axis gives a full cube. */
  lemma ReorderModelShape(c: Cube, model: seq<int>, sorted: seq<int>, n: Idx, width: nat)
    requires multiset(sorted) == multiset(model) && n.1 == |model| == |sorted|
    requires forall i :: i in c <==> Within(n, i)
    requires forall i :: i in c ==> |c[i]| == width
    ensures forall i :: i in ReorderModel(c, model, sorted) <==> Within(n, i)
    ensures forall i :: i in ReorderModel(c, model, sorted) ==> |ReorderModel(c, model, sorted)[i]| == width
  {
    forall i: Idx
      ensures i in ReorderModel(c, model, sorted) <==> Within(n, i)
    {
      if 0 <= i.1 < |sorted| {
        var j := SourceModel(model, sorted, i.1);
        assert Within(n, (i.0, j, i.2, i.3)) <==> Within(n, i);
      }
    }
  }

  lemma ReorderModelAt(c: Cube, model: seq<int>, sorted: seq<int>, i: Idx)
    requires multiset(sorted) == multiset(model) && 0 <= i.1 < |sorted|
    requires (i.0, SourceModel(model, sorted, i.1), i.2, i.3) in c
    ensures i in ReorderModel(c, model, sorted)
    ensures ReorderModel(c, model, sorted)[i] == c[(i.0, SourceModel(model, sorted, i.1), i.2, i.3)]
  {
  }

  /** Sorting keeps the dataset well shaped. */
  lemma SortByModelKeepsShape(f: Frame)
    requires WellShaped(f)
    ensures WellShaped(SortByModel(f))
  {
    var r := SortByModel(f);
    SortByModelAxes(f);
    assert Extent(r) == Extent(f);
    forall st | st in r.vars
      ensures forall i :: i in r.vars[st] <==> InBox(r, i)
      ensures forall i :: i in r.vars[st] ==> |r.vars[st][i]| == |r.streamIds|
    {
      ReorderModelShape(f.vars[st], f.model, r.model, Extent(f), |f.streamIds|);
    }
  }

  /** Every row moves together with its model label. */
  lemma SortByModelAt(f: Frame, st: string, i: Idx)
    requires WellShaped(f) && st in f.vars
    requires InBox(SortByModel(f), i)
    ensures var r := SortByModel(f);
      var j := SourceModel(f.model, r.model, i.1);
      && st in r.vars
      && f.model[j] == r.model[i.1]
      && i in r.vars[st] && r.vars[st][i] == f.vars[st][(i.0, j, i.2, i.3)]
  {
    var r := SortByModel(f);
    var j := SourceModel(f.model, r.model, i.1);
    assert InBox(f, (i.0, j, i.2, i.3));
    ReorderModelAt(f.vars[st], f.model, r.model, i);
  }

  // ---------------------------------------------------------------- crosswalk_hrus

  /**
   * `{k: v for k, v in zip(keys, vals)}` over the first `n` pairs: a later
   * pair with the same key overwrites an earlier one.
   */
  function CrosswalkTable(keys: seq<StreamId>, vals: seq<StreamId>, n: nat): (t: map<StreamId, StreamId>)
    requires n <= |keys| && n <= |vals|
    ensures forall k :: k in t <==> k in keys[..n]
  {
    if n == 0 then map[]
    else
      assert keys[..n] == keys[..n - 1] + [keys[n - 1]];
      CrosswalkTable(keys, vals, n - 1)[keys[n - 1] := vals[n - 1]]
  }

  /** The number of pairs `zip` makes. */
  function ZipLength(keys: seq<StreamId>, vals: seq<StreamId>): (n: nat)
    ensures n <= |keys| && n <= |vals| && (n == |keys| || n == |vals|)
  {
    if |keys| <= |vals| then |keys| else |vals|
  }

  /** `xwalk_dict.get(k)`: the mapped id, or None for an unmapped one. */
  function Lookup(t: map<StreamId, StreamId>, k: StreamId): (r: StreamId)
    ensures k !in t ==> r == NoId
    ensures k in t ==> r == t[k]
  {
    if k in t then t[k] else NoId
  }

  /** `crosswalk_hrus`: every stream id replaced by its crosswalked id. */
  function Crosswalk(f: Frame, hruId: seq<StreamId>, hruIdNat: seq<StreamId>): Frame
  {
    var t := CrosswalkTable(hruId, hruIdNat, ZipLength(hruId, hruIdNat));
    f.(streamIds := seq(|f.streamIds|, i requires 0 <= i < |f.streamIds| => Lookup(t, f.streamIds[i])))
  }

  /** A key maps to the value of the last of the first `n` pairs that carries it. */
  lemma {:induction false} CrosswalkTableLastWins(keys: seq<StreamId>, vals: seq<StreamId>, n: nat, i: nat)
    requires i < n <= |keys| && n <= |vals|
    requires forall j :: i < j < n ==> keys[j] != keys[i]
    ensures keys[i] in CrosswalkTable(keys, vals, n) && CrosswalkTable(keys, vals, n)[keys[i]] == vals[i]
  {
    if i < n - 1 {
      CrosswalkTableLastWins(keys, vals, n - 1, i);
    }
  }

  /**
   * The crosswalk keeps the id axis' length and every statistic; an id no
   * pair maps becomes None, and a mapped id becomes the value of the last
   * pair that maps it.
   */
  lemma CrosswalkEffect(f: Frame, hruId: seq<StreamId>, hruIdNat: seq<StreamId>)
    ensures var r := Crosswalk(f, hruId, hruIdNat);
      var n := ZipLength(hruId, hruIdNat);
      && |r.streamIds| == |f.streamIds|
      && r == f.(streamIds := r.streamIds)
      && (WellShaped(f) ==> WellShaped(r))
      && (forall i :: 0 <= i < |f.streamIds| && f.streamIds[i] !in hruId[..n] ==> r.streamIds[i] == NoId)
      && (forall i, j :: 0 <= i < |f.streamIds| && 0 <= j < n && hruId[j] == f.streamIds[i] &&
            (forall j' :: j < j' < n ==> hruId[j'] != hruId[j])
            ==> r.streamIds[i] == hruIdNat[j])
  {
    var n := ZipLength(hruId, hruIdNat);
    forall i, j | 0 <= i < |f.streamIds| && 0 <= j < n && hruId[j] == f.streamIds[i] &&
                  (forall j' :: j < j' < n ==> hruId[j'] != hruId[j])
      ensures Crosswalk(f, hruId, hruIdNat).streamIds[i] == hruIdNat[j]
    {
      CrosswalkTableLastWins(hruId, hruIdNat, n, j);
    }
  }

  // ---------------------------------------------------------------- clip_dataset

  /** The two id columns of the shapefile `clip_dataset` reads, as `astype(str)` leaves them. */
  datatype Shapefile = Shapefile(segIdNat: seq<string>, hruIdNat: seq<string>)

  /** `ds.stream_id.isin(ids)` for one id; a None id matches no string. */
  predicate Allowed(x: StreamId, ids: seq<string>)
  {
    x.Id? && x.name in ids
  }

  /** The positions `mask` selects, ascending. */
  function Positions(mask: seq<bool>): (p: seq<nat>)
    ensures forall k :: 0 <= k < |p| ==> p[k] < |mask| && mask[p[k]]
    ensures forall j :: 0 <= j < |mask| && mask[j] ==> j in p
    ensures forall k, l :: 0 <= k < l < |p| ==> p[k] < p[l]
  {
    if mask == [] then []
    else
      var init := Positions(mask[..|mask| - 1]);
      if mask[|mask| - 1] then init + [|mask| - 1] else init
  }

  /** The elements of `xs` at the positions `mask` selects, in order. */
  function Keep<T>(xs: seq<T>, mask: seq<bool>): (r: seq<T>)
    requires |xs| == |mask|
    ensures |r| == |Positions(mask)|
    ensures forall k :: 0 <= k < |r| ==> r[k] == xs[Positions(mask)[k]]
  {
    var p := Positions(mask);
    seq(|p|, k requires 0 <= k < |p| => xs[p[k]])
  }

  /** The `isin` mask over the stream axis. */
  function Mask(streamIds: seq<StreamId>, ids: seq<string>): (m: seq<bool>)
    ensures |m| == |streamIds| && forall i :: 0 <= i < |m| ==> (m[i] <==> Allowed(streamIds[i], ids))
  {
    seq(|streamIds|, i requires 0 <= i < |streamIds| => Allowed(streamIds[i], ids))
  }

  /** `ds.sel(stream_id=mask)`: the selected positions of the id axis and of every row. */
  ghost function Select(f: Frame, ids: seq<string>): Frame
  {
    var m := Mask(f.streamIds, ids);
    f.(streamIds := Keep(f.streamIds, m),
       vars := map st | st in f.vars :: KeepRows(f.vars[st], m))
  }

  /** Every row of a cube cut at the positions `m` selects. */
  ghost function KeepRows(c: Cube, m: seq<bool>): Cube
  {
    imap i | i in c && |c[i]| == |m| :: Keep(c[i], m)
  }

  /** Cutting the rows of a full cube keeps it full, with rows as long as the kept positions. */
  lemma KeepRowsShape(c: Cube, m: seq<bool>, n: Idx)
    requires forall i :: i in c <==> Within(n, i)
    requires forall i :: i in c ==> |c[i]| == |m|
    ensures forall i :: i in KeepRows(c, m) <==> Within(n, i)
    ensures forall i :: i in KeepRows(c, m) ==> |KeepRows(c, m)[i]| == |Positions(m)|
    ensures forall i, k :: i in KeepRows(c, m) && 0 <= k < |Positions(m)| ==> KeepRows(c, m)[i][k] == c[i][Positions(m)[k]]
  {
  }

  /** `clip_dataset`: the type picks the shapefile column; any other type falls through to None. */
  ghost function Clip(f: Frame, shp: Shapefile, kind: string): Option<Frame>
  {
    if kind == "seg" then Some(Select(f, shp.segIdNat))
    else if kind == "hru" then Some(Select(f, shp.hruIdNat))
    else None
  }

  /**
   * The clip keeps exactly the ids in the shapefile's set, in their original
   * order, and changes nothing but the id axis and the statistics' rows.
   */
  lemma SelectIds(f: Frame, ids: seq<string>)
    ensures var r := Select(f, ids);
      var p := Positions(Mask(f.streamIds, ids));
      && r == f.(streamIds := r.streamIds, vars := r.vars)
      && r.vars.Keys == f.vars.Keys
      && (forall x :: x in r.streamIds <==> x in f.streamIds && Allowed(x, ids))
      && |r.streamIds| == |p|
      && (forall k :: 0 <= k < |p| ==> r.streamIds[k] == f.streamIds[p[k]])
      && (forall k, l :: 0 <= k < l < |p| ==> p[k] < p[l])
  {
    var r := Select(f, ids);
    var p := Positions(Mask(f.streamIds, ids));
    forall x
      ensures x in r.streamIds <==> x in f.streamIds && Allowed(x, ids)
    {
      if x in f.streamIds && Allowed(x, ids) {
        var j :| 0 <= j < |f.streamIds| && f.streamIds[j] == x;
        var k :| 0 <= k < |p| && p[k] == j;
        assert r.streamIds[k] == x;
      }
    }
  }

  /** The clip cuts every row at the positions it keeps of the id axis, so the dataset stays well shaped. */
  lemma SelectKeepsShape(f: Frame, ids: seq<string>)
    requires WellShaped(f)
    ensures WellShaped(Select(f, ids))
    ensures var r := Select(f, ids);
      var p := Positions(Mask(f.streamIds, ids));
      forall st, i, k :: st in r.vars && i in r.vars[st] && 0 <= k < |p| ==>
        r.vars[st][i][k] == f.vars[st][i][p[k]]
  {
    var r := Select(f, ids);
    var m := Mask(f.streamIds, ids);
    SelectIds(f, ids);
    assert Extent(r) == Extent(f);
    forall st | st in r.vars
      ensures forall i :: i in r.vars[st] <==> InBox(r, i)
      ensures forall i :: i in r.vars[st] ==> |r.vars[st][i]| == |r.streamIds|
      ensures forall i, k :: i in r.vars[st] && 0 <= k < |Positions(m)| ==> r.vars[st][i][k] == f.vars[st][i][Positions(m)[k]]
    {
      KeepRowsShape(f.vars[st], m, Extent(f));
    }
  }

  /** Which shapefile column each clip type reads. */
  lemma ClipKinds(f: Frame, shp: Shapefile, kind: string)
    ensures Clip(f, shp, kind).Some? <==> kind == "seg" || kind == "hru"
    ensures kind == "seg" ==> Clip(f, shp, kind) == Some(Select(f, shp.segIdNat))
    ensures kind == "hru" ==> Clip(f, shp, kind) == Some(Select(f, shp.hruIdNat))
  {
  }
}

/**
 * Building the sample container from an archive: the canonical column-name
 * list, resolution of requested names to column positions by first
 * occurrence, and the column gather that reorders the data before the
 * container is constructed.
 */
module FeatureSelection {
  import opened Wrappers
  import opened SequenceDatasets

  /** Why building stops: a requested name is not a column, or a resolved column lies past the data's third axis. */
  datatype BuildError = FeatureNotFound(name: string) | ColumnOutOfBounds

  /**
   * The loaded archive. `width` is the size of the third axis of `data`, which an
   * array of shape (sequences, time steps, columns) has even when it holds no
   * sequence. Depth identifiers are of any type `D`.
   */
  datatype Archive<D, T> = Archive(
    data: seq<Steps<T>>,
    width: nat,
    depthsAll: seq<D>,
    dynamicFeaturesAll: seq<string>,
    staticFeaturesAll: seq<string>)

  /** Every row of `data` has `width` columns, as in a rectangular array. */
  predicate RowsOfWidth<T>(data: seq<Steps<T>>, width: nat) {
    forall k, t | 0 <= k < |data| && 0 <= t < |data[k]| :: |data[k][t]| == width
  }

  /** The archive's data is rectangular with third axis `width`. */
  predicate Shaped<D, T>(a: Archive<D, T>) {
    RowsOfWidth(a.data, a.width)
  }

  /** The archive's layout contract: one column per depth, dynamic feature and static feature. */
  predicate Consistent<D, T>(a: Archive<D, T>) {
    a.width == |a.depthsAll| + |a.dynamicFeaturesAll| + |a.staticFeaturesAll|
  }

  /** The column name of a depth: `depth_` followed by the depth's textual form `show(d)`. */
  function DepthLabel<D>(show: D -> string, d: D): string {
    "depth_" + show(d)
  }

  /** The column names of a list of depths, in the same order. */
  function DepthLabels<D>(show: D -> string, depths: seq<D>): (r: seq<string>)
    ensures |r| == |depths|
    ensures forall i :: 0 <= i < |depths| ==> r[i] == DepthLabel(show, depths[i])
  {
    seq(|depths|, i requires 0 <= i < |depths| => DepthLabel(show, depths[i]))
  }

  /**
   * The canonical column-name list: the depth names, then the dynamic feature
   * names, then the static feature names, each block in archive order.
   */
  function FeaturesAll<D, T>(a: Archive<D, T>, show: D -> string): (r: seq<string>)
    ensures |r| == |a.depthsAll| + |a.dynamicFeaturesAll| + |a.staticFeaturesAll|
    ensures forall i :: 0 <= i < |a.depthsAll| ==> r[i] == DepthLabel(show, a.depthsAll[i])
    ensures forall i :: 0 <= i < |a.dynamicFeaturesAll| ==>
              r[|a.depthsAll| + i] == a.dynamicFeaturesAll[i]
    ensures forall i :: 0 <= i < |a.staticFeaturesAll| ==>
              r[|a.depthsAll| + |a.dynamicFeaturesAll| + i] == a.staticFeaturesAll[i]
  {
    DepthLabels(show, a.depthsAll) + a.dynamicFeaturesAll + a.staticFeaturesAll
  }

  /** `i` is the first position of `x` in `xs`. */
  predicate FirstIndex<X(==)>(xs: seq<X>, x: X, i: nat) {
    i < |xs| && xs[i] == x && forall k :: 0 <= k < i ==> xs[k] != x
  }

  /** A value has at most one first position. */
  lemma FirstIndexUnique<X>(xs: seq<X>, x: X, i: nat, i': nat)
    requires FirstIndex(xs, x, i) && FirstIndex(xs, x, i')
    ensures i == i'
  {
  }

  /** Python's `xs.index(x)`: the first position of `x`, or nothing (a raised error) when `x` is absent. */
  function IndexOf<X(==)>(xs: seq<X>, x: X): (r: Option<nat>)
    ensures r.Some? <==> x in xs
    ensures r.Some? ==> FirstIndex(xs, x, r.value)
  {
    if xs == [] then None
    else if xs[0] == x then Some(0)
    else match IndexOf(xs[1..], x)
      case None => None
      case Some(i) => Some(i + 1)
  }

  /** The column of a name that is present: its first position. */
  function ColumnOf(all: seq<string>, name: string): (c: nat)
    requires name in all
    ensures FirstIndex(all, name, c)
  {
    IndexOf(all, name).value
  }

  /**
   * `[all.index(name) for name in names]`: resolves the names in order and stops
   * at the first one that is absent, naming it.
   */
  function Resolve(all: seq<string>, names: seq<string>): (r: Result<seq<nat>, BuildError>)
    ensures r.Ok? <==> forall j :: 0 <= j < |names| ==> names[j] in all
    ensures r.Ok? ==> |r.value| == |names| && forall j :: 0 <= j < |names| ==> FirstIndex(all, names[j], r.value[j])
    ensures r.Err? ==> exists j :: 0 <= j < |names| && r.error == FeatureNotFound(names[j]) && names[j] !in all
                                   && forall k :: 0 <= k < j ==> names[k] in all
  {
    if names == [] then Ok([])
    else match IndexOf(all, names[0])
      case None => Err(FeatureNotFound(names[0]))
      case Some(i) =>
        match Resolve(all, names[1..])
        case Err(e) => Err(e)
        case Ok(rest) => Ok([i] + rest)
  }

  /** Resolving two lists one after the other, keeping the first error. */
  function AppendResolved(r1: Result<seq<nat>, BuildError>, r2: Result<seq<nat>, BuildError>): Result<seq<nat>, BuildError> {
    match r1
    case Err(e) => Err(e)
    case Ok(i1) =>
      match r2
      case Err(e) => Err(e)
      case Ok(i2) => Ok(i1 + i2)
  }

  /**
   * Resolving the groups one after the other and concatenating the positions is
   * resolving the concatenated request: the same positions, in the same order,
   * or the same first missing name.
   */
  lemma {:induction false} ResolveAppend(all: seq<string>, xs: seq<string>, ys: seq<string>)
    ensures Resolve(all, xs + ys) == AppendResolved(Resolve(all, xs), Resolve(all, ys))
  {
    if xs == [] {
      assert xs + ys == ys;
      if Resolve(all, ys).Ok? {
        assert [] + Resolve(all, ys).value == Resolve(all, ys).value;
      }
    } else {
      assert (xs + ys)[0] == xs[0];
      assert (xs + ys)[1..] == xs[1..] + ys;
      ResolveAppend(all, xs[1..], ys);
      match IndexOf(all, xs[0])
      case None =>
      case Some(i) =>
        match Resolve(all, xs[1..])
        case Err(_) =>
        case Ok(rest) =>
          if Resolve(all, ys).Ok? {
            assert [i] + (rest + Resolve(all, ys).value) == [i] + rest + Resolve(all, ys).value;
          }
    }
  }

  /**
   * `data[:, :, idx]`: every row replaced by the columns `idx` in that order;
   * the number of sequences and of time steps is unchanged.
   */
  function SelectColumns<T>(data: seq<Steps<T>>, width: nat, idx: seq<nat>): (r: seq<Steps<T>>)
    requires RowsOfWidth(data, width)
    requires forall j :: 0 <= j < |idx| ==> idx[j] < width
    ensures |r| == |data| && RowsOfWidth(r, |idx|)
    ensures forall k :: 0 <= k < |data| ==> |r[k]| == |data[k]|
    ensures forall k, t, j :: 0 <= k < |data| && 0 <= t < |data[k]| && 0 <= j < |idx| ==>
              r[k][t][j] == data[k][t][idx[j]]
  {
    seq(|data|, k requires 0 <= k < |data| =>
      seq(|data[k]|, t requires 0 <= t < |data[k]| =>
        seq(|idx|, j requires 0 <= j < |idx| => data[k][t][idx[j]])))
  }

  /** Every name the caller asks for, as it is looked up: the depth names, then dynamic, then static. */
  function Requested<D>(show: D -> string, dynamicFeaturesUse: seq<string>, staticFeaturesUse: seq<string>,
                        depthsUse: seq<D>): seq<string> {
    DepthLabels(show, depthsUse) + dynamicFeaturesUse + staticFeaturesUse
  }

  /**
   * The dataset built from an archive for the requested dynamic features,
   * static features and depths: each group is resolved against the canonical
   * name list, the columns are gathered depths first, then dynamic, then
   * static, in the caller's order within each group, and the container counts
   * are the lengths of the three requests.
   */
  function BuildDataset<D, T>(a: Archive<D, T>, show: D -> string, dynamicFeaturesUse: seq<string>,
                              staticFeaturesUse: seq<string>, depthsUse: seq<D>): (r: Result<SequenceDataset<T>, BuildError>)
    requires Shaped(a)
    ensures r.Ok? ==> Valid(r.value) && Len(r.value) == |a.data|
    ensures r.Ok? ==> forall k :: 0 <= k < |a.data| ==> |r.value.sequences[k]| == |a.data[k]|
    ensures r.Ok? ==> RowsOfWidth(r.value.sequences, |depthsUse| + |dynamicFeaturesUse| + |staticFeaturesUse|)
    ensures r.Ok? ==> r.value.nOutputs == |depthsUse| && r.value.nDynamic == |dynamicFeaturesUse|
                      && r.value.nStatic == |staticFeaturesUse|
  {
    var all := FeaturesAll(a, show);
    var depthsUseIdx :- Resolve(all, DepthLabels(show, depthsUse));
    var dynamicFeaturesUseIdx :- Resolve(all, dynamicFeaturesUse);
    var staticFeaturesUseIdx :- Resolve(all, staticFeaturesUse);
    var idxToUse := depthsUseIdx + dynamicFeaturesUseIdx + staticFeaturesUseIdx;
    if exists j | 0 <= j < |idxToUse| :: a.width <= idxToUse[j] then Err(ColumnOutOfBounds)
    else Ok(Init(SelectColumns(a.data, a.width, idxToUse), |depthsUse|, |dynamicFeaturesUse|, |staticFeaturesUse|))
  }

  /** Building is resolving the whole request at once, then gathering the columns if they all lie in the data. */
  lemma BuildDatasetResolvesRequest<D, T>(a: Archive<D, T>, show: D -> string, dynamicFeaturesUse: seq<string>,
                                          staticFeaturesUse: seq<string>, depthsUse: seq<D>)
    requires Shaped(a)
    ensures var r := BuildDataset(a, show, dynamicFeaturesUse, staticFeaturesUse, depthsUse);
      match Resolve(FeaturesAll(a, show), Requested(show, dynamicFeaturesUse, staticFeaturesUse, depthsUse))
      case Err(e) => r == Err(e)
      case Ok(idx) =>
        r == if forall j :: 0 <= j < |idx| ==> idx[j] < a.width
             then Ok(Init(SelectColumns(a.data, a.width, idx), |depthsUse|, |dynamicFeaturesUse|, |staticFeaturesUse|))
             else Err(ColumnOutOfBounds)
  {
    var all, labels := FeaturesAll(a, show), DepthLabels(show, depthsUse);
    ResolveAppend(all, labels, dynamicFeaturesUse);
    ResolveAppend(all, labels + dynamicFeaturesUse, staticFeaturesUse);
  }

  /**
   * For an archive that keeps its layout contract, building succeeds exactly
   * when every requested name is a column name, and otherwise fails naming the
   * first requested name, in depth, dynamic, static order, that is absent.
   */
  lemma BuildDatasetOutcome<D, T>(a: Archive<D, T>, show: D -> string, dynamicFeaturesUse: seq<string>,
                                  staticFeaturesUse: seq<string>, depthsUse: seq<D>)
    requires Shaped(a) && Consistent(a)
    ensures var r, all, req := BuildDataset(a, show, dynamicFeaturesUse, staticFeaturesUse, depthsUse),
                               FeaturesAll(a, show), Requested(show, dynamicFeaturesUse, staticFeaturesUse, depthsUse);
      && (r.Ok? <==> forall j :: 0 <= j < |req| ==> req[j] in all)
      && (r.Err? ==> exists j :: 0 <= j < |req| && r.error == FeatureNotFound(req[j]) && req[j] !in all
                                 && forall k :: 0 <= k < j ==> req[k] in all)
  {
    BuildDatasetResolvesRequest(a, show, dynamicFeaturesUse, staticFeaturesUse, depthsUse);
  }

  /**
   * `ds` holds, at column `j` of every row, the column of `data` that carries the
   * `j`-th name of `req` (its first occurrence in `all`), with the same numbers
   * of sequences and time steps as `data`.
   */
  ghost predicate HoldsColumns<T>(ds: SequenceDataset<T>, data: seq<Steps<T>>, width: nat, all: seq<string>, req: seq<string>) {
    && |ds.sequences| == |data|
    && (forall k :: 0 <= k < |data| ==> |ds.sequences[k]| == |data[k]|)
    && RowsOfWidth(ds.sequences, |req|)
    && RowsOfWidth(data, width)
    && (forall j :: 0 <= j < |req| ==> req[j] in all && ColumnOf(all, req[j]) < width)
    && forall k, t, j :: 0 <= k < |data| && 0 <= t < |data[k]| && 0 <= j < |req| ==>
         ds.sequences[k][t][j] == data[k][t][ColumnOf(all, req[j])]
  }

  /** A built dataset holds the archive's columns of the requested names, in request order. */
  lemma BuildDatasetColumns<D, T>(a: Archive<D, T>, show: D -> string, dynamicFeaturesUse: seq<string>,
                                  staticFeaturesUse: seq<string>, depthsUse: seq<D>, ds: SequenceDataset<T>)
    requires Shaped(a)
    requires BuildDataset(a, show, dynamicFeaturesUse, staticFeaturesUse, depthsUse) == Ok(ds)
    ensures HoldsColumns(ds, a.data, a.width, FeaturesAll(a, show),
                         Requested(show, dynamicFeaturesUse, staticFeaturesUse, depthsUse))
  {
    var all, req := FeaturesAll(a, show), Requested(show, dynamicFeaturesUse, staticFeaturesUse, depthsUse);
    BuildDatasetResolvesRequest(a, show, dynamicFeaturesUse, staticFeaturesUse, depthsUse);
    assert Resolve(all, req).Ok?;
    var idx := Resolve(all, req).value;
    assert forall j :: 0 <= j < |idx| ==> idx[j] < a.width;
    assert ds.sequences == SelectColumns(a.data, a.width, idx);
    forall j | 0 <= j < |req|
      ensures req[j] in all && ColumnOf(all, req[j]) == idx[j]
    {
      FirstIndexUnique(all, req[j], ColumnOf(all, req[j]), idx[j]);
    }
  }

  /**
   * Item `k` of a dataset holding the columns of `labels + dynamics + statics`,
   * with those group sizes as its counts: every slice is column by column the
   * data column of the corresponding requested name, except that with no static
   * names the static slice is the whole selected row.
   */
  lemma HeldItem<T>(ds: SequenceDataset<T>, data: seq<Steps<T>>, width: nat, all: seq<string>,
                    labels: seq<string>, dynamics: seq<string>, statics: seq<string>, k: nat, t: nat)
    requires Valid(ds) && ds.nOutputs == |labels| && ds.nDynamic == |dynamics| && ds.nStatic == |statics|
    requires HoldsColumns(ds, data, width, all, labels + dynamics + statics)
    requires k < |data| && t < |data[k]|
    ensures k < Len(ds) && t < |GetItem(ds, k).temperatures|
    ensures var item, row := GetItem(ds, k), data[k][t];
      && |item.temperatures[t]| == |labels|
      && |item.dynamicFeatures[t]| == |dynamics|
      && (forall j :: 0 <= j < |labels| ==>
            && labels[j] in all && ColumnOf(all, labels[j]) < width
            && item.temperatures[t][j] == row[ColumnOf(all, labels[j])])
      && (forall j :: 0 <= j < |dynamics| ==>
            && dynamics[j] in all && ColumnOf(all, dynamics[j]) < width
            && item.dynamicFeatures[t][j] == row[ColumnOf(all, dynamics[j])])
      && (|statics| > 0 ==>
            && |item.staticFeatures[t]| == |statics|
            && forall j :: 0 <= j < |statics| ==>
                 && statics[j] in all && ColumnOf(all, statics[j]) < width
                 && item.staticFeatures[t][j] == row[ColumnOf(all, statics[j])])
      && (|statics| == 0 ==> item.staticFeatures[t] == item.temperatures[t] + item.dynamicFeatures[t])
  {
    var req := labels + dynamics + statics;
    var nd, ny := |labels|, |dynamics|;
    assert req[..nd] == labels && req[nd..nd + ny] == dynamics && req[nd + ny..nd + ny + |statics|] == statics;
    HeldRun(ds, data, width, all, req, k, t, 0, labels);
    HeldRun(ds, data, width, all, req, k, t, nd, dynamics);
    HeldRun(ds, data, width, all, req, k, t, nd + ny, statics);
    GetItemColumns(ds, k, t);
    if |statics| == 0 {
      GetItemNoStatic(ds, k, t);
      SplitRow(ds.sequences[k][t], nd, nd + ny);
    }
  }

  /** A run of consecutive requested names sits, column by column, at its offset in every held row. */
  lemma HeldRun<T>(ds: SequenceDataset<T>, data: seq<Steps<T>>, width: nat, all: seq<string>, req: seq<string>,
                   k: nat, t: nat, offset: nat, names: seq<string>)
    requires HoldsColumns(ds, data, width, all, req)
    requires k < |data| && t < |data[k]|
    requires offset + |names| <= |req| && req[offset..offset + |names|] == names
    ensures forall j :: 0 <= j < |names| ==>
              && names[j] in all && ColumnOf(all, names[j]) < width
              && ds.sequences[k][t][offset + j] == data[k][t][ColumnOf(all, names[j])]
  {
    forall j | 0 <= j < |names|
      ensures names[j] in all && ColumnOf(all, names[j]) < width
      ensures ds.sequences[k][t][offset + j] == data[k][t][ColumnOf(all, names[j])]
    {
      assert req[offset + j] == names[j];
    }
  }

  /**
   * End to end: in item `k` of a built dataset, at every time step, temperature
   * `j` is the archive column named after the `j`-th requested depth, and
   * dynamic feature `j` the column of the `j`-th requested dynamic feature.
   */
  lemma BuildDatasetItem<D, T>(a: Archive<D, T>, show: D -> string, dynamicFeaturesUse: seq<string>,
                               staticFeaturesUse: seq<string>, depthsUse: seq<D>, ds: SequenceDataset<T>,
                               k: nat, t: nat)
    requires Shaped(a)
    requires BuildDataset(a, show, dynamicFeaturesUse, staticFeaturesUse, depthsUse) == Ok(ds)
    requires k < |a.data| && t < |a.data[k]|
    ensures k < Len(ds) && t < |GetItem(ds, k).temperatures|
    ensures var all, item, row := FeaturesAll(a, show), GetItem(ds, k), a.data[k][t];
      && |item.temperatures[t]| == |depthsUse|
      && |item.dynamicFeatures[t]| == |dynamicFeaturesUse|
      && (forall j :: 0 <= j < |depthsUse| ==>
            && DepthLabel(show, depthsUse[j]) in all && ColumnOf(all, DepthLabel(show, depthsUse[j])) < a.width
            && item.temperatures[t][j] == row[ColumnOf(all, DepthLabel(show, depthsUse[j]))])
      && (forall j :: 0 <= j < |dynamicFeaturesUse| ==>
            && dynamicFeaturesUse[j] in all && ColumnOf(all, dynamicFeaturesUse[j]) < a.width
            && item.dynamicFeatures[t][j] == row[ColumnOf(all, dynamicFeaturesUse[j])])
  {
    BuildDatasetColumns(a, show, dynamicFeaturesUse, staticFeaturesUse, depthsUse, ds);
    HeldItem(ds, a.data, a.width, FeaturesAll(a, show), DepthLabels(show, depthsUse), dynamicFeaturesUse,
             staticFeaturesUse, k, t);
  }

  /**
   * The static slice of item `k` of a built dataset: when static features are
   * requested, static feature `j` is the column of the `j`-th of them; when none
   * are, it is the whole selected row, temperatures followed by dynamic features.
   */
  lemma BuildDatasetStatic<D, T>(a: Archive<D, T>, show: D -> string, dynamicFeaturesUse: seq<string>,
                                 staticFeaturesUse: seq<string>, depthsUse: seq<D>, ds: SequenceDataset<T>,
                                 k: nat, t: nat)
    requires Shaped(a)
    requires BuildDataset(a, show, dynamicFeaturesUse, staticFeaturesUse, depthsUse) == Ok(ds)
    requires k < |a.data| && t < |a.data[k]|
    ensures k < Len(ds) && t < |GetItem(ds, k).staticFeatures|
    ensures var all, item, row := FeaturesAll(a, show), GetItem(ds, k), a.data[k][t];
      && (|staticFeaturesUse| > 0 ==>
            && |item.staticFeatures[t]| == |staticFeaturesUse|
            && forall j :: 0 <= j < |staticFeaturesUse| ==>
                 && staticFeaturesUse[j] in all && ColumnOf(all, staticFeaturesUse[j]) < a.width
                 && item.staticFeatures[t][j] == row[ColumnOf(all, staticFeaturesUse[j])])
      && (|staticFeaturesUse| == 0 ==>
            item.staticFeatures[t] == item.temperatures[t] + item.dynamicFeatures[t])
  {
    BuildDatasetColumns(a, show, dynamicFeaturesUse, staticFeaturesUse, depthsUse, ds);
    HeldItem(ds, a.data, a.width, FeaturesAll(a, show), DepthLabels(show, depthsUse), dynamicFeaturesUse,
             staticFeaturesUse, k, t);
  }
}

/**
 * Worked examples on a small archive: depths 5 and 10, dynamic features wind and
 * cloud, static feature area, and any data of shape (3, 4, 5).
 */
module Scenarios {
  import opened Wrappers
  import opened SequenceDatasets
  import opened FeatureSelection

  /** Depths are given by their textual form. */
  function Show(d: string): string {
    d
  }

  /** Data of shape (3 sequences, 4 time steps, 5 columns). */
  predicate ThreeByFourByFive<T>(data: seq<Steps<T>>) {
    |data| == 3 && (forall k :: 0 <= k < 3 ==> |data[k]| == 4) && RowsOfWidth(data, 5)
  }

  function Lake<T>(data: seq<Steps<T>>): Archive<string, T> {
    Archive(data, 5, ["5", "10"], ["wind", "cloud"], ["area"])
  }

  /** The canonical names of the example archive. */
  lemma LakeColumns<T>(data: seq<Steps<T>>)
    ensures FeaturesAll(Lake(data), Show) == ["depth_5", "depth_10", "wind", "cloud", "area"]
  {
    var labels := DepthLabels(Show, ["5", "10"]);
    assert "depth_" + "5" == "depth_5";
    assert "depth_" + "10" == "depth_10";
    assert labels == ["depth_5", "depth_10"];
  }

  /** The request of depth 10, then cloud and wind (reversed from archive order), then area. */
  lemma ReorderedRequestNames()
    ensures Requested(Show, ["cloud", "wind"], ["area"], ["10"]) == ["depth_10", "cloud", "wind", "area"]
  {
    assert "depth_" + "10" == "depth_10";
    assert DepthLabels(Show, ["10"]) == ["depth_10"];
  }

  /** The archive layout is consistent and every requested name is a column, so the request succeeds. */
  lemma ReorderedRequestSucceeds<T>(data: seq<Steps<T>>)
    requires ThreeByFourByFive(data)
    ensures BuildDataset(Lake(data), Show, ["cloud", "wind"], ["area"], ["10"]).Ok?
  {
    BuildDatasetOutcome(Lake(data), Show, ["cloud", "wind"], ["area"], ["10"]);
    LakeColumns(data);
    ReorderedRequestNames();
  }

  /**
   * The reordered request gives three sequences, and in the first one every
   * time step holds depth 10's column as temperature, cloud's then wind's
   * columns as dynamic features, and area's column as static feature.
   */
  lemma ReorderedRequest<T>(data: seq<Steps<T>>)
    requires ThreeByFourByFive(data)
    ensures BuildDataset(Lake(data), Show, ["cloud", "wind"], ["area"], ["10"]).Ok?
    ensures var ds := BuildDataset(Lake(data), Show, ["cloud", "wind"], ["area"], ["10"]).value;
      && Len(ds) == 3
      && var item := GetItem(ds, 0);
      && |item.dynamicFeatures| == |item.staticFeatures| == |item.temperatures| == 4
      && forall t :: 0 <= t < 4 ==>
           && item.dynamicFeatures[t] == [data[0][t][3], data[0][t][2]]
           && item.staticFeatures[t] == [data[0][t][4]]
           && item.temperatures[t] == [data[0][t][1]]
  {
    ReorderedRequestSucceeds(data);
    var ds := BuildDataset(Lake(data), Show, ["cloud", "wind"], ["area"], ["10"]).value;
    BuildDatasetColumns(Lake(data), Show, ["cloud", "wind"], ["area"], ["10"], ds);
    LakeColumns(data);
    ReorderedRequestNames();
    ReorderedItem(data, ds);
  }

  /** The first item of a dataset that holds the reordered request's columns. */
  lemma ReorderedItem<T>(data: seq<Steps<T>>, ds: SequenceDataset<T>)
    requires ThreeByFourByFive(data)
    requires Valid(ds) && ds.nOutputs == 1 && ds.nDynamic == 2 && ds.nStatic == 1
    requires HoldsColumns(ds, data, 5, ["depth_5", "depth_10", "wind", "cloud", "area"],
                          ["depth_10", "cloud", "wind", "area"])
    ensures Len(ds) == 3
    ensures var item := GetItem(ds, 0);
      && |item.dynamicFeatures| == |item.staticFeatures| == |item.temperatures| == 4
      && forall t :: 0 <= t < 4 ==>
           && item.dynamicFeatures[t] == [data[0][t][3], data[0][t][2]]
           && item.staticFeatures[t] == [data[0][t][4]]
           && item.temperatures[t] == [data[0][t][1]]
  {
    forall t | 0 <= t < 4
      ensures GetItem(ds, 0).dynamicFeatures[t] == [data[0][t][3], data[0][t][2]]
      ensures GetItem(ds, 0).staticFeatures[t] == [data[0][t][4]]
      ensures GetItem(ds, 0).temperatures[t] == [data[0][t][1]]
    {
      ReorderedStep(data, ds, t);
    }
  }

  /** One time step of that first item. */
  lemma ReorderedStep<T>(data: seq<Steps<T>>, ds: SequenceDataset<T>, t: nat)
    requires ThreeByFourByFive(data) && t < 4
    requires Valid(ds) && ds.nOutputs == 1 && ds.nDynamic == 2 && ds.nStatic == 1
    requires HoldsColumns(ds, data, 5, ["depth_5", "depth_10", "wind", "cloud", "area"],
                          ["depth_10", "cloud", "wind", "area"])
    ensures 0 < Len(ds) && t < |GetItem(ds, 0).temperatures|
    ensures var item := GetItem(ds, 0);
      && item.dynamicFeatures[t] == [data[0][t][3], data[0][t][2]]
      && item.staticFeatures[t] == [data[0][t][4]]
      && item.temperatures[t] == [data[0][t][1]]
  {
    var all: seq<string> := ["depth_5", "depth_10", "wind", "cloud", "area"];
    var req: seq<string> := ["depth_10", "cloud", "wind", "area"];
    var sel, row := ds.sequences[0][t], data[0][t];
    FirstIndexUnique(all, "depth_10", ColumnOf(all, "depth_10"), 1);
    FirstIndexUnique(all, "cloud", ColumnOf(all, "cloud"), 3);
    FirstIndexUnique(all, "wind", ColumnOf(all, "wind"), 2);
    FirstIndexUnique(all, "area", ColumnOf(all, "area"), 4);
    assert sel == [row[1], row[3], row[2], row[4]] by {
      assert |sel| == 4;
      assert sel[0] == row[ColumnOf(all, req[0])];
      assert sel[1] == row[ColumnOf(all, req[1])];
      assert sel[2] == row[ColumnOf(all, req[2])];
      assert sel[3] == row[ColumnOf(all, req[3])];
    }
    GetItemColumns(ds, 0, t);
  }

  /** An absent depth fails, naming the formatted depth. */
  lemma MissingDepth<T>(data: seq<Steps<T>>)
    requires ThreeByFourByFive(data)
    ensures BuildDataset(Lake(data), Show, ["cloud", "wind"], ["area"], ["99"]) == Err(FeatureNotFound("depth_99"))
  {
    var all := FeaturesAll(Lake(data), Show);
    LakeColumns(data);
    assert "depth_" + "99" == "depth_99";
    assert DepthLabels(Show, ["99"]) == ["depth_99"];
    assert "depth_99" !in all;
    assert Resolve(all, ["depth_99"]) == Err(FeatureNotFound("depth_99"));
  }
}

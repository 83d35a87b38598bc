/**
 * The sample container: an array of sequences with axes (sequence, time step,
 * column) whose columns are laid out as temperatures at the target depths, then
 * dynamic features, then static features. Element values are only moved, never
 * computed on, so the element type is a parameter.
 */
module SequenceDatasets {
  import opened PySlice

  /** A time step is one row of columns; a sequence is a run of time steps. */
  type Row<T> = seq<T>
  type Steps<T> = seq<Row<T>>

  /** The fields assigned once by the constructor and never updated afterwards. */
  datatype SequenceDataset<T> = SequenceDataset(
    len: nat,
    nOutputs: nat,
    nDynamic: nat,
    nStatic: nat,
    sequences: seq<Steps<T>>)

  /** One sample, with its three slices in the order the container returns them. */
  datatype Sample<T> = Sample(dynamicFeatures: Steps<T>, staticFeatures: Steps<T>, temperatures: Steps<T>)

  /** The stored length is the number of stored sequences. */
  predicate Valid<T>(d: SequenceDataset<T>) {
    d.len == |d.sequences|
  }

  /** Construction: records the size of the first axis and keeps everything else as given. */
  function Init<T>(sequences: seq<Steps<T>>, nOutputs: nat, nDynamic: nat, nStatic: nat): (d: SequenceDataset<T>)
    ensures Valid(d) && Len(d) == |sequences|
    ensures d.sequences == sequences
    ensures d.nOutputs == nOutputs && d.nDynamic == nDynamic && d.nStatic == nStatic
  {
    SequenceDataset(|sequences|, nOutputs, nDynamic, nStatic, sequences)
  }

  /** The number of sequences. */
  function Len<T>(d: SequenceDataset<T>): nat {
    d.len
  }

  /** `steps[:, start:stop]`: the same column slice taken from every time step. */
  function SliceSteps<T>(steps: Steps<T>, start: int, stop: int): (r: Steps<T>)
    ensures |r| == |steps|
  {
    seq(|steps|, t requires 0 <= t < |steps| => Slice(steps[t], start, stop))
  }

  /** `steps[:, start:]`. */
  function SliceStepsFrom<T>(steps: Steps<T>, start: int): (r: Steps<T>)
    ensures |r| == |steps|
  {
    seq(|steps|, t requires 0 <= t < |steps| => SliceFrom(steps[t], start))
  }

  /**
   * Sample `idx`: temperatures are the first `nOutputs` columns, dynamic features
   * the next `nDynamic` columns, and static features the slice `-nStatic:` of
   * every time step. Python's slices clamp at the row's end, and `-0:` is `0:`.
   */
  function GetItem<T>(d: SequenceDataset<T>, idx: nat): (r: Sample<T>)
    requires Valid(d) && idx < Len(d)
    ensures var steps := d.sequences[idx];
      && |r.temperatures| == |steps| && |r.dynamicFeatures| == |steps| && |r.staticFeatures| == |steps|
      && forall t :: 0 <= t < |steps| ==>
           && r.temperatures[t] == steps[t][..Min(d.nOutputs, |steps[t]|)]
           && r.dynamicFeatures[t] == (if d.nOutputs <= |steps[t]|
                                       then steps[t][d.nOutputs..Min(d.nOutputs + d.nDynamic, |steps[t]|)]
                                       else [])
           && r.staticFeatures[t] == (if d.nStatic == 0 || |steps[t]| <= d.nStatic
                                      then steps[t]
                                      else steps[t][|steps[t]| - d.nStatic..])
  {
    var steps := d.sequences[idx];
    var temperatures := SliceSteps(steps, 0, d.nOutputs);
    var dynamicFeatures := SliceSteps(steps, d.nOutputs, d.nOutputs + d.nDynamic);
    var staticFeatures := SliceStepsFrom(steps, -(d.nStatic as int));
    Sample(dynamicFeatures, staticFeatures, temperatures)
  }

  /**
   * When the three counts partition the row and there is at least one static
   * column, the three slices have exactly the counts' widths and, concatenated
   * as temperatures, dynamic, static, give back the row.
   */
  lemma GetItemPartition<T>(d: SequenceDataset<T>, idx: nat, t: nat)
    requires Valid(d) && idx < Len(d) && t < |d.sequences[idx]|
    requires d.nOutputs + d.nDynamic + d.nStatic == |d.sequences[idx][t]|
    requires d.nStatic > 0
    ensures var s, row := GetItem(d, idx), d.sequences[idx][t];
      && |s.temperatures[t]| == d.nOutputs
      && |s.dynamicFeatures[t]| == d.nDynamic
      && |s.staticFeatures[t]| == d.nStatic
      && s.temperatures[t] + s.dynamicFeatures[t] + s.staticFeatures[t] == row
  {
    var s, row := GetItem(d, idx), d.sequences[idx][t];
    var a, b := d.nOutputs, d.nOutputs + d.nDynamic;
    assert s.temperatures[t] == row[..a];
    assert s.dynamicFeatures[t] == row[a..b];
    assert s.staticFeatures[t] == row[b..];
    SplitRow(row, a, b);
  }

  /**
   * Column by column, for a row the three counts partition: temperature `j` is
   * column `j`, dynamic feature `j` is column `nOutputs + j`, and, when there are
   * static columns, static feature `j` is column `nOutputs + nDynamic + j`.
   */
  lemma GetItemColumns<T>(d: SequenceDataset<T>, idx: nat, t: nat)
    requires Valid(d) && idx < Len(d) && t < |d.sequences[idx]|
    requires d.nOutputs + d.nDynamic + d.nStatic == |d.sequences[idx][t]|
    ensures var s, row := GetItem(d, idx), d.sequences[idx][t];
      && |s.temperatures[t]| == d.nOutputs
      && |s.dynamicFeatures[t]| == d.nDynamic
      && (forall j :: 0 <= j < d.nOutputs ==> s.temperatures[t][j] == row[j])
      && (forall j :: 0 <= j < d.nDynamic ==> s.dynamicFeatures[t][j] == row[d.nOutputs + j])
      && (d.nStatic > 0 ==>
            && |s.staticFeatures[t]| == d.nStatic
            && forall j :: 0 <= j < d.nStatic ==> s.staticFeatures[t][j] == row[d.nOutputs + d.nDynamic + j])
  {
  }

  /** A row is its prefix, middle and suffix put back together. */
  lemma SplitRow<T>(row: Row<T>, a: nat, b: nat)
    requires a <= b <= |row|
    ensures row[..a] + row[a..b] + row[b..] == row
  {
    assert row[..a] + row[a..b] == row[..b];
  }

  /**
   * With no static columns the static slice is `-0:`, that is `0:`: it is the
   * whole row rather than an empty one, so once there is any temperature or
   * dynamic column the three slices no longer reconstruct a non-empty row.
   */
  lemma GetItemNoStatic<T>(d: SequenceDataset<T>, idx: nat, t: nat)
    requires Valid(d) && idx < Len(d) && t < |d.sequences[idx]|
    requires d.nStatic == 0
    ensures var s, row := GetItem(d, idx), d.sequences[idx][t];
      && s.staticFeatures[t] == row
      && (|row| > 0 && d.nOutputs + d.nDynamic > 0 ==>
            s.temperatures[t] + s.dynamicFeatures[t] + s.staticFeatures[t] != row)
  {
    var s, row := GetItem(d, idx), d.sequences[idx][t];
    if |row| > 0 && d.nOutputs + d.nDynamic > 0 {
      assert |s.temperatures[t]| + |s.dynamicFeatures[t]| > 0;
    }
  }
}

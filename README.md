# Column layout of the lake-temperature training data

This project models, in Dafny, how the training stage of the lake-temperature
LSTM (`3_train/src/train.py`) lays out the columns of its training data. There
are two parts.

- **The sample container** (`SequenceDataset`). It holds an array of sequences
  with axes (sequence, time step, column) and three counts: `n_outputs`
  (target depths), `n_dynamic` and `n_static`. Its length is the size of the
  first axis. Item `idx` splits every time step's row into three slices:
  - temperatures `[:n_outputs]`;
  - dynamic features `[n_outputs:n_outputs + n_dynamic]`;
  - static features `[-n_static:]`.

  Python's slice rules are modelled exactly. A negative bound counts from the
  end, and bounds are clamped to the row. So `-0:` is `0:`: with no static
  features, the static slice is the whole row, not an empty one.
- **Building the container from an archive** (`get_dataloader`, up to the
  dataset it builds):
  1. It forms the canonical column-name list: `depth_<d>` for every archive
     depth, then the dynamic feature names, then the static feature names.
  2. It resolves each requested depth, dynamic feature and static feature to
     the name's first position in that list, as `list.index` does. The first
     absent name aborts the build, and that name is reported.
  3. It gathers the columns depths first, then dynamic, then static. Within
     each group it keeps the caller's order.
  4. It constructs the container with the three request lengths as its counts.

Element values are only moved, never computed on. So the element type is a type
parameter, and no floating point is involved. Depth identifiers also have a
type parameter `D`. A function `show: D -> string` gives their textual form, and
a depth's column name is `"depth_" + show(d)`.

Modules:
- `PySlice` (`py_slice.dfy`): Python basic slicing.
- `SequenceDatasets` (`sequence_dataset.dfy`): the container.
- `FeatureSelection` (`feature_selection.dfy`): name resolution, column gather
  and building.
- `Scenarios` (`scenarios.dfy`): worked examples.
- `Wrappers` (`wrappers.dfy`): `Option` and `Result`.

The code is followed where a plain description of the layout would differ:
- The static block is described as the columns from `width - n_static` on.
  The code's `-n_static:` agrees with that only when `n_static > 0`.
- The three counts are said to partition the row. The code never checks this,
  so the model does not require it. Slices then clamp, as Python's do.

## Model

| member | source | states |
|---|---|---|
| PySlice.SlicePrefix | 3_train/src/train.py:64 | `s[:n]` keeps the first `n` elements, or all of them when the row is shorter |
| PySlice.SliceRun | 3_train/src/train.py:65 | `s[a:a+m]` is the run of at most `m` elements starting at `a`, and empty when `a` is past the end |
| PySlice.SliceSuffix | 3_train/src/train.py:66 | `s[-m:]` keeps the last `m` elements; with `m == 0` or `m` at least the length it keeps the whole sequence |
| SequenceDatasets.Init | 3_train/src/train.py:44-60 | the constructed container's length is the number of sequences, and the sequences and counts are stored unchanged |
| SequenceDatasets.GetItem | 3_train/src/train.py:62-67 | each of the three slices has one entry per time step; temperatures are the first `min(n_outputs, width)` columns, dynamic features the columns from `n_outputs` up to `n_outputs + n_dynamic` clamped to the row, and static features the last `n_static` columns, or the whole row when `n_static` is 0 or at least the width |
| SequenceDatasets.GetItemColumns | 3_train/src/train.py:63-66 | when the counts partition the row, temperature `j` is column `j`, dynamic feature `j` is column `n_outputs + j`, and static feature `j` (if `n_static > 0`) is column `n_outputs + n_dynamic + j` |
| SequenceDatasets.GetItemPartition | 3_train/src/train.py:63-67 | when the counts partition the row and `n_static > 0`, the slices have widths `n_outputs`, `n_dynamic`, `n_static` and temperatures ++ dynamic ++ static is the row |
| SequenceDatasets.SplitRow | 3_train/src/train.py:63 | a row is its prefix, middle and suffix concatenated, which is the layout the three slices cut |
| SequenceDatasets.GetItemNoStatic | 3_train/src/train.py:66 | with `n_static == 0` the static slice is the whole row, so once there is a temperature or dynamic column the slices no longer reconstruct a non-empty row |
| FeatureSelection.DepthLabels | 3_train/src/train.py:90-91 | one name per depth, in order, each `depth_` followed by the depth's textual form |
| FeatureSelection.FeaturesAll | 3_train/src/train.py:90-97 | the canonical list has length depths + dynamic + static and holds the depth names, then the dynamic names, then the static names, each at its block offset |
| FeatureSelection.IndexOf | 3_train/src/train.py:99-101 | `list.index`: a position is found exactly when the name is present, and it is the first position holding the name |
| FeatureSelection.Resolve | 3_train/src/train.py:99-101 | resolving succeeds exactly when every name is present; each result is the first position of the corresponding name; on failure the error names the first absent name, and every earlier name is present |
| FeatureSelection.ResolveAppend | 3_train/src/train.py:99-102 | resolving two groups and concatenating the positions equals resolving the concatenated names: the same positions in the same order, or the same first error |
| FeatureSelection.SelectColumns | 3_train/src/train.py:110 | `data[:, :, idx]` keeps the number of sequences and time steps, has rows of width `len(idx)`, and column `j` is original column `idx[j]` |
| FeatureSelection.BuildDataset | 3_train/src/train.py:85-114 | a built container is valid, its length is the archive's number of sequences, its time-step counts are the archive's, its rows have one column per requested name, and its counts are the lengths of the depth, dynamic and static requests |
| FeatureSelection.BuildDatasetResolvesRequest | 3_train/src/train.py:99-110 | building fails with the error of resolving the whole request (depth names, dynamic, static), or gathers the resolved columns when they all lie inside the data |
| FeatureSelection.BuildDatasetOutcome | 3_train/src/train.py:99-109 | for an archive whose width matches its name lists, building succeeds if and only if every requested name is a column name; otherwise it fails naming the first absent requested name |
| FeatureSelection.BuildDatasetColumns | 3_train/src/train.py:99-110 | a built container holds, at column `j` of every row, the archive column of the `j`-th requested name (its first position), with the archive's sequence and time-step counts |
| FeatureSelection.HeldItem | 3_train/src/train.py:62-67 | for a container holding the columns of depth names ++ dynamic ++ static, each slice of an item is, column by column, the data column of the corresponding requested name; with no static names the static slice is temperatures ++ dynamic |
| FeatureSelection.BuildDatasetItem | 3_train/src/train.py:99-114 | end to end: temperature `j` of item `k` at every time step is the archive column named after the `j`-th requested depth, and dynamic feature `j` is the column of the `j`-th requested dynamic feature |
| FeatureSelection.BuildDatasetStatic | 3_train/src/train.py:104-114 | end to end: static feature `j` is the column of the `j`-th requested static feature when some are requested; with none requested the static slice is the whole selected row |
| Scenarios.LakeColumns | 3_train/src/train.py:90-97 | for depths 5 and 10, dynamic wind and cloud and static area, the canonical list is `depth_5, depth_10, wind, cloud, area` |
| Scenarios.ReorderedRequestSucceeds | 3_train/src/train.py:99-114 | requesting depth 10, cloud and wind, and area from that archive succeeds |
| Scenarios.ReorderedRequest | 3_train/src/train.py:99-114 | for any data of shape (3, 4, 5) that request succeeds and gives 3 sequences; in the first, every time step has temperature = the depth-10 column, dynamic = the cloud column then the wind column, and static = the area column |
| Scenarios.MissingDepth | 3_train/src/train.py:90-101 | requesting depth 99 fails with the missing name `depth_99` |

## Left out

- Loading the archive with `np.load` (line 85) is file I/O. The archive is a
  value passed in, so a missing or unreadable file is not modelled.
- `torch.from_numpy` (line 110) only converts the gathered array. The model
  keeps it as a nested sequence.
- The `DataLoader` (line 115) is left out: it does batching, shuffling and
  worker processes in an external library. `batch_size` and `shuffle` are not
  defined in the file, so the model stops at the dataset.
- `f"depth_{depth}"` uses Python's default conversion of a (possibly
  floating-point) number to text. That conversion is the parameter `show`.
- Negative or out-of-range indices in `__getitem__` follow torch's indexing
  rules: wrap-around and `IndexError`. `GetItem` requires `0 <= idx < len`.
- GetItem returns the three slices as values. Torch returns views that share
  storage with the stored array, so aliasing is not modelled.
- SequenceDatasets.Init takes the counts as natural numbers. Python would
  accept any integers, but the only caller passes list lengths.
- FeatureSelection.BuildDataset reports a gathered column past the data's third
  axis as `ColumnOutOfBounds`, without numpy's `IndexError` message or the
  offending index. This happens only when the archive's width disagrees with
  its name lists.
- The model imports, neural-network and optimizer code (lines 1-10) are not
  part of this model.

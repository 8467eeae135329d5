# The key-visual engine, verified

A Dafny model of the part of TiDB Dashboard that turns per-region traffic into a heat map of keys over time,
with the key codec it relies on and one table join from the diagnosis report. Every loop of the original that
matters is a method with a loop, proved against a specification; what the original promises is proved of the
specification.

- **Row compression** (`Greedy`, `ColdMerge`, `FocusPlan`, `Chunks`, `Axes`, `Region`). A chunk is one column of
  buckets between sorted keys. `Focus` closes a bucket by heat, by width or at a border between tables; `Divide`
  searches the heat threshold by bisection; cold logical ranges may then be merged. The code never states how many
  rows result. Here it is proved: for a target of at least 2, at most the target less one, plus one for each change of
  class along the keys. Dividing panics for target 1 (it divides by zero) and for negative targets (a negative
  capacity), and for no other. `FocusExactly` and `DivideExactly` say row by row which cuts, threshold and ratio
  result, and that no others would do.
- **Time compression** (`Layers`, `LayerRange`, `Traffic`, `Feeding`, `Stats`, `Storage`). Ring buffers in a chain: a
  full layer makes one entry of its oldest ones and appends it to the next layer. After any run of appends, the whole
  chain is a function of the history of entries (`Cascade`), no entry is lost or counted twice on the way down, and a
  query gives exactly the stored segments that meet its window. With the fold that the original uses (compact, add the
  integration, divide, shrink), the traffic of all layers, weighted by the ratios above them, never exceeds what was
  appended, in every column, and falls short, while no distance is cut off, only by what rounding down loses.
- **The table behind it** (`Databases`, `Mirrors`, `Restoring`, `Storage`). A table mirrors the layers when it holds,
  for each, one row for its start and one for each entry, and nothing else. Appending keeps a mirror a mirror, and
  restoring from one gives its layers back. The original does not always begin with a mirror: it has one after
  starting without a table, or with one that holds a single row of layer 0; with a table that has two or more rows of
  layer 0 it has one if and only if there were rows for every layer; and with a table that exists but has no row of
  layer 0 it has none, because no start rows are written. Such a table is left by a process that stops between
  creating or clearing the table and writing the start rows.
- **Splitting cells** (`Embeddings`, `Unions`, `Distances`, `Weights`, `Scales`, `ScaleLaws`, `ScaleWorkers`,
  `Splitters`, `Planes`, `Matrices`). Axes with different keys are split into the cells of the union of their keys,
  evenly or by scales that fall with the distance to the nearest axis that has a key. The two passes give exact
  distances; scales of a bucket sum to at most 1, and to 1 exactly when no cut-off fires; they are determined by the
  laws of `ScalesExactly`; splitting never makes traffic. The matrix that results can always be cut to the window of
  keys asked for: the panic that the original calls unreachable is.
- **Codec and borders** (`Codec`, `Labeler`). The memory-comparable encoding keeps order, round-trips and is
  canonical. What class a key has is read off its bytes (`ClassOfBytes`). A generated row key does not read back its
  row: `codec.go` writes the one-byte marker `r` and looks for `_r`. Borders classify keys, so the row bound applies
  to TiDB's labeler.
- **The join** (`RowLabels`, `Join`). An outer join of tables whose join values repeat pairs the k-th rows of a label,
  uses every row of both tables once, emits as many rows of a label as the table with more of it has, and ends. Labels
  are join values glued with commas, so rows with different values can share one. Whatever a table is joined with, its
  rows are paired only with rows of equal join values if and only if it has a single join column, or none of its join
  values holds a comma; it is enough that this holds of one of the two tables.

How things are modelled:

- Keys are byte strings compared by value; a last key that is empty is an unlimited end (`Keys.BoundAt`).
- A value assigned to a `uint64` is a proof that it fits; columns are sequences or arrays of natural numbers. Where
  the code adds values up, the totals are required to stay below 2^64, and below 2^63 where it divides by bisection.
- A labeler is any function of two keys, unless a statement says what it must be; the TiDB one is `CrossesBorder`.
- The way a layer makes one axis of several (`Config.fold`) is a parameter of the layers; `Feeding.FoldOldest` computes
  the original's, and `Feeding.FoldsAxes` says that a layer uses it. A layer that has a next one passes on no more
  than it holds (`WellConfigured`), and appended end times increase, as the clock that supplies them does.
- The table is a map keyed by layer and time. The tag in `model.go` is meant to declare a unique index on the two,
  but it is spelled as in an older version of the library, so there may be none; what is said of any table therefore
  covers tables without two rows for one layer and time. A mirrored table never has any, nor is such a row ever
  inserted into it (`Mirrors.NewEntryHasNoRow`).
- Scales are real numbers. Distances, layers and join rows are exact.
- The order in which Go walks a map is left open: `Join.JoinRest` picks keys in any order.
- Ghost parameters (`chain`, `ats`, `cuts`, `columns`, `labels1` and the like) name what a method is about; they
  take no part in what it computes. Those of `Planes.Plane.Pixel` are determined by its other arguments
  (`Unions.UnionIsUnique`, `Embeddings.EmbeddingIsUnique`, `Planes.SplitterIsUnique`).

## Model

| member | source | states |
|---|---|---|
| `Codec.EncodeBytes` | pkg/tidb/model/codec.go:164-185 | the encoding loop computes the group-by-group encoding of any byte string |
| `Codec.DecodeBytes` | pkg/tidb/model/codec.go:114-151 | the decoding loop computes the recursive decoder, with its three errors in the code's order |
| `Codec.EncodedLength` | pkg/tidb/model/codec.go:165-169 | an encoding of n bytes has (n/8+1)*9 bytes |
| `Codec.EncodedBytes` | pkg/tidb/model/codec.go:153-185 | every byte of an encoding: eight of data or zeros, then 255 less the number of zeros |
| `Codec.DecodeEncoded` | pkg/tidb/model/codec.go:112-151 | decoding an encoding followed by anything gives back the bytes and what follows |
| `Codec.DecodeIsCanonical` | pkg/tidb/model/codec.go:114-151 | whatever decodes is the encoding of its result, followed by the rest |
| `Codec.DecodeSucceedsExactly` | pkg/tidb/model/codec.go:114-185 | decoding to a value and a rest holds if and only if the input is that encoding and that rest |
| `Codec.DecodeStopsAt` | pkg/tidb/model/codec.go:114-151 | what the first group that is not full leads to: too few bytes, an invalid marker, invalid padding, or the end of the value |
| `Codec.GroupKeepsOrder` | pkg/tidb/model/codec.go:153-157 | padding and marker keep the order of two groups of any lengths |
| `Codec.EncodedKeepsOrder` | pkg/tidb/model/codec.go:153-163 | byte-wise comparison of encodings, whatever follows them, is the comparison of the original strings |
| `Codec.EncodeIntKeepsOrder` | pkg/tidb/model/codec.go:200-215 | encoded 64-bit integers compare byte by byte as the signed integers do |
| `Codec.DecodeEncodedInt` | pkg/tidb/model/codec.go:187-215 | decoding an encoded integer gives it back, and the rest |
| `Codec.DecodeIntExactly` | pkg/tidb/model/codec.go:187-215 | decoding gives an integer and a rest if and only if the bytes are that integer's encoding and that rest; it fails exactly below eight bytes |
| `Codec.KeyInfoBuffer.DecodeKey` | pkg/tidb/model/codec.go:34-43 | the buffer holds the decoded bytes, or nothing after an error, whatever it held before |
| `Codec.KeyInfoBuffer.GenerateKey` | pkg/tidb/model/codec.go:82-108 | no key for table 0; otherwise the encoding of table and row, which also replaces the buffer |
| `Codec.GeneratedKeyReadsBack` | pkg/tidb/model/codec.go:49-108 | the table of a generated key reads back; its row reads back only if it is 0, because the marker written is one byte and the one looked for two |
| `Codec.GeneratedRowIsLost` | pkg/tidb/model/codec.go:61-70 | a concrete row that does not read back |
| `Codec.RowInfoReads` | pkg/tidb/model/codec.go:61-70 | behind the marker `_r` the row is read exactly when nothing follows it |
| `Codec.KeyDataBytes` | pkg/tidb/model/codec.go:95-105 | the bytes of a generated key before encoding |
| `Codec.GeneratedKeysKeepOrder` | pkg/tidb/model/codec.go:81-108 | generated keys sort by table, the bare table key first, then by row |
| `Labeler.TidbLabeler.CrossBorder` | pkg/keyvisual/decorator/tidb.go:87-103 | true exactly when the classes of the two keys differ, whatever the shared buffer held |
| `Labeler.ClassOfBytes` | pkg/tidb/model/codec.go:49-79 | the class of every key by its decoded bytes: metadata, a table, an index of a table, or neither |
| `Labeler.KeysCross` | pkg/keyvisual/decorator/tidb.go:87-103 | index keys cross a border if and only if table or index differ; row and table keys cross to index keys unless the index is 0; metadata crosses to everything else |
| `Labeler.GeneratedKeysCrossByTable` | pkg/keyvisual/decorator/tidb.go:86-103 | generated keys of non-zero tables cross a border if and only if the tables differ |
| `Labeler.BordersClassify` | pkg/keyvisual/decorator/tidb.go:86-103 | not crossing is an equivalence |
| `Labeler.DivideByTables` | pkg/keyvisual/matrix/axis.go:298-323 | with this labeler, a target of at least 2 is missed by at most one row per change of class |
| `Keys.MeetsExactly` | pkg/keyvisual/matrix/util.go:78-119 | a bucket shares a key with a window just when each begins before the other ends |
| `Keys.KeysRange` | pkg/keyvisual/matrix/util.go:79-119 | panics exactly for an empty window; otherwise selects exactly the buckets that meet it, or says that none does |
| `Unions.MakeKeys` | pkg/keyvisual/matrix/util.go:59-69 | the elements of the set, ascending, and no others |
| `Unions.MakeKeysWithUnlimitedEnd` | pkg/keyvisual/matrix/util.go:73-76 | the same, followed by the unlimited end |
| `Embeddings.EmbeddedPassesCheck` | pkg/keyvisual/matrix/util.go:39-49 | the inclusion check never panics for keys that lie among the finer keys |
| `Ints.Memset` | pkg/keyvisual/matrix/util.go:10-31 | copying ever larger prefixes sets every element |
| `Ints.QuotientTruncates` | pkg/keyvisual/matrix/axis.go:320-321 | division rounds toward zero, for all signs |
| `Greedy.CutsAreGreedy` | pkg/keyvisual/matrix/axis.go:212-237 | every bucket joins the rows the rule joins, and stops at the first it does not |
| `Greedy.CutsExactly` | pkg/keyvisual/matrix/axis.go:212-237 | the cuts are the only ones that close every bucket at the first row that is hot, follows a hot bucket, is too far from its start or across a border from its first key |
| `Greedy.BucketShape` | pkg/keyvisual/matrix/axis.go:228-234 | hot rows are alone; no bucket is wider than the ratio, crosses a border from its first key, or (with two rows) reaches twice the threshold |
| `Greedy.FocusRowsAntitone` | pkg/keyvisual/matrix/axis.go:187-207 | a higher threshold never estimates more rows |
| `Greedy.FocusRowsExactly` | pkg/keyvisual/matrix/axis.go:187-207 | there is one way of closing buckets by heat alone, and the estimate is how many buckets it makes |
| `Greedy.ColdestIsOneRow` | pkg/keyvisual/matrix/axis.go:187-207 | above the total the estimate is one row |
| `Greedy.HeatRunIsAhead` | pkg/keyvisual/matrix/axis.go:198-236 | wherever its bucket started no later, the estimate cuts for heat whenever a focus with an equal or higher threshold does |
| `Greedy.AheadHasMoreHeatCuts` | pkg/keyvisual/matrix/axis.go:198-236 | cutting for other reasons never makes heat cut more often than in the estimate |
| `Greedy.CutsBound` | pkg/keyvisual/matrix/axis.go:187-237 | a focus makes at most the estimated rows, plus one per full width, plus one per change of class |
| `ColdMerge.BordersAreCrossings` | pkg/keyvisual/matrix/axis.go:286-291 | logical ranges begin exactly at the keys across a border from the key before |
| `ColdMerge.MergeCutsAreGood` | pkg/keyvisual/matrix/axis.go:246-295 | hot ranges stay row for row, every other bucket is whole cold ranges within the quarter but for the last and within twice the quarter with it, and neighbours had to stay apart |
| `ColdMerge.MergeCutsExactly` | pkg/keyvisual/matrix/axis.go:246-295 | there is one way of merging like that |
| `FocusPlan.RangesExactly` | pkg/keyvisual/matrix/axis.go:286-294 | the logical ranges are cut at the crossings and nowhere else |
| `FocusPlan.ColdCutsExactly` | pkg/keyvisual/matrix/axis.go:246-295 | a cold merge is that merge with a quarter of the threshold and the logical ranges of the keys |
| `FocusPlan.FocusExactly` | pkg/keyvisual/matrix/axis.go:212-244 | a focus has exactly these cuts: rows closed as the rule says; in the mode that merges, with no fewer rows than the target, cold ranges of them merged |
| `ColdMerge.GeneratedIsSound` | pkg/keyvisual/matrix/axis.go:265-284 | one more logical range keeps the merge loop's keys, sums and open run those that the ranges so far call for |
| `Chunks.GenerateRange` | pkg/keyvisual/matrix/axis.go:265-284 | the closure computes that step |
| `Chunks.MergeColdRange` | pkg/keyvisual/matrix/axis.go:256-264 | closing the open run |
| `Chunks.MergeColdRows` | pkg/keyvisual/matrix/axis.go:246-295 | the loop's keys and sums are those of a merge at the cold cuts |
| `Chunks.SumBetween` | pkg/keyvisual/matrix/axis.go:175-182 | summing rows between the coarser keys gives one sum per bucket |
| `Chunks.CoarserPassesCheck` | pkg/keyvisual/matrix/util.go:51-56 | the check on coarser keys never panics |
| `Chunks.CountFocusRows` | pkg/keyvisual/matrix/axis.go:187-207 | the estimate loop counts the buckets of a run cut by heat alone |
| `Chunks.FocusRowByRow` | pkg/keyvisual/matrix/axis.go:212-239 | the focus loop's keys and sums are those of a merge at the greedy cuts |
| `Chunks.SearchThreshold` | pkg/keyvisual/matrix/axis.go:302-319 | the binary search ends at the least threshold whose estimate is within two thirds of the target, without overflow |
| `FocusPlan.LeastFromIs` | pkg/keyvisual/matrix/axis.go:310-317 | that threshold is small enough, and no smaller one is |
| `FocusPlan.DivideExactly` | pkg/keyvisual/matrix/axis.go:302-322 | for targets of at least 2 the rule is the only one with the least threshold whose estimate is within two thirds of the target and a ratio one above the rows per spare bucket; target 0, target 1 and negative targets are stated too |
| `FocusPlan.EstimateFitsTarget` | pkg/keyvisual/matrix/axis.go:309-320 | for targets of at least 2 the estimate at that threshold is below the target; below 2 the search ends above the total with one row |
| `FocusPlan.DividePanicsExactly` | pkg/keyvisual/matrix/axis.go:320-322 | dividing by zero happens exactly for target 1, a negative capacity exactly for negative targets |
| `FocusPlan.FocusRowsAtMost` | pkg/keyvisual/matrix/axis.go:240-242 | merging cold ranges never adds rows |
| `FocusPlan.DivideMeetsTarget` | pkg/keyvisual/matrix/axis.go:298-323 | with a labeler whose borders classify keys, at most target-1 rows plus one per change of class, in both modes |
| `FocusPlan.DividedExactly` | pkg/keyvisual/matrix/axis.go:298-323 | dividing to a target of at least 2 gives exactly the cuts of a focus by that rule |
| `FocusPlan.DivideWithoutBorders` | pkg/keyvisual/matrix/axis.go:298-323 | without borders, fewer rows than the target |
| `FocusPlan.CoarseIsAxis` | pkg/keyvisual/matrix/axis.go:164-184 | the keys at the cuts are again the keys of an axis, with the same bounds |
| `Chunks.Chunk.SetZeroValues` | pkg/keyvisual/matrix/axis.go:151-154 | a new zero column; the old one is not touched |
| `Chunks.Chunk.Clear` | pkg/keyvisual/matrix/axis.go:157-159 | the column itself is overwritten with zeros |
| `Chunks.Chunk.Reduce` | pkg/keyvisual/matrix/axis.go:164-184 | both paths give the sums between the coarser keys |
| `Chunks.Chunk.GetFocusRows` | pkg/keyvisual/matrix/axis.go:187-207 | the estimate for the chunk's rows |
| `Chunks.Chunk.Focus` | pkg/keyvisual/matrix/axis.go:212-244 | keys and sums at the focus cuts, for every labeler, threshold, ratio and mode; a panic exactly for a negative target |
| `Chunks.Chunk.MergeColdLogicalRange` | pkg/keyvisual/matrix/axis.go:246-295 | keys and sums at the cold cuts, equal to a reduction to those keys |
| `Chunks.Chunk.Divide` | pkg/keyvisual/matrix/axis.go:298-323 | unchanged when the target allows all rows; otherwise the panic, or the focus, that the division rule names |
| `Chunks.MergedAtEveryRow` | pkg/keyvisual/matrix/axis.go:170-173 | reducing to as many keys changes nothing, so the fast path agrees |
| `Chunks.PickComposes` | pkg/keyvisual/matrix/axis.go:239-242 | focusing and then merging is one reduction: picking keys and summing rows compose |
| `Partition.MergedKeepsTotal` | pkg/keyvisual/matrix/axis.go:164-184 | merging rows keeps the total |
| `Partition.MergedExactly` | pkg/keyvisual/matrix/axis.go:175-182 | merged rows are the sums between the cuts and nothing else |
| `Partition.MergedComposes` | pkg/keyvisual/matrix/axis.go:164-184 | reducing over nested keys is reducing once |
| `Axes.Focus` | pkg/keyvisual/matrix/axis.go:73-90 | the cuts found on the first column are applied to every column; a panic exactly for a negative target |
| `Axes.Divide` | pkg/keyvisual/matrix/axis.go:94-107 | the same for a division, with its panics |
| `Axes.CreateEmptyAxis` | pkg/keyvisual/matrix/axis.go:43-51 | one bucket holding zero in every column |
| `Axes.Range` | pkg/keyvisual/matrix/axis.go:63-74 | exactly the buckets that meet the window, in all columns, or an empty axis with as many; every bucket of the result meets the window; panics exactly for an empty window |
| `Region.IntoResponseAxis` | pkg/keyvisual/storage/region.go:54-73 | integration is the sum of written and read bytes, and the base tag's column comes first |
| `Region.IntoStorageAxis` | pkg/keyvisual/storage/region.go:45-51 | all columns but the first, cut where the first is divided; it never panics |
| `Region.StorageRowsBounded` | pkg/keyvisual/storage/region.go:45-51 | at most 3072 rows, plus one per change of class |
| `Region.StorageExactly` | pkg/keyvisual/storage/region.go:45-51 | stored rows are cut exactly as a division to 3072 rows with merging cuts them |
| `Region.StorageKeepsTotals` | pkg/keyvisual/storage/region.go:45-51 | storing keeps the total of every column that is stored |
| `Region.Shrink` | pkg/keyvisual/matrix/axis.go:54-60 | every value divided in place |
| `Region.ShrunkTotal` | pkg/keyvisual/matrix/axis.go:54-60 | a total is divided, losing less than the ratio per row |
| `Region.CoarsenAndShrinkTotal` | pkg/keyvisual/matrix/axis.go:54-60 | merging and then dividing a column divides its total by the ratio, less than one unit per row short |
| `Feeding.FoldOldest` | pkg/keyvisual/storage/stat.go:96-100 | compacts the oldest axes, adds the column to divide by, merges and divides; the stored axes stay as they are, and no total overflows |
| `Feeding.FoldIsUnique` | pkg/keyvisual/storage/stat.go:96-100 | the axes, the strategy and the labeler leave no choice of what is passed on |
| `Feeding.FoldedTotal` | pkg/keyvisual/storage/stat.go:96-100 | a column passed on, times the number of axes, is at most what these held; where no cut-off fires, less than that by at most one per spare cell and less than the ratio per row |
| `Feeding.FoldedIsStored` | pkg/keyvisual/storage/stat.go:96-101 | what is passed on is again an axis with four columns, within the same bound on its totals |
| `Traffic.PassedOnWithin` | pkg/keyvisual/storage/stat.go:72-102 | what a layer has passed on weighs, times the ratio, what it has given up, less at most what its folds lost |
| `Traffic.TrafficIsConserved` | pkg/keyvisual/storage/stat.go:72-117 | after any run, the layers weighted by the ratios above them, and what was dropped, are at most what was appended, and short of it by at most what the folds lost, weighted likewise |
| `Feeding.StoringKeepsTraffic` | pkg/keyvisual/storage/stat.go:72-117 | with the fold of the original, this holds of every column; a fold whose shares are whole loses at most one per spare cell and less than the ratio per cell; every axis held is one that can be stored |
| `Region.Wash` | pkg/keyvisual/storage/region.go:76-84 | exactly the rows with too many written bytes are zeroed, in all columns |
| `Layers.GoneInClosedForm` | pkg/keyvisual/storage/stat.go:72-117 | how many entries a layer has given up: none until full, then whole groups, just enough to make room |
| `Layers.PassedOnCounts` | pkg/keyvisual/storage/stat.go:82-101 | the groups passed on make up exactly what the layer gave up |
| `Layers.PassedOnIsFolded` | pkg/keyvisual/storage/stat.go:86-101 | the j-th entry passed on is made of the j-th group of entries received |
| `Layers.CascadeExactly` | pkg/keyvisual/storage/stat.go:72-117 | a layer holds exactly the end of its stream, from a closed-form place on; what it passed on ends with the last entry of each group and is made of the group's axes in order |
| `Layers.AppendExtendsHistory` | pkg/keyvisual/storage/stat.go:72-117 | appending to the layers of a history gives the layers of the longer history |
| `Layers.RunGivesHistory` | pkg/keyvisual/storage/stat.go:104-117 | after any run of appends the layers are a function of the history alone |
| `LayerRange.HistoryIsCoherent` | pkg/keyvisual/storage/stat.go:72-117 | for rising times: the next layer ends where this one begins, none holds too much, and nothing is below an empty layer |
| `LayerRange.HistoryIsConserved` | pkg/keyvisual/storage/stat.go:72-117 | the entries appended are exactly those the layers stand for, each weighted by the ratios above it, and those dropped |
| `LayerRange.CoherentIsContiguous` | pkg/keyvisual/storage/stat.go:120-167 | the stored segments of all layers are one contiguous stretch of time |
| `LayerRange.HitsAreContiguous` | pkg/keyvisual/storage/stat.go:134-142 | the segments that meet a window are contiguous |
| `LayerRange.LayerWindow` | pkg/keyvisual/storage/stat.go:134-144 | the two searches select exactly a layer's segments that meet the window |
| `LayerRange.QueryIsContiguous` | pkg/keyvisual/storage/stat.go:120-167 | after any run with rising times a query's times strictly rise and bound its segments, with one time more than axes, or neither |
| `LayerRange.QueryExactly` | pkg/keyvisual/storage/stat.go:120-167 | the answer is exactly the axes and bounds of the stored segments that begin before the window ends and end after it begins |
| `Stats.LayerStat.constructor` | pkg/keyvisual/storage/stat.go:47-69 | an empty layer that begins and ends at the start time |
| `Stats.LayerStat.PopOldest` | pkg/keyvisual/storage/stat.go:86-94 | takes the oldest entry out of ring and table; the layer begins where it ended |
| `Stats.LayerStat.PushNewest` | pkg/keyvisual/storage/stat.go:110-116 | puts an entry into ring and table |
| `Stats.LayerStat.Reduce` | pkg/keyvisual/storage/stat.go:72-102 | makes room: all layers below, and the table, become what the specification of making room says |
| `Stats.LayerStat.Append` | pkg/keyvisual/storage/stat.go:105-117 | all layers and the table become what the specification of appending says |
| `Stats.LayerStat.Range` | pkg/keyvisual/storage/stat.go:120-167 | exactly the stored segments that meet the window, of all layers, the oldest first |
| `Stats.LayerStat.Window` | pkg/keyvisual/storage/stat.go:129-164 | this layer's part of an answer, around the ring's wrap |
| `Stats.LayerStat.SearchRing` | pkg/keyvisual/storage/stat.go:134-139 | the two binary searches over the ring find the first entry after one time, and at or after another |
| `Stats.Unroll` | pkg/keyvisual/storage/stat.go:156-164 | a run of ring slots, in one piece or two |
| `Stats.LayerStat.Load` | pkg/keyvisual/storage/stat_persist.go:78-111 | a layer filled from its rows; rows beyond its room are deleted |
| `Stats.LoadedExactly` | pkg/keyvisual/storage/stat_persist.go:89-108 | a loaded layer starts at the first row and holds exactly as many of the oldest rows after it as it has room for |
| `Databases.Database.Insert` | pkg/keyvisual/storage/model.go:50-52 | a row for a layer and time, unless there is one |
| `Databases.Database.Delete` | pkg/keyvisual/storage/model.go:54-59 | one row goes |
| `Databases.Database.Clear` | pkg/keyvisual/storage/model.go:70-74 | all rows go |
| `Databases.Database.DeleteLayer` | pkg/keyvisual/storage/model.go:86-91 | the rows of one layer go |
| `Databases.Database.FindOrderByTime` | pkg/keyvisual/storage/model.go:76-84 | exactly a layer's rows, in ascending time |
| `Mirrors.AppendKeepsMirror` | pkg/keyvisual/storage/stat_persist.go:14-30 | appending keeps every layer's rows exactly its start time and its entries, through the whole cascade |
| `Mirrors.NewEntryHasNoRow` | pkg/keyvisual/storage/stat_persist.go:14-21 | a mirrored layer never inserts a row that is there already |
| `Mirrors.ReduceKeepsMirror` | pkg/keyvisual/storage/stat_persist.go:14-30 | so does making room |
| `Restoring.ModelsOfMirror` | pkg/keyvisual/storage/stat_persist.go:64-112 | the rows of a mirrored layer, in order, are its start and its queue |
| `Restoring.LoadKeepsRows` | pkg/keyvisual/storage/stat_persist.go:94-100 | loading deletes exactly the rows later than the loaded layer |
| `Restoring.RestoringMirror` | pkg/keyvisual/storage/stat_persist.go:33-114 | restoring from a table that mirrors some layers gives back their start times and queues, and the mirror |
| `Restoring.DataHasTwoRows` | pkg/keyvisual/storage/stat_persist.go:78-87 | a mirrored table with data is never taken for one without |
| `Restoring.StartsMirror` | pkg/keyvisual/storage/stat_persist.go:39-51 | start rows alone mirror empty layers |
| `Storage.BuildLayers` | pkg/keyvisual/storage/stat.go:194-200 | a chain of empty layers, numbered from 0, each linked to the next |
| `Storage.Stat.constructor` | pkg/keyvisual/storage/stat.go:186-205 | a storage with an empty history |
| `Storage.Stat.Append` | pkg/keyvisual/storage/stat.go:255-269 | the history grows by the entry, the layers stay what it determines, and a mirroring table stays one |
| `Storage.Stat.RangeRoot` | pkg/keyvisual/storage/stat.go:271-275 | a query answers from the layers that the whole history determines |
| `Storage.AppendSaves` | pkg/keyvisual/storage/stat.go:104-117 | one more later entry keeps history, layers and table in step |
| `Storage.Stat.Restore` | pkg/keyvisual/storage/stat_persist.go:32-114 | without a table or with only a start row it begins anew; from a saved history it goes on with that history; a table without rows of the first layer is left as it is and mirrors nothing; one with data mirrors the layers afterwards if and only if it had rows for every layer |
| `Storage.Stat.LoadAll` | pkg/keyvisual/storage/stat_persist.go:63-112 | the loop over layer numbers ends, whatever rows there are, with every layer loaded down to the first without rows |
| `Storage.Stat.CreateStartModels` | pkg/keyvisual/storage/stat_persist.go:39-51 | the table then holds one start row for each layer |
| `Storage.RestoreGives` | pkg/keyvisual/storage/stat_persist.go:64-112 | the layers and the table that restoring ends with, in each of these cases |
| `Restoring.RestoredIsMirrored` | pkg/keyvisual/storage/stat_persist.go:64-112 | after restoring from data, the table mirrors the layers if and only if it had rows for every layer |
| `Distances.LeftDisIs` | pkg/keyvisual/matrix/distance.go:73-77 | the first pass gives the distance to the nearest axis on the left |
| `Distances.BothDisIs` | pkg/keyvisual/matrix/distance.go:78-83 | the second pass gives the lesser of both sides |
| `Distances.TwoPassesAreExact` | pkg/keyvisual/matrix/distance.go:69-83 | for a key that some axis has, both passes give the exact distance to the nearest such axis |
| `Distances.UpdateLeftDis` | pkg/keyvisual/matrix/distance.go:276-288 | reading both key lists once finds exactly the axis's keys |
| `Distances.UpdateRightDis` | pkg/keyvisual/matrix/distance.go:290-301 | the same, keeping the lesser distance in place |
| `Distances.KeyDistances` | pkg/keyvisual/matrix/distance.go:63-83 | the matrix holds the distances on both sides for every axis and key |
| `Distances.ToBucketDis` | pkg/keyvisual/matrix/distance.go:303-310 | in place, each bucket gets the greater distance of its old end keys, and the maximum is one of them |
| `Distances.BucketDisIs` | pkg/keyvisual/matrix/distance.go:303-310 | a bucket is as far as the farther of its two keys |
| `Weights.WeightFalls` | pkg/keyvisual/matrix/distance.go:245-262 | greater distances weigh no more, equal distances the same |
| `Weights.CutStays` | pkg/keyvisual/matrix/distance.go:253-255 | once a distance is cut off, so are all greater ones |
| `Weights.WeightsWithinTotal` | pkg/keyvisual/matrix/distance.go:245-262 | the weights sum to at most the divisor, and to less as soon as one is cut off, since the stale value is still added |
| `Weights.CleanExactly` | pkg/keyvisual/matrix/distance.go:251-259 | nothing is cut off just when no new distance is beyond the levels or the count |
| `ScaleLaws.CleanIsReached` | pkg/keyvisual/matrix/distance.go:247-258 | a distance is not cut off exactly if it is the least, or few enough distances and few enough cells are nearer |
| `ScaleLaws.ScalesShrink` | pkg/keyvisual/matrix/distance.go:247-267 | from each distance to the next the scale is the ratio times as much, or 0 when cut off |
| `ScaleLaws.ScalesFillUp` | pkg/keyvisual/matrix/distance.go:261-267 | the divisor counts a cell that is cut off as the farthest that is not: filled up like that the scales sum to 1 |
| `ScaleLaws.ScalesExactly` | pkg/keyvisual/matrix/distance.go:239-267 | a bucket's scales are the only ones of which both hold and which equal distances share |
| `ScaleWorkers.BucketScaledExactly` | pkg/keyvisual/matrix/distance.go:239-267 | so are those of every bucket that the worker scales |
| `Scales.WeightsOfPermuted` | pkg/keyvisual/matrix/distance.go:243-266 | the order in which the cells are read does not matter |
| `Scales.ScaledSum` | pkg/keyvisual/matrix/distance.go:239-267 | a bucket's scales sum to at most 1, and to 1 exactly when nothing in it is cut off |
| `Scales.ScaledFalls` | pkg/keyvisual/matrix/distance.go:263-266 | a cell farther away has no greater scale |
| `Scales.ScaledSingle` | pkg/keyvisual/matrix/distance.go:235-238 | a single cell's scale is 1, so the shortcut agrees |
| `Scales.ScaledShares` | pkg/keyvisual/matrix/distance.go:107-135 | the shares of a bucket's cells never sum to more than the bucket held, and where the scales sum to 1 lose less than one per cell |
| `ScaleWorkers.ScaleWorker.MakeRoom` | pkg/keyvisual/matrix/distance.go:217-221 | doubling ends with room for the greatest distance |
| `ScaleWorkers.ScaleWorker.Weigh` | pkg/keyvisual/matrix/distance.go:240-262 | the scratch map gets the weights of the bucket's distances, whatever it held before |
| `ScaleWorkers.ScaleWorker.Work` | pkg/keyvisual/matrix/distance.go:205-271 | every bucket of the axis gets its scales, independent of earlier axes |
| `ScaleWorkers.ScaledCanSplit` | pkg/keyvisual/matrix/distance.go:90-139 | such scales can be split by |
| `Splitters.CellsOfBucket` | pkg/keyvisual/matrix/average.go:35-63 | the cells of a bucket hold exactly its shares, though the walk is over all cells |
| `Splitters.SplitExactly` | pkg/keyvisual/matrix/distance.go:107-139 | a split gives every cell an equal share, or its own scale's share rounded down, of the bucket it is in, and leaves cells outside the axis as they were; nothing else is one |
| `Splitters.BucketsComeBack` | pkg/keyvisual/matrix/average.go:41-63 | summing a bucket's cells gives back at most its value, and, where the shares are whole, less than one short per further cell |
| `Splitters.CellsKeepTotal` | pkg/keyvisual/matrix/average.go:41-63 | a split column never exceeds its total and, where the shares are whole, keeps it up to cells minus buckets |
| `Splitters.FastPathAgrees` | pkg/keyvisual/matrix/average.go:21-33 | with equal lengths, splitting gives the column itself, as the fast path does |
| `Splitters.Split` | pkg/keyvisual/matrix/average.go:18-67 | both tags and both paths: the cells inside the axis are set or added to, the others are untouched |
| `Unions.UnionKeys` | pkg/keyvisual/matrix/plane.go:96-119 | the sorted union of all axes' bounds, and no others |
| `Unions.UnionIsUnique` | pkg/keyvisual/matrix/plane.go:96-119 | the axes leave no choice of the union |
| `Embeddings.EmbeddingIsUnique` | pkg/keyvisual/matrix/util.go:38-49 | nor of where an axis's keys lie in it |
| `Unions.UnionEmbeds` | pkg/keyvisual/matrix/plane.go:113-124 | every axis is a subsequence of the union and passes the inclusion check |
| `Planes.NewSplitter` | pkg/keyvisual/matrix/distance.go:59-88 | for each axis, the scales of the exact distances of its cells |
| `ScaleWorkers.ScaleIsUnique` | pkg/keyvisual/matrix/distance.go:205-271 | the distances leave no choice of the scales |
| `Planes.SplitterIsUnique` | pkg/keyvisual/matrix/distance.go:59-88 | nor the axes of the splitter |
| `Planes.UnionDistances` | pkg/keyvisual/matrix/distance.go:73-83 | among the union's keys the distances are exact |
| `Planes.CompactFirstColumn` | pkg/keyvisual/matrix/plane.go:96-126 | the union's keys, with each cell the sum of what the axes put into it |
| `Planes.WholeExactly` | pkg/keyvisual/matrix/distance.go:231-267 | an axis's shares are whole when it is split evenly, and by distance if and only if no distance in any bucket is cut off by level or count |
| `Planes.CompactedKeepsTotal` | pkg/keyvisual/matrix/plane.go:119-124 | never more than the columns held; split evenly, or by scales that sum to 1, at most cells minus buckets less per axis |
| `Planes.CompactedExactly` | pkg/keyvisual/matrix/plane.go:119-124 | every cell holds the sum of what each axis puts into it |
| `Planes.Plane.Compact` | pkg/keyvisual/matrix/plane.go:35-53 | every column is compacted by the one splitter |
| `Planes.Plane.Pixel` | pkg/keyvisual/matrix/plane.go:56-94 | every axis's columns, split into the cleared cells and reduced to the keys that dividing leaves, or the panic that dividing ends in |
| `Planes.PixelColumns` | pkg/keyvisual/matrix/plane.go:74-82 | reusing one cleared chunk gives each axis its own cells |
| `Planes.PixelsKeepTotal` | pkg/keyvisual/matrix/plane.go:74-82 | no row holds more than was there; split evenly, or by scales that sum to 1, at most cells minus buckets is lost |
| `Planes.PixelatedExactly` | pkg/keyvisual/matrix/plane.go:74-82 | the rows are the sums, between the cuts, of what each axis puts into empty cells |
| `Planes.PixelRows` | pkg/keyvisual/matrix/plane.go:66-69 | panics exactly for target 1 or negative below the cell count; at most target rows plus one per change of class |
| `Planes.PixelCutsExactly` | pkg/keyvisual/matrix/plane.go:66-69 | rows are exactly those that dividing without merging leaves |
| `Matrices.Range` | pkg/keyvisual/matrix/matrix.go:38-51 | exactly the rows that meet the window, of every column; panics exactly when none does or the window is empty |
| `Matrices.RowsMeet` | pkg/keyvisual/matrix/matrix.go:39-42 | if the buckets of an axis meet a window, so does a row of any matrix made of a union with that axis |
| `Matrices.PixelCanBeCut` | pkg/keyvisual/matrix/matrix.go:39-42 | a matrix pixelated from axes that were cut to a window can be cut to it: the panic is indeed unreachable |
| `RowLabels.GenRowLabel` | pkg/apiserver/diagnose/compare.go:740-749 | the join values separated by commas; none exactly where the row is too short, as the original then panics |
| `RowLabels.LabelHolds` | pkg/apiserver/diagnose/compare.go:740-749 | each join value stands in the label behind those of the columns before it and a comma |
| `RowLabels.LabelsCollide` | pkg/apiserver/diagnose/compare.go:740-749 | two rows with different join values and one label |
| `RowLabels.LabelCommas` | pkg/apiserver/diagnose/compare.go:740-749 | a label has one comma between any two join values, and no more exactly when no join value holds one |
| `RowLabels.CommaCollides` | pkg/apiserver/diagnose/compare.go:740-749 | with several distinct join columns, a row whose join values hold a comma shares its label with another row |
| `RowLabels.LabelsTellApart` | pkg/apiserver/diagnose/compare.go:740-749 | a row's label tells it from every row with other join values if and only if there is one join column or no join value of that row holds a comma |
| `Join.PlainTablesAgree` | pkg/apiserver/diagnose/compare.go:310-337 | it is enough that one of the two tables has no comma in its join values: rows are then paired only with equal join values |
| `Join.FirstTableAgrees` | pkg/apiserver/diagnose/compare.go:310-337 | whatever it is joined with, the rows of a first table are paired only with rows of equal join values if and only if it has one join column or none of its join values holds a comma |
| `Join.SecondTableAgrees` | pkg/apiserver/diagnose/compare.go:310-337 | the same for a second table |
| `Join.GetLabelsMap` | pkg/apiserver/diagnose/compare.go:419-429 | an error exactly without join columns, a panic exactly when a row is too short for one; otherwise each label's rows in order |
| `Join.PositionsAre` | pkg/apiserver/diagnose/compare.go:419-429 | those are all the rows with the label, each once |
| `Join.PartnerExactly` | pkg/apiserver/diagnose/compare.go:311-331 | a row's partner is the row with its label that has as many rows of that label before it |
| `Join.UnmatchedExactly` | pkg/apiserver/diagnose/compare.go:311-368 | a row is unmatched exactly if no fewer rows of its label come before it than the first table has |
| `Join.TakeOne` | pkg/apiserver/diagnose/compare.go:311-331 | a row takes the next row with its label, which is its partner, or none |
| `Join.JoinFirst` | pkg/apiserver/diagnose/compare.go:310-337 | each row of the first table joined with its partner; afterwards the first map is empty and the second holds the unmatched rows |
| `Join.JoinRest` | pkg/apiserver/diagnose/compare.go:338-368 | emptying the map in any order ends, with every unmatched row joined once and in order within its label |
| `Join.CompareTableWithNonUniqueKey` | pkg/apiserver/diagnose/compare.go:293-368 | the rows of the join; an error exactly when a table lacks join columns or a needed row join fails, a panic exactly when a row is too short |
| `Join.PartnersDiffer` | pkg/apiserver/diagnose/compare.go:311-331 | no row of the second table is used for two rows of the first |
| `Join.EveryRowOnce` | pkg/apiserver/diagnose/compare.go:310-368 | a row of the second table is somebody's partner if and only if it is not unmatched |
| `Join.RestIsUnmatched` | pkg/apiserver/diagnose/compare.go:338-368 | the rows left over are exactly the unmatched |
| `Join.RestHasNoRepeats` | pkg/apiserver/diagnose/compare.go:338-368 | none of them is emitted twice, and rows of a label keep their order |
| `Join.RowsPerLabel` | pkg/apiserver/diagnose/compare.go:310-368 | of the rows emitted, as many have a label as the table with more of it has |

## Left out

- HTTP handlers, clients, etcd, authentication, dependency wiring, SQL generation and the user interface.
- Goroutines, locks and channels: one locked operation at a time; the columns that the original computes concurrently
  are computed one after the other.
- Rounding of floating-point numbers in the scales, and the overflow of a converted one.
- Gob encoding, SQLite and failing writes: the table is a set of rows that is always written. An append that is cut
  short by a crash is not covered; the original is not atomic there.
- Layer numbers are unbounded, not `uint8`; with more than 255 layers the original's would wrap around.
- Interned keys: `equal` compares addresses after a length check, here values are compared; `SaveKeys` and
  `rebuildKeyMap` are not part of this model.
- Aliasing of slices: decoded bytes that share the reused buffer, sub-slices that `Axis.Range` takes without copying,
  and capacities that only avoid reallocation.
- Stats.LayerStat.Append: requires that a layer with a next one passes on at most as many entries as it holds; with a
  greater ratio the original panics when the layer is first full, on the emptied slots that it then reads again.
- Storage.Stat.Append: the regions' axis arrives built, or not at all when there are no regions; `CreateStorageAxis` is
  covered by `Region.Wash` and `Region.IntoStorageAxis`.
- Storage.Stat.RangeRoot: cutting each axis to a key range is `Axes.Range`, choosing its base column
  `Region.IntoResponseAxis`; the plane made of them is `Planes.Plane`.
- Matrices.Range: the matrix is a value; the labels of the keys, which the original cuts as well, are left out.
- Feeding.StoringKeepsTraffic: one labeler serves all appends. For a fold in which a distance is cut off no bound on
  what it loses is given: its scales sum to less than 1.
- Planes.Plane.Pixel: rows are listed by column number; the map from display tags and the labels of the keys are left
  out.
- Join.CompareTableWithNonUniqueKey: the final sort of the rows, the column titles and comments, and the record of the
  greatest differences are left out; joining two rows is a parameter. `ShortRow` stands for the panic on a row too short
  for a join column, which the original's nested deferred recovery does not stop.
- The second phase of the join looks for rows of the first table under the same label; none is ever left
  (`Join.JoinFirst`), so that branch is not modelled.
- `compareTable` for unique keys, `joinRow`, parsing of numbers and the heap of the greatest differences.
- The display labels of the TiDB labeler, configuration checks and proxies.

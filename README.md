# Verified model of the image pipeline's grid logic

`process_image` in `uploads/app.py` turns an uploaded photo into a labelled
tree map. After a colour stretch and a vegetation-index threshold (both
floating-point work, not modelled), it does four things on integer grids and
strings, and this project models them:

- **Gated kernel pass** (`convolver.dfy`, module `GatedConvolver`): a fixed
  7x7 0/1 kernel with 25 ones slides over the greyscale mask `dt`, an
  `array2<Byte>` updated in place. For every top-left position that
  `range(0, h - 7)` x `range(0, w - 7)` visits, in row-major order, the centre of the window receives the window's weighted sum divided
  by 49, truncated, when that mean lies in [30, 50], and 0 otherwise. Later
  windows read centres already rewritten. The pass is proved equal to a
  row-major fold of single-centre updates (`Convolved`), and properties of
  that fold are proved as lemmas: which cells change, which values they can
  hold, and that a small grid is left alone.
- **Block aggregation** (`aggregator.dfy`, module `GridAggregator`, with the
  shared block geometry in `blocks.dfy`, module `Blocks`): the mask is resized
  (resampled) to `Truncate(h)` x `Truncate(w)` pixels, whole 50x50 blocks, and
  scanned row by row. Each block becomes a record
  `[i, i+50, j, j+50, c]`, where `c` counts pixels >= 40. The records are
  then split into a tree list (`c >= 50`) and a non-tree list.
- **Block annotation** (`annotator.dfy`, module `RegionAnnotator`): the mask
  is scanned in whole 50x50 blocks again. Each block yields one drawing
  record: rectangle, anchor point, label text and colours, chosen by whether
  the block's raw pixel sum exceeds 10.
- **Artifact paths** (`paths.dfy`, module `ArtifactPaths`): the derived file
  names are built with Python's `str.replace(".jpeg", ...)`. That call
  replaces every non-overlapping occurrence, scanning left to right.

`raster.dfy` (module `Raster`) holds the pixel type `Byte` (0..255), the
grid-shape predicate and `Snapshot`, the contents of a 2-D array as a
sequence of rows.

The loops are methods proved against specification functions. Each nested
loop is split the same way: a method for one row of the outer loop
(`KernelRow`, `AggregateRow`, `AnnotateRow`) and a method for the whole scan
that calls it. The kernel's inner sum over `k` and `m` is split likewise
(`KernelRowSumAt`, `WindowSumAt`). The float test `30 <= s / 49 <= 50` and
the truncating store are modelled with exact reals and `Floor`. Since `s` is
a whole number of at most 6375, float rounding cannot change either outcome.
`Gate` proves that this test is the integer test `1470 <= s <= 2450`.

Every 7x7 window that fits has its top-left row in 0..h-7, so a pass over all
of them would rewrite the centres 3..h-4. The code's `range(0, h - 7)` rewrites
only 3..h-5 (and likewise for columns). The model follows the code; see Findings.

## Model

| member | source | states |
|---|---|---|
| GatedConvolver.KernelShape | uploads/app.py:33-41 | the kernel is 7 rows of 7 weights, each 0 or 1 |
| GatedConvolver.RowWeights | uploads/app.py:33-41 | each kernel row holds three ones, except the middle row, which holds seven |
| GatedConvolver.KernelWeightIs25 | uploads/app.py:33-41 | exactly 25 of the 49 kernel weights are 1 |
| GatedConvolver.KernelRowSum | uploads/app.py:45 | the weighted sum of window row i+k over kernel row k's first n columns (pixel times kernel weight) is never negative |
| GatedConvolver.WindowPartial | uploads/app.py:45 | the weighted sum of the window's first n rows, row by row, is never negative |
| GatedConvolver.KernelRowSumBound | uploads/app.py:45 | one kernel row contributes at most 255 per unit of weight to a window's sum |
| GatedConvolver.WindowPartialBound | uploads/app.py:45 | the first n kernel rows contribute at most 255 per unit of their weight |
| GatedConvolver.WindowSum | uploads/app.py:45 | the weighted sum of any byte window lies in [0, 25 * 255] |
| GatedConvolver.Gate | uploads/app.py:45-46 | the stored value is s / 49 (truncated) when 1470 <= s <= 2450, else 0; it is non-zero exactly in that range, so always 0 or in [30, 50] |
| GatedConvolver.Step | uploads/app.py:44-46 | one update keeps the grid's shape |
| GatedConvolver.StepCell | uploads/app.py:46 | one update rewrites the centre of its window with the gated mean and leaves every other cell alone |
| GatedConvolver.PassRow | uploads/app.py:43-46 | a row of updates, each reading the grid the previous one left, keeps the grid's shape |
| GatedConvolver.PassRows | uploads/app.py:42-46 | rows of updates in row-major order keep the grid's shape |
| GatedConvolver.Before | uploads/app.py:42-46 | the grid as it stands just before the update at (i, j), after every earlier update in row-major order, has the original shape |
| GatedConvolver.Convolved | uploads/app.py:42-46 | the pass as written keeps the grid's shape |
| GatedConvolver.ConvolvedIntended | uploads/app.py:42-46 | the pass over every fitting window keeps the grid's shape |
| GatedConvolver.PassRowCell | uploads/app.py:43-46 | after n updates of row i, centre (i+3, c) for 3 <= c < n+3 holds the gated mean of its window as it stood at its turn; every other cell is unchanged |
| GatedConvolver.PassRowsCell | uploads/app.py:42-46 | after n rows of updates, each rewritten centre holds the gated mean of its window over the grid all earlier updates left; every other cell is unchanged |
| GatedConvolver.ConvolvedCells | uploads/app.py:42-46 | the pass changes only cells with 3 <= r <= h-5 and 3 <= c <= w-5, each to 0 or a value in [30, 50] computed from the grid as earlier updates left it |
| GatedConvolver.ConvolvedSmallGrid | uploads/app.py:42-43 | a grid with at most 7 rows or at most 7 columns comes out unchanged |
| GatedConvolver.ConvolvedIntendedCells | uploads/app.py:42-46 | with every fitting window visited, exactly the cells at least 3 from every edge (3..h-4, 3..w-4) are rewritten |
| GatedConvolver.SkippedWindow | uploads/app.py:42-43 | the window at top-left (h-7, 0) fits, yet the pass as written leaves its centre at 255, a value no update can write; the intended pass gates it |
| GatedConvolver.WriteIsStep | uploads/app.py:46 | overwriting exactly the centre of window (i, j) with its gated mean is one update |
| GatedConvolver.KernelRowSumAt | uploads/app.py:45 | the loop over m returns the weighted sum of kernel row k of the window, within 255 per unit of weight |
| GatedConvolver.WindowSumAt | uploads/app.py:44-45 | the loops over k and m return the window's weighted sum as `WindowSum` defines it, in [0, 25 * 255] |
| GatedConvolver.KernelStep | uploads/app.py:44-46 | the in-place update at (i, j) leaves the array holding exactly one `Step` of its old contents |
| GatedConvolver.KernelRow | uploads/app.py:43-46 | the inner loop over j leaves the array holding the row of updates of its old contents, `PassRow` |
| GatedConvolver.KernelPass | uploads/app.py:42-46 | the whole nested loop, as written, leaves the array holding `Convolved` of its old contents |
| GatedConvolver.KernelPassIntended | uploads/app.py:42-46 | the corrected loop, over every fitting window, leaves the array holding `ConvolvedIntended` of its old contents |
| Blocks.Truncate | uploads/app.py:51-52 | the truncated dimension is a multiple of 50, at most n, and greater than n - 50 |
| Blocks.ScanEnd | uploads/app.py:77-78 | a scan stepping 50 that stops once a block no longer fits ends exactly at `Truncate(n)` |
| Blocks.GridBlockFits | uploads/app.py:61 | in an h x w grid, a 50x50 block fits wherever its far edges stay within h and w |
| Blocks.OriginOfIndex | uploads/app.py:59-60 | block number q * cols + r in row-major order has its top-left pixel at (50q, 50r) |
| GridAggregator.RowActive | uploads/app.py:62 | a row segment of n pixels has at most n active pixels |
| GridAggregator.BlockActive | uploads/app.py:62 | n rows of a block hold at most 50n active pixels |
| GridAggregator.ActiveCount | uploads/app.py:62 | a block's count of pixels >= 40 is at most 2500 |
| GridAggregator.RowActiveNone | uploads/app.py:62 | a row segment with no pixel >= 40 counts 0 |
| GridAggregator.BlockActiveNone | uploads/app.py:62 | a block with no pixel >= 40 counts 0 |
| GridAggregator.RecordAt | uploads/app.py:61-63 | the record appended for the block at (i, j) is `[i, i+50, j, j+50, c]`, spanning exactly that block, with c at most its 2500 pixels |
| GridAggregator.RowRecords | uploads/app.py:60-63 | one block row yields one record per block |
| GridAggregator.GridRecords | uploads/app.py:59-63 | rows x cols blocks yield rows * cols records |
| GridAggregator.RowRecordsAt | uploads/app.py:60-63 | the r-th record of a block row is that of the block 50r pixels from the left edge |
| GridAggregator.GridRecordsAt | uploads/app.py:59-63 | the k-th record is that of the k-th block in row-major order, which lies inside the grid |
| GridAggregator.GridRecordsCover | uploads/app.py:58-63 | every record of the scan is `[i, i+50, j, j+50, c]` for the block at its row-major position, inside the truncated grid, with c its count of pixels >= 40 |
| GridAggregator.AggregateRow | uploads/app.py:60-63 | the inner loop appends the records of one block row, left to right |
| GridAggregator.Aggregate | uploads/app.py:51-63 | the nested loop returns (h/50) * (w/50) records, exactly the row-major scan `GridRecords` |
| GridAggregator.Select | uploads/app.py:65-66 | a filtered list is no longer than `b1`, and each of its records is in `b1` and of the class asked for |
| GridAggregator.Trees | uploads/app.py:65 | `tree` is no longer than `b1` and holds only records of `b1` with count >= 50 |
| GridAggregator.NonTrees | uploads/app.py:66 | `nontree` is no longer than `b1` and holds only records of `b1` with count < 50 |
| GridAggregator.SelectKeepsClass | uploads/app.py:65-66 | a filtered list holds exactly the records of its class and keeps the input's order |
| GridAggregator.SelectMultiset | uploads/app.py:65-66 | the two filtered lists together are a permutation of the input |
| GridAggregator.Partition | uploads/app.py:65-66 | `tree` and `nontree` partition `b1`: together a permutation, lengths adding up, membership by count >= 50 or < 50, each in `b1`'s order |
| GridAggregator.ListsCoverGrid | uploads/app.py:51-66 | for the records the scan produces, the two lists together hold (h/50) * (w/50) records and are a permutation of the scan's output: one record per block, each in exactly one list |
| RegionAnnotator.RowSum | uploads/app.py:80 | a row segment of n pixels sums to at most 255n |
| RegionAnnotator.BlockSumRows | uploads/app.py:80 | n rows of a block sum to at most 255 * 50n |
| RegionAnnotator.BlockSum | uploads/app.py:80 | a block's pixel sum is at most 2500 * 255 |
| RegionAnnotator.LabelText | uploads/app.py:83-85 | the label text is `tree` exactly for `Tree` and `NT` exactly for `NonTree` |
| RegionAnnotator.ColourName | uploads/app.py:83-86 | the colour names `green`, `white`, `black` and `red` each belong to exactly one colour |
| RegionAnnotator.MarkAt | uploads/app.py:80-88 | the drawing for the block at (i, j) has rectangle [j, i, j+50, i+50] and anchor (j+25, i+25); it is labelled `tree` (green, white) exactly when the block's sum exceeds 10, else `NT` (black, red) |
| RegionAnnotator.RowMarks | uploads/app.py:78-88 | one block row yields one drawing per block |
| RegionAnnotator.GridMarks | uploads/app.py:77-88 | rows x cols blocks yield rows * cols drawings |
| RegionAnnotator.RowMarksAt | uploads/app.py:78-88 | the r-th drawing of a block row is that of the block 50r pixels from the left edge |
| RegionAnnotator.GridMarksAt | uploads/app.py:77-88 | the k-th drawing is that of the k-th block in row-major order, which lies inside the image |
| RegionAnnotator.GridMarksDraw | uploads/app.py:77-88 | each drawing has rectangle [j, i, j+50, i+50] inside the image and anchor (j+25, i+25); its label is `tree` (green, white) exactly when the block's sum exceeds 10, else `NT` (black, red) |
| RegionAnnotator.AnnotateRow | uploads/app.py:78-88 | the inner loop appends the drawings of one block row, left to right, skipping a partial block at the right edge |
| RegionAnnotator.Annotate | uploads/app.py:76-88 | the nested loop returns (h/50) * (w/50) drawings, exactly the row-major scan `GridMarks` |
| RegionAnnotator.RowSumCovers | uploads/app.py:80 | a row's sum is at least 40 per pixel >= 40 and at least each of its pixels |
| RegionAnnotator.BlockSumCovers | uploads/app.py:80 | a block's sum is at least 40 per pixel >= 40 and at least each of its pixels |
| RegionAnnotator.BrightPixelMeansTree | uploads/app.py:80-85 | a block holding any pixel above 10 is labelled `tree` |
| RegionAnnotator.AggregatedTreeIsAnnotatedTree | uploads/app.py:62-82 | on the same grid, a block the aggregation counts as tree has sum >= 2000 and is labelled `tree` |
| RegionAnnotator.PassesDisagree | uploads/app.py:62-82 | a block whose pixels are all below 40 but one above 10 counts as non-tree in aggregation yet is labelled `tree` |
| ArtifactPaths.Replace | uploads/app.py:30 | `str.replace` leaves the string unchanged when the scan finds no occurrence, and when the pattern is replaced by itself |
| ArtifactPaths.ReplaceLength | uploads/app.py:30 | each replacement changes the length by \|new\| - \|old\|, and nothing else changes it |
| ArtifactPaths.MatchesIffOccurs | uploads/app.py:30 | the left-to-right scan replaces something exactly when the pattern occurs |
| ArtifactPaths.ReplaceUnchangedIff | uploads/app.py:30 | a replacement of a different length leaves the string unchanged exactly when the pattern does not occur |
| ArtifactPaths.ReplaceExtension | uploads/app.py:30 | a path that ends in ".jpeg" with no other ".jpeg" in it gets the new ending in place of the extension |
| ArtifactPaths.NdviPath | uploads/app.py:30 | the NDVI path is 5 characters longer per ".jpeg" in the output path, and is the output path itself exactly when ".jpeg" does not occur (the save then overwrites the enhanced image) |
| ArtifactPaths.ContentPath | uploads/app.py:48 | the filtered-mask path, saved at line 48 and read back at line 72, is 9 characters longer per ".jpeg", and is the output path itself exactly when ".jpeg" does not occur |
| ArtifactPaths.LabeledPath | uploads/app.py:90 | the labelled-image path, returned to the caller, is 8 characters longer per ".jpeg", and is the output path itself exactly when ".jpeg" does not occur |
| ArtifactPaths.DerivedPathsDistinct | uploads/app.py:20-90 | when ".jpeg" occurs in the output path, the enhanced, NDVI, content and labelled images get four different paths |

## Left out

- Flask routing, the upload and `send_file` (uploads/app.py:94-114), and the directory creation (uploads/app.py:8-11): web and file-system glue.
- All image file I/O (`Image.open`, `save`, `fromarray`, `getdata`): the grids are parameters. Step 5 re-reads the kernel-pass output from a lossy JPEG (uploads/app.py:47-48, 72-73), so `Annotate` takes an arbitrary byte grid, not the output of `KernelPass`. When h < 50 or w < 50 the program never reaches step 5 (see the next line); `Annotate` then returns no drawings, which is the no-blocks behaviour of the loops and not the program's.
- The channel stretch (uploads/app.py:17-18): float division with truncation, and a division by zero when a channel's minimum equals its maximum.
- The vegetation index and mask (uploads/app.py:24-28): float32 arithmetic and float thresholds. The mask is an input grid of arbitrary bytes, not only 0 and 255. `ndvi_normalized` (uploads/app.py:27) is never used.
- GridAggregator.Aggregate: the PIL `resize` (uploads/app.py:54) is a foreign resampling call that resamples the whole h x w mask, so the method takes the grid it produced, already `Truncate(h)` x `Truncate(w)`, and says nothing about how its pixels relate to the mask's. When h < 50 or w < 50 the requested size has a zero side and the resize raises an error, so `process_image` stops at line 54 and neither the aggregation (uploads/app.py:58-66) nor the annotation (uploads/app.py:71-91) runs; `Aggregate` and `Annotate` then return empty lists, which is the no-blocks behaviour of the loops and not the program's.
- The `print` calls (uploads/app.py:68-69): the lists they show are `Trees` and `NonTrees`.
- Rasterising `draw.rectangle` and `draw.text` (uploads/app.py:86, 88), including the outline width of 2: the model stops at the drawing records. `LabelText` and `ColourName` give the strings PIL would receive.
- Float rounding: the mean `s / 49` is an exact real in the model. For whole numbers s <= 6375 the float comparison and truncation give the same results.

## Findings

| source | as written | input that shows it | evidently intended | confidence | as-written member | corrected member |
|---|---|---|---|---|---|---|
| uploads/app.py:42-43 | `range(0, h - 7)` and `range(0, w - 7)` stop one short: the last top-left row h-7 and column w-7, whose 7x7 windows still fit, are never visited, so the centres in row h-4 and column w-4 are never gated | any mask of at least 7x7 whose cell (h-4, 3) is 255, e.g. an 8x8 mask of all 255: that cell keeps 255, a value the gate cannot produce | `range(0, h - 6)` and `range(0, w - 6)`, visiting every fitting window, as the block scan at uploads/app.py:77-78 does with its `+ 1`; modelled by `KernelPassIntended` | not executed | GatedConvolver.SkippedWindow | GatedConvolver.ConvolvedIntendedCells |

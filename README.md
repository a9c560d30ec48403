# CriteriaVisualizer data pipeline, in Dafny

CriteriaVisualizer shows clinical-trial criteria as a 2-D scatter plot. Each
loaded record is `(YEAR, CLUSTER, X, Y)`. The client narrows the records to a
year range picked on a histogram slider. It groups them into coloured scatter
plots, either one per cluster or one per five-year band. It lists the
clusters' labels in a side box, sorted by how many points each cluster has in
range. Hovering a row or an on-canvas label highlights that cluster: its row
is emphasised, its label is drawn on top and its points pulse.

This project models that pipeline and proves what it promises.

- `Seqs`: order-preserving filter, count and find, with their algebra.
- `Numbers`: `String(int)`, `Math.round`, `Math.floor` and `Math.ceil`.
- `Records`: the record types.
- `DataUtils`: `getMinVal` and `getMaxVal` of `client/src/utils/data.ts`.
- `Histograms`: the one-unit slider bins, shared by both app variants.
- `ClientApp`: `client/src/App.tsx`. It covers the range filter, the
  cluster counter (a loop filling a dictionary), both groupings, the
  histogram, and the view state whose hover is cleared when the plot or the
  colour mode changes.
- `InfoBox`: the stable sort by descending count, and the row numbering and
  emphasis.
- `Labels`: the split into non-hovered labels and the first hovered label,
  and their render order.
- `ScatterPlot`: the padded bounds, and the position and size buffers
  (arrays filled in loops). It also covers the one-shot camera fit (a class
  holding the `needsInitialFit` latch) and the per-frame loop that rewrites
  the size buffer in place.
- `SrcApp`: the older `src/App.tsx`, which works on real-valued `filterVal`s.
  It covers the filter, the histogram, the initial range and the decade
  groups with their captions.
- `Pipeline`: proves that hovering a cluster makes exactly its own
  cluster-mode plot pulse.

Numbers are Dafny's exact `int` and `real`. A JavaScript value that may be
`undefined`, `null` or non-finite becomes an `Option`, or, for the camera
zoom, a `Zoom` with an `Infinite` case.

## Model

| member | source | states |
|---|---|---|
| `Seqs.FilterSelects` | client/src/App.tsx:149-150 | `Array.prototype.filter` keeps the elements that pass, in order, each as often as in the input, and no others |
| `Seqs.SelectsIsFilter` | client/src/App.tsx:149-150 | any subsequence with those multiplicities is the filter's result, so the filter's output is fixed down to order and repeats |
| `Numbers.Round` | client/src/utils/data.ts:27 | `Math.round`: the result is within half a unit of the input, halves rounding up |
| `Numbers.Floor` | client/src/App.tsx:180 | `Math.floor`: the greatest integer not above the input |
| `Numbers.Ceil` | client/src/App.tsx:178 | `Math.ceil`: the least integer not below the input |
| `Numbers.IntToString` | client/src/App.tsx:154 | `String(CLUSTER)` is never empty and starts with `-` exactly for a negative id; that it is injective is `IntToStringInjective` |
| `Numbers.IntToStringEndsInDigit` | src/App.tsx:61 | a printed integer ends in a digit, negative or not |
| `Numbers.IntToStringInjective` | client/src/components/InfoBox.tsx:43 | `String(a) === String(b)` exactly when `a == b`, so comparing a stored cluster string with `String(CLUSTER)` compares cluster ids |
| `Numbers.PrefixedIntInjective` | client/src/App.tsx:157 | two captions `prefix + String(n)` are equal exactly when the numbers are |
| `DataUtils.RoundedMin` | client/src/utils/data.ts:27 | `Math.round(Math.min(...))`: `None` exactly for no values; otherwise at most every value's rounding and equal to one of them |
| `DataUtils.RoundedMax` | client/src/utils/data.ts:31 | `Math.round(Math.max(...))`: `None` exactly for no values; otherwise at least every value's rounding and equal to one of them |
| `DataUtils.GetMinVal` | client/src/utils/data.ts:26-28 | `getMinVal`: `None` exactly for empty data; for integer years, the smallest year |
| `DataUtils.GetMaxVal` | client/src/utils/data.ts:30-32 | `getMaxVal`: `None` exactly for empty data; for integer years, the largest year |
| `DataUtils.MinAtMostMax` | client/src/utils/data.ts:26-32 | for non-empty data, `getMinVal <= getMaxVal` |
| `Histograms.BinCount` | client/src/App.tsx:178-179 | `Array.from({length: Math.ceil(max - min)})`: enough bins to span `max - min`, never a bin too many, and none at all when `max - min` is zero or negative |
| `Histograms.Bins` | client/src/App.tsx:179-187 | one bin per index; what each bin holds is `BinsAt`, what they hold together is `BinsTotal` |
| `Histograms.HistogramOf` | client/src/App.tsx:175-188 | the histogram has `ceil(max - min)` bins, `BinCount` of the span; their contents are `BinsAt` and `BinsTotal` |
| `Histograms.BinsAt` | client/src/App.tsx:179-187 | bin `i` has `arg = start + i` and counts the keys in `[arg, arg + 1)` |
| `Histograms.BinsTotal` | client/src/App.tsx:179-187 | the bins together count exactly the keys in `[start, start + n)`: none twice, none in between lost |
| `ClientApp.FilteredPoints` | client/src/App.tsx:87-90 | `filteredPoints` holds exactly the points with `range[0] <= YEAR <= range[1]`, as a subsequence of `data` in the original order, each with its original multiplicity |
| `ClientApp.FullRangeKeepsAll` | client/src/App.tsx:51-55 | after a load sets the range to `[getMinVal, getMaxVal]`, the filter keeps every point, in order |
| `ClientApp.Tally` | client/src/App.tsx:137 | the point's cluster maps to its previous count, or 0 when absent, plus one; every other key and value is unchanged |
| `ClientApp.TalliesStep` | client/src/App.tsx:136-138 | counting point `i` turns exact counts of the first `i` points into exact counts of the first `i + 1` |
| `ClientApp.CountClusters` | client/src/App.tsx:134-140 | the loop's dictionary has a key exactly for each cluster that occurs, and its value is the number of points of that cluster |
| `ClientApp.InsertSorted` | client/src/App.tsx:146 | inserting into a strictly ascending id list keeps it strictly ascending and adds exactly the new id |
| `ClientApp.DistinctClusters` | client/src/App.tsx:146 | `[...new Set(...)].sort((a, b) => a - b)`: strictly ascending (no duplicates), and holding exactly the clusters that occur |
| `ClientApp.AscendingUnique` | client/src/App.tsx:146 | two strictly ascending lists with the same members are equal, so the set-then-sort result is determined by the members |
| `ClientApp.ClusterGroup` | client/src/App.tsx:148-157 | a cluster's group is as large as the cluster's count in the filtered points, and every point in it carries `String(cluster)` |
| `ClientApp.ClusterGroups` | client/src/App.tsx:143-158 | one group per distinct cluster; the contents of each are `ClusterGroupAt` |
| `ClientApp.ClusterGroupAt` | client/src/App.tsx:148-157 | cluster-mode group `i` has colour `clusterColors[i % 20]` and caption `Cluster N`; its size is the cluster's count and never 0; its points carry the cluster, stringified, and are the points of the records that `Selects` for the cluster, which is the filter: the cluster's records in order, with their repeats |
| `ClientApp.ClusterGroupsShape` | client/src/App.tsx:143-158 | cluster mode: one group per distinct cluster in ascending order, colour `clusterColors[i % 20]`, caption `Cluster N`, size the cluster's count (never 0), the points of exactly the cluster's records in order with their repeats, and no two captions alike |
| `ClientApp.ClusterGroupsPartition` | client/src/App.tsx:134-158 | the counts summed over the clusters present equal `filteredPoints.length`, and so do the group sizes: no point is lost or duplicated |
| `ClientApp.ClusterGroupsMembership` | client/src/App.tsx:148-155 | a filtered point is in group `i` exactly when its cluster is the group's cluster |
| `ClientApp.YearGroups` | client/src/App.tsx:159-171 | year mode always gives seven groups, empty ones included |
| `ClientApp.BandGroup` | client/src/App.tsx:161-170 | a band's group is as large as the number of filtered points with `start <= YEAR < end` |
| `ClientApp.BandGroups` | client/src/App.tsx:161-171 | one group per band, in band order, empty ones kept; the contents of each are `YearGroupAt` |
| `ClientApp.YearGroupAt` | client/src/App.tsx:120-171 | year group `i` has band `i`'s colour and caption `start-(end-1)`; its size is the count of filtered points with `start <= YEAR < end`; it holds the points of exactly those records, in their order and with their repeats |
| `ClientApp.TotalOverBands` | client/src/App.tsx:161-163 | any groups as large as the filtered counts of contiguous bands hold, together, the points from the first start to the last end |
| `ClientApp.BandGroupsTotal` | client/src/App.tsx:161-163 | over bands that end where the next starts, the groups together hold exactly the points between the first start and the last end |
| `ClientApp.YearGroupsTotal` | client/src/App.tsx:120-131 | the seven groups together hold exactly the filtered points with `1990 <= YEAR < 2025`; a point outside is in none |
| `ClientApp.Histogram` | client/src/App.tsx:175-188 | `histogramData` is empty for empty data and otherwise has `ceil(max - min)` bins |
| `ClientApp.HistogramBins` | client/src/App.tsx:179-187 | bin `i` is the year `floor(min) + i` and counts the points of that year |
| `ClientApp.HistogramBelow` | client/src/App.tsx:178-186 | with every year in `[lo, hi]`, the bins plus the points of year `hi` make up all points |
| `ClientApp.HistogramMissesMaxYear` | client/src/App.tsx:178 | over the loaded range, the points of the largest year (at least one) are in no bin, so the bins never add up to the data |
| `ClientApp.SinglePointHistogramIsEmpty` | client/src/App.tsx:176-179 | one point of year 2000 gives a histogram with no bins at all |
| `ClientApp.HistogramAllYears` | client/src/App.tsx:178-187 | the corrected histogram: empty for empty data, otherwise one bin per year from `floor(min)` to `floor(max)` inclusive |
| `ClientApp.HistogramAllYearsCovers` | client/src/App.tsx:178-187 | with every year in `[lo, hi]`, the corrected bins count every point |
| `ClientApp.HistogramAllYearsTotal` | client/src/App.tsx:178-187 | over the loaded range, the corrected bins add up to the number of points |
| `ClientApp.ViewState.constructor` | client/src/App.tsx:32-36 | initial state: plot "Breast Cancer", cluster mode, nothing hovered |
| `ClientApp.ViewState.SetActivePlot` | client/src/App.tsx:38-40 | switching to another plot clears the hover; re-selecting the same plot keeps it; the mode is untouched |
| `ClientApp.ViewState.SetColorMode` | client/src/App.tsx:42-44 | switching the colour mode clears the hover; re-selecting the same mode keeps it; the plot is untouched |
| `ClientApp.ViewState.HoverEnter` | client/src/components/InfoBox.tsx:47 | entering a row (or a label, client/src/components/Labels.tsx:25) stores `String(CLUSTER)` |
| `ClientApp.ViewState.HoverLeave` | client/src/components/InfoBox.tsx:48 | leaving a row (or a label, client/src/components/Labels.tsx:26) stores `undefined` |
| `InfoBox.RankKeyCountsPoints` | client/src/components/InfoBox.tsx:22-23 | read with that default, the counter's dictionary gives every row the number of filtered points of its cluster |
| `InfoBox.Insert` | client/src/components/InfoBox.tsx:21-25 | inserting into a list sorted by descending count keeps it sorted and adds one row |
| `InfoBox.SortByCount` | client/src/components/InfoBox.tsx:21-25 | `sortedRanks` is in non-increasing order of count and as long as `rankData` |
| `InfoBox.InsertPermutes` | client/src/components/InfoBox.tsx:21 | insertion adds the row and keeps every other row |
| `InfoBox.SortByCountPermutes` | client/src/components/InfoBox.tsx:21 | `sortedRanks` is a permutation of `rankData` (the sort works on a `slice()` copy) |
| `InfoBox.InsertStable` | client/src/components/InfoBox.tsx:21-25 | an inserted row goes in front of the rows it ties with and leaves other counts' rows in place |
| `InfoBox.SortByCountStable` | client/src/components/InfoBox.tsx:21-25 | ties keep their `rankData` order: for each count, the rows with it appear in the same order as in the input (stable `Array.prototype.sort`) |
| `InfoBox.Rows` | client/src/components/InfoBox.tsx:37-51 | one row per sorted rank item; numbering and emphasis are `RowsShape` |
| `InfoBox.RowsShape` | client/src/components/InfoBox.tsx:37-51 | rows are numbered `index + 1` in sorted order; with no hover none is emphasised, and while cluster `c` is hovered a row is emphasised exactly when it is `c`'s |
| `InfoBox.EnterEmphasisesRow` | client/src/components/InfoBox.tsx:42-47 | after entering a row, that row and the other rows of its cluster are emphasised, and no other rows |
| `InfoBox.RankList` | client/src/components/InfoBox.tsx:21-51 | the displayed list has one row per rank item, in non-increasing order of count |
| `Labels.NonHovered` | client/src/components/Labels.tsx:12 | `nonHovered` holds exactly the labels whose `String(CLUSTER)` is not the hovered value, as a subsequence of the labels in their original order, each with its original multiplicity |
| `Labels.HoveredLabel` | client/src/components/Labels.tsx:13 | `hoveredLbl` is absent exactly when no label matches, and otherwise is the first label that matches |
| `Labels.NoHoverDrawsAll` | client/src/components/Labels.tsx:12-13 | with nothing hovered, every label is drawn plainly, in order, and none is on top |
| `Labels.HoverSplitsByCluster` | client/src/components/Labels.tsx:12-13 | while cluster `c` is hovered, a label is drawn plainly exactly when its cluster is not `c`, and the one on top is the first label of `c` |
| `Labels.RenderOrder` | client/src/components/Labels.tsx:47-48 | the fragment never has more elements than there are labels; `RenderOrderLayers` states its contents and `RenderOrderDrawsHoveredOnce` its layering |
| `Labels.RenderOrderLayers` | client/src/components/Labels.tsx:47-48 | every non-hovered label is drawn plainly, all of them in label order, followed by the found hovered label, if any, and by nothing else; an element is marked hovered exactly when it is that last one; a hovered element has z-index and `zIndexRange` 9999 at depth 2, every other one 0 at depth 1 |
| `Labels.RenderOrderDrawsHoveredOnce` | client/src/components/Labels.tsx:47-48 | no plain element shows a label of the hovered cluster, and at most one element of the hovered cluster is drawn |
| `ScatterPlot.Grow` | client/src/components/ScatterPlot.tsx:75-80 | one `reduce` step: the new box holds the point and the old box, and each side is the old side or the point's coordinate |
| `ScatterPlot.Extent` | client/src/components/ScatterPlot.tsx:74-87 | the `reduce` gives a box that holds every point, with each side touched by some point |
| `ScatterPlot.Bounds` | client/src/components/ScatterPlot.tsx:72-96 | `computedBounds` is null exactly for no points; with `padding >= 0` it holds every point; with `padding = 0` it is exactly the extent |
| `ScatterPlot.BoundsSymmetric` | client/src/components/ScatterPlot.tsx:88-94 | padding keeps the centre and scales width and height by `1 + 2 * padding` |
| `ScatterPlot.BoundsNonNegative` | client/src/components/ScatterPlot.tsx:88-95 | for `padding >= -1/2` the padded box has no negative side |
| `ScatterPlot.PadWidens` | client/src/components/ScatterPlot.tsx:88-95 | padding an ordered box by `padding >= 0` only widens it, and padding 0 leaves it as it is |
| `ScatterPlot.PadShape` | client/src/components/ScatterPlot.tsx:88-95 | the padded box keeps the centre and has `1 + 2 * padding` times the width and height |
| `ScatterPlot.Positions` | client/src/components/ScatterPlot.tsx:60-69 | `positions` has length `3n`, with `X`, `Y` and `i * 0.00001` at `3i`, `3i + 1` and `3i + 2` |
| `ScatterPlot.Sizes` | client/src/components/ScatterPlot.tsx:120-126 | `sizes` has length `n`, and every entry is `pointSize` |
| `ScatterPlot.FitZoom` | client/src/components/ScatterPlot.tsx:104-109 | the zoom is `Infinity` exactly when both data extents are zero, and positive otherwise |
| `ScatterPlot.FitZoomFits` | client/src/components/ScatterPlot.tsx:104-109 | for a box that is not a single point (one extent may be zero), the data fills 90% of the view on one axis and at most 90% on the other |
| `ScatterPlot.SinglePointFitIsInfinite` | client/src/components/ScatterPlot.tsx:104-109 | a one-point group has zero extent, and its fit zoom is `Infinity` |
| `ScatterPlot.FitLatch.constructor` | client/src/components/ScatterPlot.tsx:57 | the latch starts set, with no fit done |
| `ScatterPlot.FitLatch.FitEffect` | client/src/components/ScatterPlot.tsx:99-117 | the effect fits only when the latch is set, the bounds exist and the camera is orthographic; a fit sets the zoom, centres the camera on the bounds at depth 100 and clears the latch; otherwise nothing changes |
| `ScatterPlot.FitAtMostOnce` | client/src/components/ScatterPlot.tsx:99-117 | once the fit has happened, running the effect again leaves the camera unchanged |
| `ScatterPlot.TargetSize` | client/src/components/ScatterPlot.tsx:151-156 | a point outside the highlighted cluster, or any point with nothing highlighted, keeps `pointSize`; for a sine in `[-1, 1]` the size stays between 0.75 and 2.25 times `pointSize` |
| `ScatterPlot.TargetSizes` | client/src/components/ScatterPlot.tsx:150-156 | one target size per point |
| `ScatterPlot.TargetSizesShape` | client/src/components/ScatterPlot.tsx:150-156 | a point outside the highlighted cluster, or any point when none is highlighted, gets `pointSize`; a highlighted one stays between 0.75 and 2.25 times it |
| `ScatterPlot.FrameUpdate` | client/src/components/ScatterPlot.tsx:139-163 | the frame loop leaves every entry at its target size in the same buffer, and raises `needsUpdate` exactly when some entry changed |
| `SrcApp.FilterPointsByRange` | src/App.tsx:21-24 | keeps exactly the points with `range[0] <= filterVal <= range[1]`, in their original order, each with its original multiplicity |
| `SrcApp.InitialRange` | src/App.tsx:44-47 | the initial range `[minDataVal, maxDataVal]` exists exactly for non-empty data, is ordered, brackets every value's rounding, and each bound is the rounding of some value |
| `SrcApp.InitialRangeDropsExtremes` | src/utils/data.ts:8-10 | a smallest value of 1970.6 rounds to 1971, and that point lies outside the initial range |
| `SrcApp.CoveringRange` | src/App.tsx:44-47 | the corrected initial range, from the floor of the smallest value to the ceiling of the largest, holds every value |
| `SrcApp.CoveringRangeKeepsAll` | src/App.tsx:44-49 | with the corrected initial range, the filter keeps every point, in order |
| `SrcApp.SrcHistogram` | src/App.tsx:27-41 | `generateHistogramData` has `ceil(max - min)` bins |
| `SrcApp.SrcHistogramBins` | src/App.tsx:31-40 | bin `i` starts at `floor(min) + i` and counts the points with `filterVal` in `[arg, arg + 1)` |
| `SrcApp.SrcHistogramTotal` | src/App.tsx:27-41 | the bins together count the points in `[floor(min), floor(min) + n)`, each once |
| `SrcApp.DecadeGroups` | src/App.tsx:54-64 | one group per decade group, empty ones included |
| `SrcApp.DecadeGroup` | src/App.tsx:56-61 | a decade's group is as large as the number of filtered points with `start <= filterVal < end` |
| `SrcApp.DecadeCaption` | src/App.tsx:61 | the caption has at least two characters and ends in `+` exactly for the open-ended decade group |
| `SrcApp.DecadeGroupAt` | src/App.tsx:56-61 | group `i` has decade `i`'s colour and caption; its size is the count of filtered points with `start <= filterVal < end`; it holds the `{x, y}` of exactly those points, in their order and with their repeats |
| `SrcApp.TotalOverDecades` | src/App.tsx:54-59 | any groups as large as the filtered counts of chained decade groups hold, together, every point from the first start on |
| `SrcApp.DecadeGroupsPartition` | src/App.tsx:54-59 | over decade groups that follow each other, the last one open-ended, the group sizes add up to the filtered points from the first start on |
| `SrcApp.CaptionDiffersFromClient` | src/App.tsx:61 | a bounded decade's caption `start-end` never equals the client's `start-(end-1)` |
| `Pipeline.HoverPulsesOwnGroup` | client/src/App.tsx:211-220 | in cluster mode, while cluster `c` is hovered, every point of `c`'s plot pulses and every other plot keeps the base size |
| `Pipeline.ValidHoverIsTruthy` | client/src/components/ScatterPlot.tsx:152 | a hover stored by the handlers is never `""`, so the frame loop's `highlightedCluster && ...` test is the plain comparison of clusters |

## Left out

- Loading data: `fetchData`, `fetchLabel` and `fetchRank`, the async `load*` effects and the Express server are I/O. Loaded records are inputs here.
- Empty loads: for no records the source's `getMinVal`/`getMaxVal` give `Infinity`/`-Infinity`. Here they give `None`.
- The range slider, the navigation bar and `LabelWithBackground` are not part of this model. They are DevExtreme and three.js markup.
- React scheduling is not modelled. That covers when `useMemo` recomputes and when effects run. Each derived value is a function of its inputs.
- The `src/` data generator uses `Math.random`, so its records are inputs. `getDecadeGroups` and `DECADE_COLORS` are not part of this model: they come from a module that is not available, so the decade list is an input.
- ScatterPlot label meshes, shader patching, `updateProjectionMatrix` and the `stretchX` scale of the point group are not modelled. They are rendering only.
- The pulse is not modelled. `Math.sin(time * 2.5 + phase)` enters the frame loop as a given number per point. The random phase offsets and the clock are not modelled.
- IEEE doubles and `Float32Array` rounding are not modelled. Numbers are exact, so `!==` on stored sizes compares exact values.
- `String(n)` is modelled for integers in plain decimal form only. JavaScript's exponent form for numbers of 10^21 and more is left out.
- The `clusterColor` that `InfoBox` computes is unused by its markup. The `autoFit` prop passed to `ScatterPlot` is ignored by the component. Both are left out.
- `useFrame` returns early when the geometry or its `aSize` attribute is not mounted yet. That case is left out.
- `ScatterPlot.FrameUpdate`: requires the size buffer to be as long as the point list. Both are built from the same `points`, and a write past the end of a `Float32Array` would be a silent no-op.
- `ScatterPlot.FitZoom`: requires a positive view and non-negative data extents. `BoundsNonNegative` gives the latter for every `padding >= -1/2`, including the default 0.1. A negative extent would need JavaScript's signed zeros and negative infinities.
- `ScatterPlot.FitLatch.FitEffect`: has the same requirements as `FitZoom`. The view size (`window.innerWidth`/`innerHeight`) is passed in. The `instanceof OrthographicCamera` test is a boolean input.
- `DataUtils.GetMinVal` and `DataUtils.GetMaxVal`: spreading a very large array into `Math.min`/`Math.max` can throw a `RangeError` in JavaScript. `loadData` (client/src/App.tsx:46-61) then catches it after `setData` has run, leaving the previous range in place. The model returns a value for every length.
- `ClientApp.ViewState.HoverEnter`: models the label and row handlers by the cluster id they stringify. The `onHover`/`setHoveredCluster` callbacks are the same setter.

## Findings

| source | as written | input that shows it | evidently intended | confidence | as-written member | corrected member |
|---|---|---|---|---|---|---|
| client/src/App.tsx:178 | `Math.ceil(maxDataVal - minDataVal)` one-year bins from the smallest year, so the last bin ends at the largest year and the points of that year are counted in no bin | one record with YEAR 2000: minimum and maximum are both 2000, and the histogram has no bins | one bin per year from the smallest to the largest, `max - min + 1` bins, so every point is counted | high, not executed | `ClientApp.HistogramMissesMaxYear` | `ClientApp.HistogramAllYearsTotal` |
| src/utils/data.ts:8-10 | the initial range and the slider's lower bound are `Math.round` of the smallest `filterVal`, which can lie above it | values 1970.6 and 2000.0: the range starts at 1971, and the point at 1970.6 is outside it and outside the slider's reach | a range that holds every point, from the floor of the smallest value to the ceiling of the largest | medium, not executed | `SrcApp.InitialRangeDropsExtremes` | `SrcApp.CoveringRangeKeepsAll` |

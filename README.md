# SLIC-style superpixel clustering, modelled in Dafny

This project models the clustering core of a small Rust library that splits an image into
superpixels. The library works in three stages:

- It seeds `k` centroids on a near-regular grid of cell centres (`Rectangle::sample_positions`).
- It labels every pixel with its nearest centroid under a weighted colour/space distance
  (`PixelCieLab::distance`, `assign_pixels_to_superpixels`).
- It moves each centroid to the mean position of its members (`update_centroids`).
  One `solve_tick` is one assign pass followed by one update.

The model also covers these helpers:

- the integer spacing `calculate_superpixel_size`;
- the flat index `get_index`;
- the clamped point window `Grid::new`;
- the output file name rewrite `clustered_file_path`.

Modules, one per source file, plus `Numeric` for the shared integer square root:

- `Numeric` (numeric.dfy) is the exact integer square root the code relies on.
- `Pixels` (pixel_cie_lab.dfy) holds `PixelCieLab` and its distance, over `real`.
- `Rectangles` (rect.dfy) holds the seed sampler:
  - the specification function `SampledGrid`, given by a `Plan` of the integer quotients the
    code computes;
  - the imperative `SamplePositions`, proved equal to `SampledGrid`.
- `Grids` (grid.dfy) holds the clamped half-open window: `NewGrid` is proved equal to
  `GridPoints`.
- `KMeans` (k_means_solver.dfy) holds the solver.
  - `LabelPixel` is a datatype.
  - The solver is a class with these fields:
    - `flatPixels`, an array of labels that is updated in place;
    - `centroidIndices`, a sequence that is replaced wholesale;
    - the constant parameters.
  - Each pass is proved against specification functions:
    - `AssignLabel` / `AssignAll` give the per-pixel scan and the whole pass.
    - `Members` gives the bucket of one label.
    - `PositionCentroid` gives the floor mean.
    - `NextCentroidIndices` gives the new centroid list.
- `FilePaths` (file_path.dfy) holds `split(".")` and the path rewrite.

The code departs from the usual SLIC design in several ways: there, the first minimum wins,
distances are reset each tick, and a centroid's colour is averaged. The model follows the
code, not that design:

- **Ties.** The scan overwrites the label whenever the held distance is *not strictly
  smaller* than the new one. So among equally near centroids the pixel ends on the
  **highest** index, not the first (`ScanTieHighest`, `AssignLabelNearest`).
- **Stale distances.** Labels are never reset between ticks. A distance kept from an earlier
  tick that is below every current distance blocks reassignment (`ScanBlockedByStale`).
- **Empty clusters.** An empty cluster's centroid is `(0, 0)`. That becomes flat index 0, the
  first pixel, whatever its position.
- **Centroid colour.** The new centroid takes the colour of the pixel at the new flat index.
  It is not an average of the members' colours.
- **Index/position agreement.** Nothing checks that pixel `get_index(x, y)` really sits at
  `(x, y)`, and the model does not assume it. This matters because the two orders differ.
  - The pixel list built in src/lib.rs:22-23 follows `enumerate_pixels`, which is row-major.
  - `get_index` (src/k_means_solver.rs:101-103) is column-major: `height * x + y`.
  - As a result, a seed or updated centroid at `(x, y)` takes the pixel at list index
    `h * x + y`. That pixel sits at `((h * x + y) mod w, (h * x + y) div w)`. Only for a
    square image is that the transposed position `(y, x)`.

Integer arithmetic is modelled exactly where the code truncates:

- The float cell-centre formula `(c as f32 * (i as f32 + 0.5)) as u32` is `c * (2i + 1) / 2`.
- The extra column of a non-"nice" layout sits at `cell_width * x_count`. The `as u32` cast
  binds to `(x_count + 0.5)` before the multiply.
- `as u16` on the spacing keeps the value modulo 2^16.

## Model

| member | source | states |
|---|---|---|
| Numeric.IntSqrt | src/k_means_solver.rs:107 | the integer square root, computed by halving: the root of n is twice the root of n / 4, plus one when that still fits. It models `Roots::sqrt` on `usize` here, and also `(n as f32).sqrt() as u32` at src/pixels/rect.rs:17 |
| Numeric.IntSqrtBracket | src/k_means_solver.rs:107 | the integer square root used for the spacing is the floor root: r*r <= n < (r+1)*(r+1) |
| Numeric.RootUnique | src/k_means_solver.rs:107 | any r with r*r <= n < (r+1)*(r+1) is the computed root, so the floor-root characterisation holds in both directions |
| Pixels.NewPixel | src/pixels/pixel_cie_lab.rs:10-30 | `x()`, `y()`, `color()` and `values()` give back exactly what `new` was given |
| Pixels.Distance | src/pixels/pixel_cie_lab.rs:32-37 | `PixelCieLab::distance` over reals: the squared colour distance plus (m / s) times the squared spatial distance. It requires s != 0; at s = 0 the f32 code gives infinity or NaN |
| Pixels.DistanceToSelfIsZero | src/pixels/pixel_cie_lab.rs:32-37 | the distance from a pixel to itself is 0 for every m and nonzero s, as the unit test expects |
| Pixels.DistanceSymmetric | src/pixels/pixel_cie_lab.rs:33-36 | distance(a, b) == distance(b, a) |
| Pixels.DistanceNonNegative | src/pixels/pixel_cie_lab.rs:36 | with s > 0 the distance is never negative |
| Pixels.DistanceSamePosition | src/pixels/pixel_cie_lab.rs:33-36 | pixels at the same position differ by the squared colour distance alone |
| Pixels.DistanceSameColor | src/pixels/pixel_cie_lab.rs:33-36 | pixels of the same colour differ by (m/s) times the squared spatial distance |
| FilePaths.SplitOnDot | src/lib.rs:56 | `split(".")` yields at least one piece (so the `unwrap` never panics), no piece holds a dot, and the first piece is the prefix of the input up to its first dot |
| FilePaths.JoinSplit | src/lib.rs:56 | the pieces of `split(".")` joined with dots give back the input |
| FilePaths.ClusteredFilePath | src/lib.rs:55-61 | the result is the input's prefix before its first dot (the whole input when it has none) followed by `_clustered.jpg`, and that prefix holds no dot |
| FilePaths.NoDotKeepsPath | src/lib.rs:56-58 | a path without a dot is kept whole, with the suffix appended |
| FilePaths.LeadingDotDropsAll | src/lib.rs:56-60 | `./x.png` becomes `_clustered.jpg`: everything from the first dot on is dropped |
| Grids.Clamp | src/pixels/grid.rs:15-19 | `clamp` returns v when it lies in [lo, hi] and the nearer bound otherwise |
| Grids.WindowOf | src/pixels/grid.rs:15-19 | the window bounds are centre -/+ ring clamped to [0, max], and min <= max <= max_width / max_height |
| Grids.NewGrid | src/pixels/grid.rs:12-34 | `Grid::new` stores, and `points()` returns, the window's points x-major with y inner |
| Grids.Grid.Points | src/pixels/grid.rs:34 | `Grid::points` returns the stored point list unchanged |
| Grids.WindowPointsLength | src/pixels/grid.rs:23-27 | the nested loops push (maxX - minX) * (maxY - minY) points |
| Grids.WindowPointsMembership | src/pixels/grid.rs:23-27 | a point is pushed exactly when it lies in [minX, maxX) x [minY, maxY) |
| Grids.WindowPointsOrdered | src/pixels/grid.rs:23-27 | the points are strictly increasing in x-major order, hence free of duplicates |
| Grids.GridPointsInWindow | src/pixels/grid.rs:15-26 | every grid point lies in [cx - r, cx + r) x [cy - r, cy + r) and below max_width / max_height |
| Grids.GridPointsCount | src/pixels/grid.rs:21-27 | the grid holds (maxX - minX) * (maxY - minY) points, at most (2r)^2 |
| Grids.GridHalfOpen | src/pixels/grid.rs:23-24 | column cx + r never appears; column cx - r does when it is on the image |
| Grids.SimpleGridHasFourPoints | src/pixels/grid.rs:42-47 | centre (0, 0), ring 2, 4 x 4 gives 4 points, as the unit test expects |
| Rectangles.NewRectangle | src/pixels/rect.rs:9-11 | `Rectangle::new` keeps width and height |
| Rectangles.CellCentre | src/pixels/rect.rs:33-49 | the casts `(cell as f32 * (i as f32 + 0.5)) as u32` at lines 33, 36 and 49, as the exact integer floor(cell * (i + 1/2)) = cell * (2i + 1) / 2 |
| Rectangles.SamplePositions | src/pixels/rect.rs:13-55 | the nested loops and the extra column push exactly the sequence `SampledGrid(r, n)` |
| Rectangles.PlanOfFits | src/pixels/rect.rs:17-47 | the quantities x_count, y_count, cell sizes, the "nice" test, the column drop and the remainder are the integer quotients the code computes; full columns plus the extra column hold n seeds; no cell sticks out of the rectangle |
| Rectangles.SampleDefinedPositive | src/pixels/rect.rs:17-21 | inputs for which no division by zero happens have a non-empty rectangle |
| Rectangles.SampledGridCount | src/pixels/rect.rs:25-50 | `sample_positions(n)` returns exactly n positions |
| Rectangles.SampledGridInBounds | src/pixels/rect.rs:32-50 | every sampled position lies in [0, width) x [0, height) |
| Rectangles.SampledColumnsLayout | src/pixels/rect.rs:31-39 | position i * y_count + j is (floor(cell_width (i + 1/2)), floor(cell_height (j + 1/2))), column by column |
| Rectangles.SampledExtraColumn | src/pixels/rect.rs:44-51 | when x_count * y_count != n, the last `remainder` positions sit at x = cell_width * x_count, centred in rows of height height / remainder |
| Rectangles.SampleTwentyByThirty | src/pixels/rect.rs:62-71 | the 20 x 30 rectangle with n = 10 is defined and yields 10 positions, as the unit test expects |
| KMeans.NewLabelPixel | src/k_means_solver.rs:18-24 | a new label keeps the pixel and starts at the f32::MAX / usize::MAX sentinels |
| KMeans.GetIndex | src/k_means_solver.rs:101-103 | `get_index`: the column-major flat index height * x + y |
| KMeans.GetIndexRoundTrip | src/k_means_solver.rs:101-103 | for y < height, index / height == x and index % height == y |
| KMeans.GetIndexInjective | src/k_means_solver.rs:101-103 | two positions with y < height share an index only when they are equal |
| KMeans.GetIndexBound | src/k_means_solver.rs:101-103 | a position inside width x height indexes below width * height |
| KMeans.CalculateSuperpixelSize | src/k_means_solver.rs:105-112 | the spacing fits in `u16` |
| KMeans.SuperpixelSizeOdd | src/k_means_solver.rs:107-111 | the spacing is odd, so never 0, even after the `u16` cast wraps |
| KMeans.SuperpixelSizeBracket | src/k_means_solver.rs:105-112 | while N/k < 2^32 the spacing is the odd s with s - 1 <= sqrt(N/k) < s + 1 (floor root, plus one when even) |
| KMeans.SuperpixelSizeUnique | src/k_means_solver.rs:105-112 | that odd s is unique, so the bracket determines the spacing |
| KMeans.ScanKeepsPixel | src/k_means_solver.rs:179-190 | the inner loop changes only the label, never the pixel |
| KMeans.ScanMinimum | src/k_means_solver.rs:179-190 | the held distance never grows and ends at or below every scanned distance; either the label is untouched or it names a scanned centroid whose distance it stores; together, the distance ends at min(old, min_j d_j) |
| KMeans.ScanBlockedByStale | src/k_means_solver.rs:184-186 | a held distance below every scanned distance leaves the label unchanged (stale distances block reassignment) |
| KMeans.ScanTieHighest | src/k_means_solver.rs:184-189 | once some distance is at most the held one, the label names a scanned centroid at its stored distance and every later centroid is strictly farther: ties go to the highest index |
| KMeans.AssignLabelNearest | src/k_means_solver.rs:177-191 | if some centroid can beat the held distance, the pixel ends on a nearest centroid, the highest-indexed of the nearest |
| KMeans.AssignLabelKeepsRange | src/k_means_solver.rs:177-191 | a full scan keeps the pixel and either leaves the label alone or sets an index below k |
| KMeans.AssignPixel | src/k_means_solver.rs:177-191 | the per-pixel loop computes exactly `AssignLabel` over the centroid snapshot |
| KMeans.MembersMultiset | src/k_means_solver.rs:249-253 | bucket j holds each label with index j exactly as often as the pixel list does, and nothing else |
| KMeans.MembersMembership | src/k_means_solver.rs:249-253 | a label is in bucket j exactly when it is a pixel label with index j |
| KMeans.BucketSizesSum | src/k_means_solver.rs:249-253 | when every index is below k the k bucket sizes add up to the pixel count |
| KMeans.PositionCentroid | src/k_means_solver.rs:219-225 | (0, 0) for no positions, otherwise the per-coordinate mean rounded down |
| KMeans.PositionCentroidInBounds | src/k_means_solver.rs:219-225 | the centroid of in-image positions lies in the image |
| KMeans.NextCentroidIndices | src/k_means_solver.rs:260-266 | the update produces exactly k indices |
| KMeans.FreshLabelsAssigned | src/k_means_solver.rs:87-96 | when no distance exceeds f32::MAX, the first pass from sentinel labels gives every pixel an index below k |
| KMeans.KMeansSuperPixelSolver.constructor | src/k_means_solver.rs:62-99 | stores the parameters, s = `calculate_superpixel_size(w*h, k)`, seeds the centroids on the sampled grid, and leaves the labels as one assign pass from the sentinels; every pixel is labelled when no distance exceeds f32::MAX |
| KMeans.KMeansSuperPixelSolver.CalculateInitialCentroids | src/k_means_solver.rs:133-139 | the centroid indices are `get_index` of the sampled positions: k of them, each indexing a pixel |
| KMeans.KMeansSuperPixelSolver.Centroids | src/k_means_solver.rs:142-147 | one centroid per index, each a label of the pixel list |
| KMeans.KMeansSuperPixelSolver.CentroidPixels | src/k_means_solver.rs:171-175 | the snapshot is the pixels at the centroid indices |
| KMeans.KMeansSuperPixelSolver.AssignPixelsToSuperpixels | src/k_means_solver.rs:166-191 | every label becomes `AssignLabel` over the snapshot taken before the pass; pixels and their count are unchanged; a labelled solver stays labelled |
| KMeans.KMeansSuperPixelSolver.Clusters | src/k_means_solver.rs:249-258 | k pairs: centroid j with the labels whose index is j, in input order |
| KMeans.KMeansSuperPixelSolver.PositionClusters | src/k_means_solver.rs:227-237 | k buckets of positions, bucket j the positions of the labels with index j, in input order |
| KMeans.KMeansSuperPixelSolver.PositionCentroids | src/k_means_solver.rs:239-247 | the centroid of every bucket; inside the image when the pixels are |
| KMeans.KMeansSuperPixelSolver.UpdateCentroids | src/k_means_solver.rs:260-266 | all k indices are replaced at once by the flat indices of the bucket centroids; with in-image pixels each still indexes a pixel |
| KMeans.KMeansSuperPixelSolver.SolveTick | src/k_means_solver.rs:322-329 | one assign pass then one update; pixels unchanged, labels stay below k, k centroids |
| KMeans.KMeansSuperPixelSolver.CurrentSuperpixels | src/k_means_solver.rs:331-350 | k groups; group j lists the positions of the pixels labelled j in input order, each with the display colour of centroid j; nothing changes |

## Left out

- The colour conversions (src/colors/): a colour is an uninterpreted triple of reals. The
  display colour that `current_superpixels` computes is a function parameter of
  `CurrentSuperpixels`.
- `cluster_color_average` and `cluster_color_normalized` are float averaging, and the latter is
  never called. They are not modelled.
- Floating point: distances are `real`, so f32 rounding, infinities and NaN are not modelled.
  - `(n as f32).sqrt() as u32` is taken as the exact integer square root.
  - The square root is exact while n stays below 2^24.
  - The cell-centre casts are taken as the exact integer formulas `c * (2i + 1) / 2` and
    `cell_width * x_count`.
  - When a cell size is 0, every centre is 0 whatever the index, in the code and in the
    formula alike. This happens when there are more cells than pixels; for example 2 x 2 with
    n = 100 gives 10 columns of width 0.
  - Otherwise the count is at most the image size. So when width and height stay below 2^23,
    the cell size, the index plus one half, and the product are all exact in f32.
  - `SampleDefined` allows sizes up to 2^32 - 1, and above 2^23 the results can differ. For
    example, width 2^25 + 2, height 2^24 + 1 and n = 2 give cell_width 2^24 + 1. At i = 1
    the code yields 25165824, while `CellCentre` gives 25165825.
- Integer widths other than the `u16` spacing become preconditions rather than wrap-around:
  - `SampleDefined` covers the u32 products in `sample_positions` and their division by zero.
  - `GridArgsInRange` covers the i16/u16 casts in `Grid::new`.
  - The usize products `width * height` and `get_index` are unbounded.
  - `m` is a `nat` rather than a `u8`.
  - The u32 sums inside cgmath's `centroid` are unbounded.
- Grids.NewGrid: requires `GridArgsInRange`; the `as i16` wrap of inputs of 2^15 and above is not modelled.
- Rectangles.SamplePositions: requires `SampleDefined`. A division by zero panics.
  A `u32` overflow panics when overflow checks are on, as in a debug build, and wraps in a
  default release build. The model excludes both outcomes and does not model the wrap.
- KMeans.SuperpixelSizeBracket: stated only for N/k < 2^32. Above that the `u16` cast wraps; `CalculateSuperpixelSize` models the wrap, but the bracket does not hold.
- KMeans.KMeansSuperPixelSolver.constructor: requires `width * height <= |pixels|`. That is
  stronger than the code's own demand, which is only that every seed index falls inside the
  pixel list (`centroids` panics otherwise).
- KMeans.KMeansSuperPixelSolver.constructor: promises `Labelled` only when no pairwise distance exceeds f32::MAX. Otherwise a pixel can keep the `usize::MAX` sentinel, and a later bucketing panics.
- KMeans.KMeansSuperPixelSolver.UpdateCentroids: keeps every index inside the pixel list only for pixels that lie in the image (`InImage`). The code does not check this, and an out-of-range index makes the next `centroids` call panic.
- Panics become preconditions:
  - `k == 0` (division in `calculate_superpixel_size`);
  - a sentinel index reaching the bucket loop (`Labelled` on `Clusters`, `PositionClusters`,
    `PositionCentroids`, `UpdateCentroids`, `SolveTick`, `CurrentSuperpixels`);
  - a centroid index past the pixel list (`Valid`).
- rayon's `par_iter_mut` is a sequential loop. Each iteration reads only the centroid snapshot
  and writes only its own label, so the order does not matter. Concurrency itself is not
  modelled.
- References are modelled as values. `centroids` and `clusters` return references into
  `flat_pixels`; they are not modelled as aliases, since nothing is mutated while those
  references live.
- The debug `println!` output is not modelled.
- These members are not used by the modelled operations and are not modelled:
  - the `pixel_relation` map, which is never read;
  - the solver's `m()`, `pixel`, `pixel_mut` and `color`;
  - `LabelPixel::centroid_distance_mut` and `centroid_index_mut`; the assignment closure
    writes those fields directly (src/k_means_solver.rs:188-189).
- `LabelPixel::pixel()` is used throughout the solver, and the model reads it as the field
  `.pixel`.
- `pixels()` is the label array `flatPixels[..]`. Its pixel values alone are
  `PixelValues()`.
- Commented-out code is not live and is not modelled: the windowed assignment and the random
  seeding.
- Image loading and saving, random visualisation colours, and `pixel_from_rgb` in src/lib.rs
  are I/O and float conversion, and are not modelled.

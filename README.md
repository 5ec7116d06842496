# Image grid visual: a Dafny model of its layout and selection logic

The image grid is a Power BI custom visual. It shows one image per data row in
one of three ways: a grid of squares, a weighted circle pack, or a "top list"
circle pack in which the first row gets its own weight. This project models the
deterministic part of `src/visual.ts` and proves properties of it:

- **Adapter** (`adapter.dfy`). It covers the role lookups `getColumnIndex` and
  `getMeasureIndex`, each a loop with `break` that returns the first column
  flagged with a role, or -1. It also covers `visualTransform`: its early
  exits, and its loop that pushes one data point per table row. Each image URL
  falls back to the other image column, and to `""` when neither image column is
  bound.
- **Resolution** (`resolution.dfy`). A rendered size strictly above
  `minimumHQWidth` selects the high-resolution URL.
- **Grid** (`grid.dfy`). The column search tries 1..MaxCols and stops at the
  first count whose square cells fit the viewport height, then clamps. The
  placement loop puts point `i` at column `i % Cols` and row
  `(i - i % Cols) / Cols`, tracks the largest row, and computes `totalHeight`.
- **PackLayout** (`packlayout.dfy`). It covers the two weight loops that feed
  the circle packer (proportional and top-list). It also covers how each node
  the packer returns is drawn: its URL, bounding square and opacity.
- **Emphasis** (`emphasis.dfy`). Opacity is 0.0 for the pack's own enclosing
  circle. Otherwise it is 1.0 when nothing is selected or the element's key is
  selected, and 0.5 otherwise.
- **Interaction** (`interaction.dfy`). The hover enlarge and reset geometry for
  grid and circle images. The click repaint after the selection manager answers
  is done in place on an array of opacities.
- **VisualState** (`visual.dfy`). The `Visual` class, with its current settings,
  data points and grid cell width, its visibility and its last drawn frame.
  `update` rebuilds the view model, hides the visual when there are no points,
  and otherwise dispatches on the render type.

The packer's circle geometry and the host's selection answers are inputs to the
model (`Circle`, `PackNode`, the `active` and `ids` sequences). Numbers are Dafny
reals: exact and unbounded.

Notes on the code as written:

- The proportional pad is a tenth of `Math.abs(max)`, the absolute value of the
  largest value. It is not a tenth of the largest absolute value
  (`src/visual.ts:185`). `PackLayout.ProportionalWeight` follows the code.
- With `maximumColumns` 0, the search loop never runs. The clamps then leave
  `Cols` at 0 (`src/visual.ts:260-263`). `Grid.Columns` states this case. The
  layout itself requires `maximumColumns >= 1` because it divides by `Cols`.
- The placement loop with no points leaves `maxRow` at 0, so `totalHeight` would
  be one cell side, not 0. `update` never lays out an empty grid
  (`src/visual.ts:388-391`), and `Grid.GridHeight` is stated for at least one
  point.
- With the default `topListWeight` of 1, the top circle of the top list weighs
  `n*n/10`. That is less than rank 1's `n - 1` for 2 to 8 points. The top circle
  is heavier only from 9 points on (`PackLayout.DefaultTopListDominance`).
- The click repaint dims every element other than the clicked one whenever the
  answer is non-empty. This matches the selection rule for a single-select
  answer (`Interaction.RepaintMatchesSelection`). With a multi-element answer it
  dims elements that are still selected (`Interaction.RepaintDimsOtherSelected`).

## Model

| member | source | states |
|---|---|---|
| Grid.Fits | src/visual.ts:252-255 | defines the fit test: the rows needed times the cell side width / Cols is below the viewport height |
| Grid.Clamp | src/visual.ts:260-263 | defines the two clamps, raising the count to 1 first and then lowering it to MaxCols |
| Grid.Col | src/visual.ts:268 | defines a point's column as i % Cols |
| Grid.Row | src/visual.ts:269 | defines a point's row as (i - i % Cols) / Cols |
| Grid.MaxRow | src/visual.ts:266-271 | defines the largest row the placement loop reaches: 0 for no points, else the last point's row |
| Grid.CellAt | src/visual.ts:272-278 | defines the cell pushed for point i: its index, x = side * column, y = side * row, the URL chosen for the side, and its identity |
| Grid.GridModel | src/visual.ts:250-281 | defines the grid layout: Columns(...) columns, side width / Cols, CellAt for every point, MaxRow, and totalHeight = (maxRow + 1) * side |
| PackLayout.ProportionalWeight | src/visual.ts:190 | defines the proportional weight: 1 for null, else v - min + Math.abs(max) * 0.1 + 1 |
| PackLayout.TopListWeight | src/visual.ts:225 | defines the top-list weight: n * n * topListWeight * 0.1 for rank 0, else n - i |
| PackLayout.CircleRect | src/visual.ts:148-151 | defines a circle's drawn square: x - r, y - r, side 2r |
| Interaction.Repainted | src/visual.ts:366-371 | defines the opacities after a click: 1.0 for the clicked element, else 0.5 for a non-empty answer and 1.0 otherwise |
| Adapter.LowResURL | src/visual.ts:94 | defines the low-resolution URL: the ImageURL cell, else the ImageURLHQ cell, else "" |
| Adapter.HighResURL | src/visual.ts:95 | defines the high-resolution URL: the ImageURLHQ cell, else the ImageURL cell, else "" |
| Adapter.PointOf | src/visual.ts:92-104 | defines the data point of a row: its value, its two fallback URLs and the row's identity |
| Adapter.Transform | src/visual.ts:62-109 | defines the view model: empty without a category source or without an image column, else one point per row and the settings |
| VisualState.DrawPackedNode | src/visual.ts:144-165 | defines how a circle frame draws a packed node: DrawNode with the frame's threshold and active selections |
| PackLayout.ChildOf | src/visual.ts:189-194 | defines the object pushed for a point: its weight, its two URLs and its identity (also :224-229) |
| PackLayout.ProportionalChildren | src/visual.ts:183-195 | defines the weighted child list: the non-null minimum and maximum taken once, then one ChildOf per point, in order, weighed by ProportionalWeight |
| PackLayout.TopListChildren | src/visual.ts:220-230 | defines the top-list child list: one ChildOf per point, in order, weighed by TopListWeight for its rank |
| VisualState.PackFrameOf | src/visual.ts:176-202 | defines the circle frame: svg width by height - 10 (:178-180), packer size [width, height] (:200), threshold minimumHQWidth (:176, :202), and the active selections (:139) |
| VisualState.GridFrameOf | src/visual.ts:283-313 | defines the grid frame: the grid model, the svg width, and one selection opacity per cell |
| Adapter.HasRole | src/visual.ts:39 | defines the role test `roles[name] === true` (also :28) |
| Adapter.NoImageColumn | src/visual.ts:85 | defines the early-exit test: neither ImageURL nor ImageURLHQ is bound to a column |
| Resolution.ChooseImage | src/visual.ts:276 | a size strictly above the threshold gives the high-resolution URL; any other size gives the low-resolution one |
| Resolution.HighResIff | src/visual.ts:145 | with distinct URLs, the high-resolution URL is chosen if and only if the size is strictly above the threshold |
| Resolution.HighResIsUpwardClosed | src/visual.ts:145 | an element that shows its high-resolution image still shows it when drawn larger |
| Emphasis.ScanFrom | src/visual.ts:159-164 | the scan over the active selections returns only 1.0 or 0.5; it returns 1.0 exactly when some later active selection has the element's key |
| Emphasis.SelectionOpacity | src/visual.ts:304-313 | no active selection gives 1.0; a key match in the active selection gives 1.0; otherwise 0.5 |
| Emphasis.CircleOpacity | src/visual.ts:152-165 | the pack's container circle gives 0.0; a child circle gets the selection opacity of its identity |
| Emphasis.CircleOpacityValues | src/visual.ts:152-165 | every painted opacity is one of 0.0, 0.5 and 1.0 |
| Emphasis.SelectedTransfers | src/visual.ts:307-311 | a key match in one active selection is a match in any selection containing the same identities |
| Emphasis.SelectionOpacityIgnoresOrder | src/visual.ts:304-313 | opacity depends only on which identities are active, not on their order or repetition |
| Emphasis.SingleSelectionExample | src/visual.ts:304-313 | with only A selected, A, B and C paint as 1.0, 0.5 and 0.5 |
| Grid.RowsNeeded | src/visual.ts:254 | the row count is the ceiling of n / Cols: enough rows for n points, and one row fewer is not enough |
| Grid.CeilDivBounds | src/visual.ts:254 | `(n + Cols - 1) / Cols` is the least row count that holds n points |
| Grid.FitsDivisionFree | src/visual.ts:252-255 | the fit test `rows * (width / Cols) < height` is equivalent to `rows * width < height * Cols` |
| Grid.SearchFrom | src/visual.ts:251-258 | the search started at c stops at the first count from c that fits, or at MaxCols + 1 when none fits |
| Grid.Columns | src/visual.ts:250-263 | for MaxCols >= 1, Cols is in [1, MaxCols], it fits or equals MaxCols, and no smaller count fits; MaxCols 0 gives 0 |
| Grid.ChooseColumns | src/visual.ts:250-263 | the loop with break and the two clamps compute exactly Columns: the smallest fitting count, or MaxCols |
| Grid.NinePointsExample | src/visual.ts:250-263 | nine points in a 400 by 400 viewport with at most four columns take four columns |
| Grid.RowIsQuotient | src/visual.ts:268-269 | the row `(i - i % Cols) / Cols` is the quotient `i / Cols` |
| Grid.RowColRecoverIndex | src/visual.ts:268-269 | the column is below Cols, and row * Cols + column gives back the index |
| Grid.RowMonotone | src/visual.ts:267-271 | a later point never sits in an earlier row |
| Grid.RowOfRowStart | src/visual.ts:268-269 | index r * Cols + c, with c < Cols, sits at row r and column c |
| Grid.PushedCellIsCellAt | src/visual.ts:272-278 | the cell the loop pushes for point i is that point's cell in the model |
| Grid.LayoutGrid | src/visual.ts:241-281 | the column search, then the placement loop, produce exactly the grid model: Cols, cell side width / Cols, one cell per point, maxRow and totalHeight |
| Grid.GridModelOfLoop | src/visual.ts:265-281 | the values the placement loop leaves behind make up the grid model |
| Grid.CellPlacement | src/visual.ts:268-278 | point i's cell carries index i, x = side * (i % Cols), y = side * (i / Cols), and the point's identity |
| Grid.GridModelCells | src/visual.ts:265-279 | the grid has one cell per point and uses Columns(...) columns, in [1, MaxCols], with cell side width / Cols |
| Grid.GridCellsDistinct | src/visual.ts:267-269 | two distinct points get distinct (row, column) cells |
| Grid.GridCoverage | src/visual.ts:267-269 | every cell (r, c) with c < Cols and r * Cols + c < n holds a point |
| Grid.LastRowIsRowsNeeded | src/visual.ts:266-281 | the last point's row plus one is the ceiling of n / Cols |
| Grid.GridHeight | src/visual.ts:266-281 | for n >= 1: maxRow is (n - 1) / Cols and bounds every row, maxRow + 1 is the rows needed, and totalHeight is that count times the side |
| Grid.GridFitsViewport | src/visual.ts:255-281 | when the chosen Cols passed the fit test, the grid's totalHeight is below the viewport height |
| Grid.GridUniformResolution | src/visual.ts:276 | every grid image shows its high-resolution URL exactly when the common cell side is above the threshold |
| PackLayout.MinValue | src/visual.ts:184 | the minimum is null only when every value is null; otherwise it bounds every non-null value from below and is one of them |
| PackLayout.MaxValue | src/visual.ts:185 | the maximum is null only when every value is null; otherwise it bounds every non-null value from above and is one of them |
| PackLayout.BuildProportionalChildren | src/visual.ts:184-195 | the loop pushes exactly the proportional children, one per point |
| PackLayout.ProportionalChildrenFollowPoints | src/visual.ts:186-195 | one child per point, in input order, carrying the point's two URLs and its identity |
| PackLayout.ProportionalWeightAtLeastOne | src/visual.ts:190 | a null value weighs exactly 1; every weight is at least 1 |
| PackLayout.MinimumGetsPad | src/visual.ts:184-190 | a point holding the minimum weighs exactly a tenth of the absolute maximum plus 1 |
| PackLayout.ProportionalWeightMonotone | src/visual.ts:190 | a larger value never gets a smaller weight, and a strictly larger value gets a strictly larger weight |
| PackLayout.ProportionalExample | src/visual.ts:184-195 | values 10, 1, 1, 1, 1 weigh 11, 2, 2, 2, 2 |
| PackLayout.NullExample | src/visual.ts:190 | two null values weigh 1 each |
| PackLayout.BuildTopListChildren | src/visual.ts:220-230 | the loop pushes exactly the top-list children, one per point |
| PackLayout.TopListChildrenFollowPoints | src/visual.ts:221-229 | one top-list child per point, in input order, carrying the point's two URLs and its identity |
| PackLayout.TopListWeightValue | src/visual.ts:225 | for every list of n >= 1 points, rank 0 weighs n * n * topListWeight / 10, non-negative for a non-negative factor; rank i >= 1 weighs n - i, at least 1, and the last rank weighs exactly 1 |
| PackLayout.TopListWeightsDecrease | src/visual.ts:225 | below the top, rank j weighs exactly j - i less than rank i, so weights fall by one per rank |
| PackLayout.DefaultTopListDominance | src/visual.ts:225 | with factor 1, the top outweighs rank 1 from nine points on, and weighs less for two to eight points |
| PackLayout.DrawNode | src/visual.ts:144-165 | a node is drawn in its circle's bounding square with the circle opacity; the container has no image and opacity 0; a child shows its high-resolution URL exactly when 2r is above the threshold |
| PackLayout.CircleRectCentred | src/visual.ts:148-151 | the drawn square is centred on the circle and is as wide as its diameter |
| Interaction.GridReset | src/visual.ts:334-341 | leaving a grid image restores the square at (x, y) of the stored cell side |
| Interaction.GridEnlarge | src/visual.ts:326-333 | hovering a grid image keeps its centre and makes it 1.2 times as wide and as high |
| Interaction.CircleReset | src/visual.ts:352-359 | leaving a circle image restores the square centred on the circle, of side 2r |
| Interaction.CircleEnlarge | src/visual.ts:344-351 | hovering a circle image keeps its centre and makes it 1.4 times as wide and as high |
| Interaction.HoverFor | src/visual.ts:325-360 | "GRID" installs the grid handlers, sized by the stored cell side; any other render type installs the circle ones. Either way the hovered image keeps its centre and grows 1.2 or 1.4 times in width and in height |
| Interaction.EnlargeCoversReset | src/visual.ts:326-359 | for a non-negative size, the hovered image contains the drawn one |
| Interaction.Click | src/visual.ts:363-372 | with interactions allowed, the clicked element ends at 1.0 and every other element at 0.5 for a non-empty answer, else 1.0; without them nothing changes |
| Interaction.RepaintMatchesSelection | src/visual.ts:363-372 | with distinct keys and an answer of nothing or exactly the clicked identity, the repaint equals the selection opacity of every element |
| Interaction.RepaintDimsOtherSelected | src/visual.ts:366-371 | an unclicked element that is in the answer is painted 0.5 although the selection rule gives it 1.0 |
| Adapter.RoleIndexFrom | src/visual.ts:36-45 | the result is -1 exactly when no column from i on has the role; otherwise it is the first such column |
| Adapter.RoleIndex | src/visual.ts:36-45 | the lookup result is -1 or a column index |
| Adapter.GetColumnIndex | src/visual.ts:36-45 | the loop returns -1 exactly when no column has the role flagged true, and otherwise the first column that does |
| Adapter.Sources | src/visual.ts:25-34 | one source column per measure, in order |
| Adapter.GetMeasureIndex | src/visual.ts:25-34 | the loop returns -1 exactly when no measure's source column has the role flagged true, and otherwise the first measure whose source does |
| Adapter.ValueOf | src/visual.ts:96 | no value column gives null; a number cell gives that number; a null cell gives null |
| Adapter.VisualTransform | src/visual.ts:47-110 | the early exits and the row loop compute exactly the view model: one point per row with its fallback URLs, value and identity |
| Adapter.FallbackSymmetric | src/visual.ts:94-95 | the low-resolution rule is the high-resolution rule with the two image roles swapped |
| Adapter.SingleImageColumn | src/visual.ts:94-95 | with only one image role bound, both URLs of a row come from that column |
| Adapter.EmptyOnlyWhenUnbound | src/visual.ts:94-95 | a bound image column's URL is its cell; both URLs are empty when neither image role is bound |
| Adapter.TransformPoints | src/visual.ts:62-109 | no image column gives no points; otherwise every row gives a point, in order, with the row's identity and the settings; points imply settings |
| Adapter.AdmittedPointsHaveImageColumn | src/visual.ts:85-95 | every point produced has an image column bound, and its URLs are taken from a bound column, never the empty fallback |
| VisualState.Dispatch | src/visual.ts:388-406 | no points hides the visual; otherwise "GRID", "CIRCLE" and "CIRCLETOPLIST" pick their layouts, and any other render type keeps the previous drawing |
| VisualState.GridOpacities | src/visual.ts:303-313 | one opacity per grid cell, each the selection opacity of that cell's identity |
| VisualState.Visual.constructor | src/visual.ts:121-130 | a new visual has no settings, no points, grid cell side 0, and nothing drawn |
| VisualState.Visual.UpdateGridLayout | src/visual.ts:241-317 | draws the grid model with its opacities, remembers the cell side for hovering, and leaves settings and points alone |
| VisualState.Visual.UpdatePackedLayout | src/visual.ts:171-203 | sizes the svg to the viewport width and the height minus 10, hands the proportional children to the packer sized to the whole viewport, draws with the configured minimumHQWidth and the active selections, and keeps the grid cell side |
| VisualState.Visual.UpdatePackedLayoutTopList | src/visual.ts:208-238 | as the weighted layout, with the top-list children |
| VisualState.PackedLeafDrawing | src/visual.ts:139-165 | with distinct low- and high-resolution URLs, a child circle of a circle frame shows its high-resolution URL exactly when its diameter is above the configured minimumHQWidth, and takes the selection opacity under the frame's active selections |
| VisualState.Visual.Update | src/visual.ts:379-408 | stores the new view model; with no points it hides and keeps the drawing; otherwise it draws what Dispatch names, or keeps the drawing for an unknown render type |

## Left out

- The circle packing itself (`d3.layout.pack`). It is a foreign library doing floating-point geometry. The model produces the weighted children handed to it, and takes the circle it returns for each node as an input to `PackLayout.DrawNode`.
- SVG and DOM output, d3 selections, transitions and the enter/exit join. The model records what is drawn as a `Frame` value and leaves the rendering out.
- The selection manager: the asynchronous `select`, `getSelectionIds` and `createSelectionIdBuilder`. The active selections and the click's answer are inputs, and every row's identity is given in the data view.
- `getSelectionIds` returning null when the table has no identities, and rows shorter than the metadata columns, where an indexed cell would read `undefined` (`src/visual.ts:81-83`, `:94-96`). The model requires one identity per row and exactly one cell per metadata column in every row (`Adapter.WellFormed`, `Adapter.RowsMatchColumns`).
- Settings persistence: `getValue` over the `objects` metadata, and `enumerateObjectInstances`. The data view carries settings already resolved against the defaults of `src/visual.ts:49-56`.
- The presence checks on `dataViews[0]` are collapsed into one flag, `hasCategorySource`. An empty `categories` array makes `categories[0].source` throw (`src/visual.ts:66`); the model returns the empty view model for it instead. An empty view model's settings (`<VisualSettings>{}`) are modelled as `None`.
- The `<string>` and `<number>` casts of row cells. The model requires image columns to hold text and the value column to hold numbers or nulls (`Adapter.WellFormed`).
- IEEE floating point: NaN, infinities, rounding, and division by zero when `maximumColumns` is 0. Numbers are exact reals, and `maximumColumns` is a natural number. A fractional setting is not modelled.
- Clicking the pack's container circle, which selects an undefined identity. `Interaction.Click` models the repaint of drawn images whatever was clicked.
- `Interaction.Click` models only the repaint after the host answers. The deferred promise and `stopPropagation` are event plumbing.
- `destroy`, which is empty.

# Max pooling demo — Dafny model

The demo shows 2 x 2 max pooling with stride 2. The input is an 8 x 8 grid of
random integers from 1 to 20. The output is a 4 x 4 grid whose cells start
out blank ('-'). A cursor names one output cell. Each pooling step does three
things:

- it scans that cell's 2 x 2 input window in row-major order;
- it collects the scanned values;
- it tracks the largest value and where it sits, replacing it only on a
  strictly larger value;
- it writes the maximum into the cursor's output cell.

The arrow buttons move the cursor and re-pool the new cell; a move that would
leave the output grid does nothing. "Reset" blanks the output, returns the
cursor to (0, 0) and pools that cell. "Randomize" does the same with fresh
random input.

The model has two modules:

- `PoolingSpec` (`pooling_spec.dfy`) is the pure specification of one window:
  - the window's values in scan order (`RowValues`, `WindowValues`);
  - its maximum (`WindowMax`, built on `SeqMax`);
  - a row-by-row reference definition of where the first maximum sits
    (`FirstMaxPos`);
  - the characterization `IsFirstMaxIn`: the position lies in the window, holds
    the maximum, no cell exceeds it, and every cell scanned before it is
    strictly smaller.
- `MaxPooling` (`max_pooling.dfy`) holds the imperative side:
  - `ScanWindow`, the nested scan loop of `performMaxPooling`, proved against
    `PoolingSpec`;
  - `ScanUpTo`, a cell-by-cell reference for that scan, proved to agree with the
    row-by-row one;
  - class `MaxPoolingDemo`, with the configuration as `const` fields, the cursor
    as `var` fields, the input as an `array2<int>` and the output as an
    `array2<Cell>` (`Unset` stands for '-'). Its methods have the source's
    loops and field updates.

The class invariant `Valid()` has three parts:

- `poolSize == stride > 0`, `outputSize > 0` and `outputSize * stride == inputSize`;
- the grids have their configured sizes;
- the cursor names an output cell.

From the invariant, every window the scan reads lies inside the input grid
(`WindowOfFits`).

## Model

| member | source | states |
|---|---|---|
| `PoolingSpec.PrefixFirstMax` | script.js:136-148 | a left-to-right scan with a strict `>` settles on an index holding the maximum of the prefix, with every earlier element strictly smaller (the first occurrence on ties) |
| `PoolingSpec.RowValues` | script.js:137-141 | the values of one window row are the grid cells of that row, in column order |
| `PoolingSpec.WindowValuesLength` | script.js:132-141 | the flattened window has `rows * k` values, so `values` has `poolSize * poolSize` entries |
| `PoolingSpec.SeqMaxConcat` | script.js:136-146 | the maximum of the values scanned in two runs is the larger of the two runs' maxima, and the later run wins only when strictly larger |
| `PoolingSpec.RowFirstMax` | script.js:137-146 | within one row, the first index of the row's maximum is the row's first maximum, stated cell by cell on the grid |
| `PoolingSpec.FirstMaxAddRow` | script.js:136-146 | adding a row below a region: the first maximum moves to the new row exactly when the new row's maximum is strictly larger |
| `PoolingSpec.RowsFirstMaxCharacterized` | script.js:136-146 | the row-by-row reference position and the maximum of the first `rows` window rows satisfy the first-maximum characterization |
| `PoolingSpec.FirstMaxUnique` | script.js:143-146 | two position/value pairs that both satisfy the first-maximum characterization of a region are equal |
| `PoolingSpec.WindowFirstMax` | script.js:133-146 | `FirstMaxPos` lies in the window and holds `WindowMax`; no window cell exceeds it, and every cell scanned before it is strictly smaller |
| `MaxPooling.WindowInBounds` | script.js:127-140 | with `poolSize == stride` and `outputSize * stride == inputSize`, the window of every output row or column lies inside the input grid |
| `MaxPooling.ScanUpToScanned` | script.js:136-148 | after any number of visited cells, the cell-by-cell scan holds the first maximum of the cells visited so far |
| `MaxPooling.ScanFindsFirstMax` | script.js:131-148 | the finished cell-by-cell scan ends at `FirstMaxPos` with value `WindowMax`, so the two reference definitions agree |
| `MaxPooling.ScanWindow` | script.js:127-148 | the nested loop returns the window's values in row-major order (`poolSize * poolSize` of them) and their maximum, found at the first position holding it |
| `MaxPooling.TieKeepsFirst` | script.js:143-146 | on the window `[[3, 7], [7, 2]]` the scan lists `3, 7, 7, 2` and reports 7 at `(0, 1)`, the first of the two 7s |
| `MaxPooling.MaxPoolingDemo.WindowOfFits` | script.js:127-140 | under the class invariant, the window of every output cell lies inside the input grid |
| `MaxPooling.MaxPoolingDemo.constructor` | script.js:2-22 | the demo starts with 2 x 2 windows, stride 2, an 8 x 8 input holding the drawn values and the cursor at `(0, 0)`; the output is blank except `(0, 0)`, which holds the top-left window's maximum |
| `MaxPooling.MaxPoolingDemo.GenerateRandomData` | script.js:24-42 | the input becomes a fresh `inputSize x inputSize` grid holding the drawn values, and the output a fresh `outputSize x outputSize` grid of blank cells |
| `MaxPooling.MaxPoolingDemo.BlankOutput` | script.js:35-41 | every output cell is blank |
| `MaxPooling.MaxPoolingDemo.PerformMaxPooling` | script.js:126-151 | the cursor's output cell receives the maximum of the cursor's window and no other output cell changes; returns the values in scan order and the first position of the maximum |
| `MaxPooling.MaxPoolingDemo.MovePool` | script.js:113-124 | an in-range target moves the cursor by exactly the deltas and re-pools only the new cell; an out-of-range target leaves the cursor and every output cell unchanged; the class invariant is kept either way |
| `MaxPooling.MaxPoolingDemo.Reset` | script.js:225-240 | the cursor is at `(0, 0)`, the input is untouched, and the output is blank except `(0, 0)`, which holds the top-left window's maximum |
| `MaxPooling.MaxPoolingDemo.RandomizeData` | script.js:243-254 | the input is a fresh grid holding the drawn values (all from 1 to 20), the cursor is at `(0, 0)`, and the output is blank except `(0, 0)`, which holds the new top-left window's maximum |

## Left out

- Rendering is not modelled. This covers `createMatrices`, `createInputMatrix`,
  `createOutputMatrix`, `updateDisplay`, `highlightInputRegion` and
  `updateOutputMatrix`. It also covers the calculation text built at the end of
  `performMaxPooling` and the text that `reset` and `randomizeData` write into
  the calculation panel. These only draw the state the model keeps.
  `PerformMaxPooling` returns the values, maximum and position that the text
  shows.
- Event wiring is not modelled: `setupEventListeners` and the page-load
  handler. They only call `movePool` with the four unit deltas, `reset` and
  `randomizeData`. `MovePool` accepts any integer deltas, as the method itself
  does.
- `Math.random` is not modelled. The drawn values are a parameter `draws`,
  an `inputSize x inputSize` matrix whose entries lie in 1..20, the range
  `floor(random * 20) + 1` produces.
- `ScanWindow` starts from the window's first cell instead of minus infinity.
  The source's first comparison always succeeds, so after the first cell both
  starts give the same state. This avoids floating point.
- The demo's nested JavaScript arrays become `array2` grids. The string '-'
  becomes `Cell.Unset`. Numbers are unbounded integers, which is exact here,
  since the values are small integers.
- `ScanWindow` takes the grid and the window's corner as parameters.
  `PerformMaxPooling` computes the corner from the cursor and calls it. The
  source does both in one method.

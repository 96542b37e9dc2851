/**
 * The max-pooling teaching demo: an `inputSize x inputSize` input grid, an
 * `outputSize x outputSize` output grid, and a cursor naming the output cell
 * whose `poolSize x poolSize` input window is pooled next.
 *
 * The view layer (building the grid cells, highlighting, the overlay, the
 * calculation text and the button and key wiring) is not modelled; the
 * operations below are the state changes behind each button.
 */
module MaxPooling {
  import opened PoolingSpec

  /** The demo's fixed configuration: 2 x 2 windows, stride 2, over an 8 x 8 input. */
  const DefaultPoolSize: nat := 2
  const DefaultInputSize: nat := 8
  const DefaultOutputSize: nat := 4
  const DefaultStride: nat := 2

  /** Input values are drawn as `floor(random * 20) + 1`, so they lie in 1..20. */
  const MinInputValue: int := 1
  const MaxInputValue: int := 20

  /** `draws` is a square `n x n` matrix of values the random fill can produce. */
  predicate IsRandomFill(draws: seq<seq<int>>, n: nat)
  {
    && |draws| == n
    && (forall i :: 0 <= i < n ==> |draws[i]| == n)
    && (forall i, j :: 0 <= i < n && 0 <= j < |draws[i]| ==> MinInputValue <= draws[i][j] <= MaxInputValue)
  }

  /**
   * The window of output cell `(row, col)` starts at `(row * stride, col * stride)`
   * and, because `poolSize == stride` and `outputSize * stride == inputSize`,
   * never reaches past the input grid.
   */
  lemma WindowInBounds(row: int, outputSize: nat, stride: nat, poolSize: nat, inputSize: nat)
    requires 0 <= row < outputSize
    requires 0 < poolSize == stride && outputSize * stride == inputSize
    ensures 0 <= row * stride && row * stride + poolSize <= inputSize
  {
    var rest: nat := outputSize - (row + 1);
    assert outputSize * stride == row * stride + stride + rest * stride;
  }

  /**
   * The loop state of the window scan after the cells before `(r0 + i, c0 + j)`
   * have been visited: `p` holds `m`, no visited cell exceeds `m`, every visited
   * cell before `p` is strictly smaller, and `p` is the window's first cell or
   * a visited one.
   */
  ghost predicate ScannedFirstMax(a: array2<int>, r0: int, c0: int, k: nat, i: int, j: int, p: Pos, m: int)
    reads a
    requires WindowFits(a, r0, c0, k)
  {
    && r0 <= p.row < r0 + k && c0 <= p.col < c0 + k
    && a[p.row, p.col] == m
    && (p == Pos(r0, c0) || Before(p, Pos(r0 + i, c0 + j)))
    && (forall r, c :: r0 <= r < r0 + k && c0 <= c < c0 + k && Before(Pos(r, c), Pos(r0 + i, c0 + j))
          ==> a[r, c] <= m)
    && (forall r, c ::
          (r0 <= r < r0 + k && c0 <= c < c0 + k && Before(Pos(r, c), Pos(r0 + i, c0 + j)) && Before(Pos(r, c), p))
          ==> a[r, c] < m)
  }

  /** Before any cell is visited, the scan holds the window's first cell. */
  lemma ScanStart(a: array2<int>, r0: int, c0: int, k: nat)
    requires WindowFits(a, r0, c0, k)
    ensures ScannedFirstMax(a, r0, c0, k, 0, 0, Pos(r0, c0), a[r0, c0])
  {
  }

  /** Visiting a cell no larger than the running best keeps the best (the strict `>` test fails). */
  lemma ScanKeep(a: array2<int>, r0: int, c0: int, k: nat, i: int, j: int, p: Pos, m: int)
    requires WindowFits(a, r0, c0, k) && 0 <= i < k && 0 <= j < k
    requires ScannedFirstMax(a, r0, c0, k, i, j, p, m)
    requires a[r0 + i, c0 + j] <= m
    ensures ScannedFirstMax(a, r0, c0, k, i, j + 1, p, m)
  {
  }

  /** Visiting a strictly larger cell makes that cell the running best. */
  lemma ScanMove(a: array2<int>, r0: int, c0: int, k: nat, i: int, j: int, p: Pos, m: int)
    requires WindowFits(a, r0, c0, k) && 0 <= i < k && 0 <= j < k
    requires ScannedFirstMax(a, r0, c0, k, i, j, p, m)
    requires a[r0 + i, c0 + j] > m
    ensures ScannedFirstMax(a, r0, c0, k, i, j + 1, Pos(r0 + i, c0 + j), a[r0 + i, c0 + j])
  {
  }

  /** Finishing row `r0 + i` is starting row `r0 + i + 1`. */
  lemma ScanNextRow(a: array2<int>, r0: int, c0: int, k: nat, i: int, p: Pos, m: int)
    requires WindowFits(a, r0, c0, k) && 0 <= i < k
    requires ScannedFirstMax(a, r0, c0, k, i, k, p, m)
    ensures ScannedFirstMax(a, r0, c0, k, i + 1, 0, p, m)
  {
  }

  /** The scan's running best: a position in the window and the value held there. */
  datatype Best = Best(pos: Pos, value: int)

  /**
   * Cell-by-cell reference for the scan: the running best after the cells
   * before `(r0 + i, c0 + j)` have been visited in row-major order, starting
   * from the window's first cell and moving only on a strictly larger value.
   */
  ghost function ScanUpTo(a: array2<int>, r0: int, c0: int, k: nat, i: nat, j: nat): Best
    reads a
    requires WindowFits(a, r0, c0, k) && j <= k && (i < k || (i == k && j == 0))
    decreases i, j
  {
    if j == 0 then
      if i == 0 then Best(Pos(r0, c0), a[r0, c0]) else ScanUpTo(a, r0, c0, k, i - 1, k)
    else
      var b := ScanUpTo(a, r0, c0, k, i, j - 1);
      var v := a[r0 + i, c0 + (j - 1)];
      if v > b.value then Best(Pos(r0 + i, c0 + (j - 1)), v) else b
  }

  /** Every prefix of the cell-by-cell scan holds the first maximum of the cells visited so far. */
  lemma {:induction false} ScanUpToScanned(a: array2<int>, r0: int, c0: int, k: nat, i: nat, j: nat)
    requires WindowFits(a, r0, c0, k) && j <= k && (i < k || (i == k && j == 0))
    ensures var b := ScanUpTo(a, r0, c0, k, i, j); ScannedFirstMax(a, r0, c0, k, i, j, b.pos, b.value)
    decreases i, j
  {
    if j == 0 && i == 0 {
      ScanStart(a, r0, c0, k);
    } else if j == 0 {
      ScanUpToScanned(a, r0, c0, k, i - 1, k);
      ScanUpToNextRow(a, r0, c0, k, i);
    } else {
      ScanUpToScanned(a, r0, c0, k, i, j - 1);
      ScanUpToVisit(a, r0, c0, k, i, j);
    }
  }

  /** One unfolding of `ScanUpTo` at the start of a row keeps the scan state. */
  lemma ScanUpToNextRow(a: array2<int>, r0: int, c0: int, k: nat, i: nat)
    requires WindowFits(a, r0, c0, k) && 0 < i <= k
    requires var b := ScanUpTo(a, r0, c0, k, i - 1, k); ScannedFirstMax(a, r0, c0, k, i - 1, k, b.pos, b.value)
    ensures var b := ScanUpTo(a, r0, c0, k, i, 0); ScannedFirstMax(a, r0, c0, k, i, 0, b.pos, b.value)
  {
    var b := ScanUpTo(a, r0, c0, k, i - 1, k);
    ScanNextRow(a, r0, c0, k, i - 1, b.pos, b.value);
    assert ScanUpTo(a, r0, c0, k, i, 0) == b;
  }

  /** One unfolding of `ScanUpTo` at a visited cell keeps the scan state. */
  lemma ScanUpToVisit(a: array2<int>, r0: int, c0: int, k: nat, i: nat, j: nat)
    requires WindowFits(a, r0, c0, k) && 0 < j <= k && i < k
    requires var b := ScanUpTo(a, r0, c0, k, i, j - 1); ScannedFirstMax(a, r0, c0, k, i, j - 1, b.pos, b.value)
    ensures var b := ScanUpTo(a, r0, c0, k, i, j); ScannedFirstMax(a, r0, c0, k, i, j, b.pos, b.value)
  {
    var b := ScanUpTo(a, r0, c0, k, i, j - 1);
    var b' := ScanUpTo(a, r0, c0, k, i, j);
    var v := a[r0 + i, c0 + (j - 1)];
    if v > b.value {
      ScanMove(a, r0, c0, k, i, j - 1, b.pos, b.value);
      assert b' == Best(Pos(r0 + i, c0 + (j - 1)), v);
    } else {
      ScanKeep(a, r0, c0, k, i, j - 1, b.pos, b.value);
      assert b' == b;
    }
    assert ScannedFirstMax(a, r0, c0, k, i, j, b'.pos, b'.value);
  }

  /**
   * The cell-by-cell scan and the row-by-row reference agree: after the whole
   * window the scan holds its first maximum, at `FirstMaxPos` with value `WindowMax`.
   */
  lemma ScanFindsFirstMax(a: array2<int>, r0: int, c0: int, k: nat)
    requires WindowFits(a, r0, c0, k)
    ensures var b := ScanUpTo(a, r0, c0, k, k, 0);
      && IsFirstMaxIn(a, r0, r0 + k, c0, k, b.pos, b.value)
      && b.pos == FirstMaxPos(a, r0, c0, k) && b.value == WindowMax(a, r0, c0, k)
  {
    ScanUpToScanned(a, r0, c0, k, k, 0);
    var b := ScanUpTo(a, r0, c0, k, k, 0);
    assert IsFirstMaxIn(a, r0, r0 + k, c0, k, b.pos, b.value);
    WindowFirstMax(a, r0, c0, k);
    FirstMaxUnique(a, r0, r0 + k, c0, k, b.pos, b.value, FirstMaxPos(a, r0, c0, k), WindowMax(a, r0, c0, k));
  }

  /**
   * The pooling scan: visits the `poolSize x poolSize` window at
   * `(startRow, startCol)` row by row, collects the visited values, and keeps
   * the largest value and its position, replacing them only on a strictly
   * larger value. The scan starts from the window's first cell, which is what
   * a start from minus infinity leaves after the first step.
   */
  method ScanWindow(a: array2<int>, startRow: int, startCol: int, poolSize: nat)
    returns (maxValue: int, maxPos: Pos, values: seq<int>)
    requires WindowFits(a, startRow, startCol, poolSize)
    ensures values == WindowValues(a, startRow, startCol, poolSize, poolSize)
    ensures |values| == poolSize * poolSize
    ensures maxValue == WindowMax(a, startRow, startCol, poolSize) == SeqMax(values)
    ensures maxPos == FirstMaxPos(a, startRow, startCol, poolSize)
    ensures IsFirstMaxIn(a, startRow, startRow + poolSize, startCol, poolSize, maxPos, maxValue)
  {
    maxValue := a[startRow, startCol];
    maxPos := Pos(startRow, startCol);
    values := [];
    var i := 0;
    while i < poolSize
      invariant 0 <= i <= poolSize
      invariant values == WindowValues(a, startRow, startCol, poolSize, i)
      invariant Best(maxPos, maxValue) == ScanUpTo(a, startRow, startCol, poolSize, i, 0)
    {
      var j := 0;
      while j < poolSize
        invariant 0 <= j <= poolSize
        invariant values == WindowValues(a, startRow, startCol, poolSize, i)
                            + RowValues(a, startRow + i, startCol, j)
        invariant Best(maxPos, maxValue) == ScanUpTo(a, startRow, startCol, poolSize, i, j)
      {
        var value := a[startRow + i, startCol + j];
        values := values + [value];
        if value > maxValue {
          maxValue := value;
          maxPos := Pos(startRow + i, startCol + j);
        }
        j := j + 1;
      }
      assert WindowValues(a, startRow, startCol, poolSize, i + 1)
          == WindowValues(a, startRow, startCol, poolSize, i) + RowValues(a, startRow + i, startCol, poolSize);
      i := i + 1;
    }
    WindowValuesLength(a, startRow, startCol, poolSize, poolSize);
    ScanFindsFirstMax(a, startRow, startCol, poolSize);
  }

  /**
   * A window holding a tie, `[[3, 7], [7, 2]]`: the scan lists `3, 7, 7, 2`,
   * returns 7, and reports the first 7 in row-major order, at `(0, 1)`.
   */
  method TieKeepsFirst() returns (maxValue: int, maxPos: Pos, values: seq<int>)
    ensures values == [3, 7, 7, 2]
    ensures maxValue == 7 && maxPos == Pos(0, 1)
  {
    var a := new int[2, 2];
    a[0, 0], a[0, 1], a[1, 0], a[1, 1] := 3, 7, 7, 2;
    maxValue, maxPos, values := ScanWindow(a, 0, 0, 2);
    assert a[0, 1] <= maxValue && a[maxPos.row, maxPos.col] == maxValue;
    assert !Before(Pos(0, 1), maxPos);
    assert RowValues(a, 0, 0, 2) == [3, 7] && RowValues(a, 1, 0, 2) == [7, 2];
    assert WindowValues(a, 0, 0, 2, 1) == [3, 7];
  }

  /**
   * The demo's state. The configuration is fixed at construction; the cursor
   * `(currentRow, currentCol)` names an output cell; `inputMatrix` holds the
   * data and `outputMatrix` the pooled results computed so far.
   */
  class MaxPoolingDemo {
    const poolSize: nat
    const inputSize: nat
    const outputSize: nat
    const stride: nat
    var currentRow: int
    var currentCol: int
    var inputMatrix: array2<int>
    var outputMatrix: array2<Cell>

    /** Windows do not overlap and tile the input exactly. */
    ghost predicate Configured()
    {
      && 0 < poolSize == stride
      && 0 < outputSize && outputSize * stride == inputSize
    }

    /** The grids have their configured sizes. */
    ghost predicate Sized()
      reads this
    {
      && Configured()
      && inputMatrix.Length0 == inputSize && inputMatrix.Length1 == inputSize
      && outputMatrix.Length0 == outputSize && outputMatrix.Length1 == outputSize
    }

    /** The class invariant: configured, sized, and the cursor names an output cell. */
    ghost predicate Valid()
      reads this
    {
      && Sized()
      && 0 <= currentRow < outputSize && 0 <= currentCol < outputSize
    }

    /** The window of output cell `(row, col)` lies inside the input grid. */
    lemma WindowOfFits(row: int, col: int)
      requires Valid() && 0 <= row < outputSize && 0 <= col < outputSize
      ensures WindowFits(inputMatrix, row * stride, col * stride, poolSize)
    {
      WindowInBounds(row, outputSize, stride, poolSize, inputSize);
      WindowInBounds(col, outputSize, stride, poolSize, inputSize);
    }

    /** The pooled value of output cell `(row, col)`: the maximum of its window. */
    ghost function PoolAt(row: int, col: int): int
      reads this, inputMatrix
      requires Valid() && 0 <= row < outputSize && 0 <= col < outputSize
    {
      WindowOfFits(row, col);
      WindowMax(inputMatrix, row * stride, col * stride, poolSize)
    }

    /** Every output cell is blank except `(row, col)`, which holds its pooled value. */
    ghost predicate ShowsOnly(row: int, col: int)
      reads this, inputMatrix, outputMatrix
      requires Valid() && 0 <= row < outputSize && 0 <= col < outputSize
    {
      && outputMatrix[row, col] == Value(PoolAt(row, col))
      && forall r, c :: 0 <= r < outputSize && 0 <= c < outputSize && (r != row || c != col) ==>
           outputMatrix[r, c] == Unset
    }

    /**
     * Builds the demo with the fixed 2 x 2, stride 2, 8 x 8 configuration, fills
     * the input from `draws` (the random values) and pools the first window.
     */
    constructor(draws: seq<seq<int>>)
      requires IsRandomFill(draws, DefaultInputSize)
      ensures Valid()
      ensures poolSize == DefaultPoolSize && inputSize == DefaultInputSize
      ensures outputSize == DefaultOutputSize && stride == DefaultStride
      ensures currentRow == 0 && currentCol == 0
      ensures fresh(inputMatrix) && fresh(outputMatrix)
      ensures forall i, j :: 0 <= i < inputSize && 0 <= j < inputSize ==> inputMatrix[i, j] == draws[i][j]
      ensures ShowsOnly(0, 0)
    {
      poolSize := DefaultPoolSize;
      inputSize := DefaultInputSize;
      outputSize := DefaultOutputSize;
      stride := DefaultStride;
      currentRow := 0;
      currentCol := 0;
      inputMatrix := new int[0, 0];
      outputMatrix := new Cell[0, 0];
      new;
      GenerateRandomData(draws);
      var _, _, _ := PerformMaxPooling();
    }

    /**
     * Replaces the input with a fresh `inputSize x inputSize` grid holding
     * `draws` and the output with a fresh, all-blank `outputSize x outputSize` grid.
     */
    method GenerateRandomData(draws: seq<seq<int>>)
      requires Configured()
      requires IsRandomFill(draws, inputSize)
      modifies this`inputMatrix, this`outputMatrix
      ensures Sized()
      ensures fresh(inputMatrix) && fresh(outputMatrix)
      ensures forall i, j :: 0 <= i < inputSize && 0 <= j < inputSize ==> inputMatrix[i, j] == draws[i][j]
      ensures forall r, c :: 0 <= r < outputSize && 0 <= c < outputSize ==> outputMatrix[r, c] == Unset
    {
      var input := new int[inputSize, inputSize];
      var i := 0;
      while i < inputSize
        invariant 0 <= i <= inputSize
        invariant forall r, c :: 0 <= r < i && 0 <= c < inputSize ==> input[r, c] == draws[r][c]
      {
        var j := 0;
        while j < inputSize
          invariant 0 <= j <= inputSize
          invariant forall r, c :: 0 <= r < i && 0 <= c < inputSize ==> input[r, c] == draws[r][c]
          invariant forall c :: 0 <= c < j ==> input[i, c] == draws[i][c]
        {
          input[i, j] := draws[i][j];
          j := j + 1;
        }
        i := i + 1;
      }
      inputMatrix := input;
      outputMatrix := new Cell[outputSize, outputSize];
      BlankOutput();
    }

    /** Sets every output cell to blank, row by row. */
    method BlankOutput()
      requires outputMatrix.Length0 == outputSize && outputMatrix.Length1 == outputSize
      modifies outputMatrix
      ensures forall r, c :: 0 <= r < outputSize && 0 <= c < outputSize ==> outputMatrix[r, c] == Unset
    {
      var i := 0;
      while i < outputSize
        invariant 0 <= i <= outputSize
        invariant forall r, c :: 0 <= r < i && 0 <= c < outputSize ==> outputMatrix[r, c] == Unset
      {
        var j := 0;
        while j < outputSize
          invariant 0 <= j <= outputSize
          invariant forall r, c :: 0 <= r < i && 0 <= c < outputSize ==> outputMatrix[r, c] == Unset
          invariant forall c :: 0 <= c < j ==> outputMatrix[i, c] == Unset
        {
          outputMatrix[i, j] := Unset;
          j := j + 1;
        }
        i := i + 1;
      }
    }

    /**
     * Pools the window under the cursor and writes its maximum into the
     * cursor's output cell. Returns what the calculation panel shows: the
     * maximum, where it was found (first in row-major order on ties) and the
     * window's values in scan order.
     */
    method PerformMaxPooling() returns (maxValue: int, maxPos: Pos, values: seq<int>)
      requires Valid()
      modifies outputMatrix
      ensures Valid()
      ensures maxValue == PoolAt(currentRow, currentCol)
      ensures WindowFits(inputMatrix, currentRow * stride, currentCol * stride, poolSize)
      ensures values == WindowValues(inputMatrix, currentRow * stride, currentCol * stride, poolSize, poolSize)
      ensures |values| == poolSize * poolSize && maxValue == SeqMax(values)
      ensures maxPos == FirstMaxPos(inputMatrix, currentRow * stride, currentCol * stride, poolSize)
      ensures IsFirstMaxIn(inputMatrix, currentRow * stride, currentRow * stride + poolSize,
                           currentCol * stride, poolSize, maxPos, maxValue)
      ensures outputMatrix[currentRow, currentCol] == Value(maxValue)
      ensures forall r, c :: 0 <= r < outputSize && 0 <= c < outputSize && (r != currentRow || c != currentCol) ==>
                outputMatrix[r, c] == old(outputMatrix[r, c])
    {
      var startRow := currentRow * stride;
      var startCol := currentCol * stride;
      WindowOfFits(currentRow, currentCol);
      maxValue, maxPos, values := ScanWindow(inputMatrix, startRow, startCol, poolSize);
      outputMatrix[currentRow, currentCol] := Value(maxValue);
    }

    /**
     * Moves the cursor by `(deltaRow, deltaCol)` and pools the new window when
     * the target is an output cell; otherwise changes nothing.
     */
    method MovePool(deltaRow: int, deltaCol: int)
      requires Valid()
      modifies this`currentRow, this`currentCol, outputMatrix
      ensures Valid()
      ensures var newRow, newCol := old(currentRow) + deltaRow, old(currentCol) + deltaCol;
        if 0 <= newRow < outputSize && 0 <= newCol < outputSize then
          && currentRow == newRow && currentCol == newCol
          && outputMatrix[currentRow, currentCol] == Value(PoolAt(currentRow, currentCol))
          && forall r, c :: 0 <= r < outputSize && 0 <= c < outputSize && (r != newRow || c != newCol) ==>
               outputMatrix[r, c] == old(outputMatrix[r, c])
        else
          && currentRow == old(currentRow) && currentCol == old(currentCol)
          && forall r, c :: 0 <= r < outputSize && 0 <= c < outputSize ==>
               outputMatrix[r, c] == old(outputMatrix[r, c])
    {
      var newRow := currentRow + deltaRow;
      var newCol := currentCol + deltaCol;
      if newRow >= 0 && newRow < outputSize && newCol >= 0 && newCol < outputSize {
        currentRow := newRow;
        currentCol := newCol;
        var _, _, _ := PerformMaxPooling();
      }
    }

    /** Returns the cursor to `(0, 0)`, blanks the output and pools the first window. */
    method Reset()
      requires Valid()
      modifies this`currentRow, this`currentCol, outputMatrix
      ensures Valid()
      ensures currentRow == 0 && currentCol == 0
      ensures ShowsOnly(0, 0)
    {
      currentRow := 0;
      currentCol := 0;
      BlankOutput();
      var _, _, _ := PerformMaxPooling();
    }

    /**
     * Replaces the input with `draws` (the new random values), returns the
     * cursor to `(0, 0)`, and pools the first window into a blank output.
     */
    method RandomizeData(draws: seq<seq<int>>)
      requires Valid()
      requires IsRandomFill(draws, inputSize)
      modifies this`inputMatrix, this`outputMatrix, this`currentRow, this`currentCol
      ensures Valid()
      ensures currentRow == 0 && currentCol == 0
      ensures fresh(inputMatrix) && fresh(outputMatrix)
      ensures forall i, j :: 0 <= i < inputSize && 0 <= j < inputSize ==> inputMatrix[i, j] == draws[i][j]
      ensures ShowsOnly(0, 0)
    {
      GenerateRandomData(draws);
      currentRow := 0;
      currentCol := 0;
      var _, _, _ := PerformMaxPooling();
    }
  }
}

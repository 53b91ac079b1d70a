/**
 * The depth-frame steps the Python processors share: a flat ToF buffer reshaped to 180×240,
 * upsampled by 2×2 blocks to the 360×480 frame, the centre third of that frame (columns 160
 * up to 320), and the filter that zeroes every depth more than 10% away from the mode depth.
 */
module DepthFrame {
  const ROWS := 360
  const COLS := 480
  const TOF_ROWS := 180
  const TOF_COLS := 240
  /** `CENTER_BOUNDS = (int(480 / 3), 2 * int(480 / 3))`. */
  const CENTER_START := 160
  const CENTER_END := 320

  datatype Option<T> = None | Some(value: T)

  type Grid = seq<seq<real>>

  predicate IsGrid(m: Grid, rows: nat, cols: nat) {
    |m| == rows && forall i :: 0 <= i < rows ==> |m[i]| == cols
  }

  function Abs(x: real): real {
    if x < 0.0 then -x else x
  }

  // ---------------------------------------------------------------------------------------
  // Reshape and upsample
  // ---------------------------------------------------------------------------------------

  /** Row i of a row-major buffer with `cols` values per row ends inside the buffer. */
  lemma RowBound(rows: nat, cols: nat, i: nat)
    requires i < rows
    ensures i * cols + cols <= rows * cols
  {
    assert (i + 1) * cols <= rows * cols;
  }

  /** Row i of a row-major buffer. */
  function RowAt(flat: seq<real>, rows: nat, cols: nat, i: nat): (row: seq<real>)
    requires |flat| == rows * cols && i < rows
    ensures |row| == cols
  {
    RowBound(rows, cols, i);
    flat[i * cols..i * cols + cols]
  }

  /** The rows of a row-major buffer, `cols` values each. */
  function RowsOf(flat: seq<real>, rows: nat, cols: nat): (m: Grid)
    requires |flat| == rows * cols
    ensures IsGrid(m, rows, cols)
  {
    seq(rows, i requires 0 <= i < rows => RowAt(flat, rows, cols, i))
  }

  /** `np.reshape`: a buffer of the wrong size raises ValueError, shown here as None. */
  function Reshape(flat: seq<real>, rows: nat, cols: nat): (m: Option<Grid>)
    ensures m.Some? <==> |flat| == rows * cols
    ensures m.Some? ==> IsGrid(m.value, rows, cols)
  {
    if |flat| == rows * cols then Some(RowsOf(flat, rows, cols)) else None
  }

  /** Concatenation of the rows, the inverse of `RowsOf`. */
  function Flatten(m: Grid): seq<real> {
    if m == [] then [] else m[0] + Flatten(m[1..])
  }

  /** Cell (i, j) of the reshaped grid is entry `i * cols + j` of the buffer. */
  lemma RowsOfRowMajor(flat: seq<real>, rows: nat, cols: nat, i: nat, j: nat)
    requires |flat| == rows * cols && i < rows && j < cols
    ensures i * cols + j < |flat|
    ensures RowsOf(flat, rows, cols)[i][j] == flat[i * cols + j]
  {
    RowBound(rows, cols, i);
  }

  /** Reshaping loses nothing: the rows put back together are the buffer. */
  lemma {:induction false} FlattenRowsOf(flat: seq<real>, rows: nat, cols: nat)
    requires |flat| == rows * cols
    ensures Flatten(RowsOf(flat, rows, cols)) == flat
    decreases rows
  {
    if rows > 0 {
      var m := RowsOf(flat, rows, cols);
      assert |flat[cols..]| == (rows - 1) * cols;
      var rest := RowsOf(flat[cols..], rows - 1, cols);
      forall i | 0 <= i < rows - 1
        ensures m[1..][i] == rest[i]
      {
        RowBound(rows - 1, cols, i);
        assert (i + 1) * cols == i * cols + cols;
      }
      assert m[1..] == rest;
      FlattenRowsOf(flat[cols..], rows - 1, cols);
      assert m[0] == flat[..cols];
      assert flat[..cols] + flat[cols..] == flat;
    }
  }

  /** Each value of a row twice. */
  function Widen(row: seq<real>): (out: seq<real>)
    ensures |out| == 2 * |row|
    ensures forall j :: 0 <= j < |row| ==> out[2 * j] == row[j] && out[2 * j + 1] == row[j]
  {
    if row == [] then [] else [row[0], row[0]] + Widen(row[1..])
  }

  /**
   * `np.kron(m, np.ones((2, 2)))`: every cell becomes a 2×2 block of its value, so the result
   * has twice the rows and twice the columns.
   */
  function Upsample(m: Grid): (out: Grid)
    ensures |out| == 2 * |m|
  {
    if m == [] then [] else [Widen(m[0]), Widen(m[0])] + Upsample(m[1..])
  }

  /** Row a of the grid becomes rows 2a and 2a + 1 of the upsampled grid, each widened. */
  lemma {:induction false} UpsampleRows(m: Grid, a: nat)
    requires a < |m|
    ensures Upsample(m)[2 * a] == Widen(m[a]) && Upsample(m)[2 * a + 1] == Widen(m[a])
  {
    if a > 0 {
      UpsampleRows(m[1..], a - 1);
    }
  }

  /** Every other row and column, starting at 0. */
  function Downsample(m: Grid): Grid {
    seq((|m| + 1) / 2, i requires 0 <= i < (|m| + 1) / 2 =>
      seq(|m[2 * i]| / 2, j requires 0 <= j < |m[2 * i]| / 2 => m[2 * i][2 * j]))
  }

  /** Keeping one cell of every 2×2 block gives the original back. */
  lemma DownsampleUpsample(m: Grid)
    ensures Downsample(Upsample(m)) == m
  {
    var d := Downsample(Upsample(m));
    forall i | 0 <= i < |m|
      ensures d[i] == m[i]
    {
      UpsampleRows(m, i);
      assert |d[i]| == |m[i]|;
    }
  }

  /** A 180×240 ToF grid upsamples to the 360×480 frame. */
  lemma UpsampleFrame(m: Grid)
    requires IsGrid(m, TOF_ROWS, TOF_COLS)
    ensures IsGrid(Upsample(m), ROWS, COLS)
  {
    var out := Upsample(m);
    forall i | 0 <= i < ROWS
      ensures |out[i]| == COLS
    {
      var k := i / 2;
      UpsampleRows(m, k);
      assert |out[2 * k]| == COLS && |out[2 * k + 1]| == COLS;
      assert i == 2 * k || i == 2 * k + 1;
    }
  }

  /**
   * A flat ToF buffer reshaped to 180×240 (`np.reshape`) and then `np.kron(depth, np.ones((2, 2)))`; a
   * buffer of another size makes numpy raise.
   */
  function TofFrame(depthArr: seq<real>): (frame: Option<Grid>)
    ensures frame.Some? <==> |depthArr| == TOF_ROWS * TOF_COLS
    ensures frame.Some? ==> IsGrid(frame.value, ROWS, COLS)
  {
    match Reshape(depthArr, TOF_ROWS, TOF_COLS)
    case None => None
    case Some(m) =>
      UpsampleFrame(m);
      Some(Upsample(m))
  }

  /** Each cell of the 2×2 block that cell (a, b) becomes holds its value. */
  lemma UpsampleCell(m: Grid, a: nat, b: nat, di: nat, dj: nat)
    requires a < |m| && b < |m[a]| && di <= 1 && dj <= 1
    ensures 2 * a + di < |Upsample(m)| && 2 * b + dj < |Upsample(m)[2 * a + di]|
    ensures Upsample(m)[2 * a + di][2 * b + dj] == m[a][b]
  {
    var out, row := Upsample(m), Widen(m[a]);
    UpsampleRows(m, a);
    var r := out[2 * a + di];
    assert r == row by {
      if di == 0 {
        assert r == out[2 * a];
      } else {
        assert r == out[2 * a + 1];
      }
    }
    var k := 2 * b + dj;
    assert row[k] == m[a][b] by {
      if dj == 0 {
        assert row[2 * b] == m[a][b];
      } else {
        assert row[2 * b + 1] == m[a][b];
      }
    }
  }

  /** Cell (i, j) of the frame is ToF sample (i / 2, j / 2) of the row-major buffer. */
  lemma TofFrameCell(depthArr: seq<real>, i: nat, j: nat)
    requires |depthArr| == TOF_ROWS * TOF_COLS && i < ROWS && j < COLS
    ensures (i / 2) * TOF_COLS + j / 2 < |depthArr|
    ensures TofFrame(depthArr).value[i][j] == depthArr[(i / 2) * TOF_COLS + j / 2]
  {
    var m := RowsOf(depthArr, TOF_ROWS, TOF_COLS);
    var a, b := i / 2, j / 2;
    assert i == 2 * a + i % 2 && j == 2 * b + j % 2;
    assert TofFrame(depthArr).value == Upsample(m);
    UpsampleCell(m, a, b, i % 2, j % 2);
    RowsOfRowMajor(depthArr, TOF_ROWS, TOF_COLS, a, b);
  }

  // ---------------------------------------------------------------------------------------
  // The centre third
  // ---------------------------------------------------------------------------------------

  predicate Wide(m: Grid) {
    forall i :: 0 <= i < |m| ==> |m[i]| >= CENTER_END
  }

  function Sum(s: seq<real>): real {
    if s == [] then 0.0 else Sum(s[..|s| - 1]) + s[|s| - 1]
  }

  /** `np.sum(depth[:, 160:320])`: rows are summed in order. */
  function CenterSum(m: Grid): real
    requires Wide(m)
  {
    if m == [] then 0.0 else CenterSum(m[..|m| - 1]) + Sum(m[|m| - 1][CENTER_START..CENTER_END])
  }

  predicate CenterAllZero(m: Grid)
    requires Wide(m)
  {
    forall i, j :: 0 <= i < |m| && CENTER_START <= j < CENTER_END ==> m[i][j] == 0.0
  }

  predicate NonNegative(m: Grid) {
    forall i, j :: 0 <= i < |m| && 0 <= j < |m[i]| ==> m[i][j] >= 0.0
  }

  /** A sum of non-negative values is 0 exactly when each is 0. */
  lemma {:induction false} SumZero(s: seq<real>)
    requires forall k :: 0 <= k < |s| ==> s[k] >= 0.0
    ensures Sum(s) >= 0.0
    ensures Sum(s) == 0.0 <==> forall k :: 0 <= k < |s| ==> s[k] == 0.0
  {
    if s != [] {
      SumZero(s[..|s| - 1]);
    }
  }

  /**
   * The missing-depth test: for depths, which are never negative, the centre sums to 0 exactly
   * when every centre entry is 0.
   */
  lemma {:induction false} CenterSumZero(m: Grid)
    requires Wide(m) && NonNegative(m)
    ensures CenterSum(m) >= 0.0
    ensures CenterSum(m) == 0.0 <==> CenterAllZero(m)
  {
    if m != [] {
      var init, last := m[..|m| - 1], m[|m| - 1];
      CenterSumZero(init);
      var row := last[CENTER_START..CENTER_END];
      SumZero(row);
      if CenterSum(m) == 0.0 {
        forall i, j | 0 <= i < |m| && CENTER_START <= j < CENTER_END
          ensures m[i][j] == 0.0
        {
          if i < |m| - 1 {
            assert m[i][j] == init[i][j];
          } else {
            assert m[i][j] == row[j - CENTER_START];
          }
        }
      }
    }
  }

  // ---------------------------------------------------------------------------------------
  // The mode filter
  // ---------------------------------------------------------------------------------------

  /** `np.abs(depth - mode_depth) > 0.1 * mode_depth` is false: the depth is kept. */
  predicate NearMode(d: real, mode: real) {
    Abs(d - mode) <= 0.1 * mode
  }

  /**
   * `depth_filtered[np.abs(depth - mode_depth) > depth_approx] = 0.0` on a copy: entries within
   * 10% of the mode stay, all others become 0.
   */
  function FilterNearMode(depth: Grid, mode: real): (out: Grid)
    ensures |out| == |depth| && forall i :: 0 <= i < |out| ==> |out[i]| == |depth[i]|
    ensures forall i, j :: 0 <= i < |depth| && 0 <= j < |depth[i]| ==>
      (NearMode(depth[i][j], mode) ==> out[i][j] == depth[i][j]) &&
      (!NearMode(depth[i][j], mode) ==> out[i][j] == 0.0)
  {
    seq(|depth|, i requires 0 <= i < |depth| =>
      seq(|depth[i]|, j requires 0 <= j < |depth[i]| =>
        if Abs(depth[i][j] - mode) > 0.1 * mode then 0.0 else depth[i][j]))
  }

  /** For a mode of at least 0 the test is the window [0.9 * mode, 1.1 * mode]. */
  lemma NearModeWindow(d: real, mode: real)
    requires mode >= 0.0
    ensures NearMode(d, mode) <==> mode * 0.9 <= d <= mode * 1.1
  {
  }

  /** Every non-zero entry left by the filter lies in the window around a non-negative mode. */
  lemma FilteredInWindow(depth: Grid, mode: real, i: nat, j: nat)
    requires mode >= 0.0 && i < |depth| && j < |depth[i]|
    requires FilterNearMode(depth, mode)[i][j] != 0.0
    ensures FilterNearMode(depth, mode)[i][j] == depth[i][j]
    ensures mode * 0.9 <= depth[i][j] <= mode * 1.1
  {
    NearModeWindow(depth[i][j], mode);
  }

  /** Filtering twice against the same mode changes nothing more. */
  lemma FilterIdempotent(depth: Grid, mode: real)
    requires mode >= 0.0
    ensures FilterNearMode(FilterNearMode(depth, mode), mode) == FilterNearMode(depth, mode)
  {
    var once := FilterNearMode(depth, mode);
    var twice := FilterNearMode(once, mode);
    forall i | 0 <= i < |depth|
      ensures twice[i] == once[i]
    {
      forall j | 0 <= j < |depth[i]|
        ensures twice[i][j] == once[i][j]
      {
        if once[i][j] == 0.0 {
          assert Abs(0.0 - mode) > 0.1 * mode || mode == 0.0;
        }
      }
    }
  }

  // ---------------------------------------------------------------------------------------
  // The mode bins and the points handed to PCA
  // ---------------------------------------------------------------------------------------

  /** `bins = np.arange(0.0, 5.0, 0.03)`: edges 0.03 apart from 0.0, the last one 4.98. */
  const BIN_COUNT := 167
  const BIN_WIDTH := 0.03

  /** The arange stops after 167 edges: 4.98 is below 5.0 and the next edge, 5.01, is not. */
  lemma BinCountOfArange()
    ensures BIN_WIDTH * (BIN_COUNT - 1) as real < 5.0 <= BIN_WIDTH * BIN_COUNT as real
  {
  }

  /**
   * `bins[k]`: Python indexes from the front for k >= 0 and from the back for k < 0; an index
   * outside [-167, 167) raises IndexError, shown as None.
   */
  function BinEdge(k: int): (edge: Option<real>)
    ensures edge.Some? <==> -BIN_COUNT <= k < BIN_COUNT
    ensures edge.Some? ==> 0.0 <= edge.value <= BIN_WIDTH * (BIN_COUNT - 1) as real
    ensures 0 <= k < BIN_COUNT ==> edge == Some(BIN_WIDTH * k as real)
  {
    if 0 <= k < BIN_COUNT then Some(BIN_WIDTH * k as real)
    else if -BIN_COUNT <= k < 0 then Some(BIN_WIDTH * (k + BIN_COUNT) as real)
    else None
  }

  /** `np.digitize(x, bins)`: how many edges are at or below x. */
  function Digitize(x: real): (i: int)
    ensures 0 <= i <= BIN_COUNT
  {
    if x < 0.0 then 0
    else
      var k := (x / BIN_WIDTH).Floor + 1;
      if k > BIN_COUNT then BIN_COUNT else k
  }

  /**
   * The bin of a depth is bracketed by its edges: `bins[i - 1] <= x < bins[i]`, and the index
   * is the past-the-end 167 exactly for depths of 4.98 m and more.
   */
  lemma DigitizeBrackets(x: real)
    requires x >= 0.0
    ensures 1 <= Digitize(x)
    ensures BIN_WIDTH * (Digitize(x) - 1) as real <= x
    ensures Digitize(x) < BIN_COUNT ==> x < BIN_WIDTH * Digitize(x) as real
    ensures Digitize(x) == BIN_COUNT <==> x >= BIN_WIDTH * (BIN_COUNT - 1) as real
  {
    var f := (x / BIN_WIDTH).Floor;
    assert f as real <= x / BIN_WIDTH < f as real + 1.0;
    assert BIN_WIDTH * f as real <= x < BIN_WIDTH * (f + 1) as real;
  }

  /**
   * `bins[digitize(x)]` for a depth x: IndexError exactly from 4.98 m on, otherwise the upper
   * edge of x's bin, at most 3 cm above x.
   */
  lemma ModeEdgeOfDepth(x: real)
    requires x >= 0.0
    ensures BinEdge(Digitize(x)).None? <==> x >= BIN_WIDTH * (BIN_COUNT - 1) as real
    ensures BinEdge(Digitize(x)).Some? ==> x < BinEdge(Digitize(x)).value <= x + BIN_WIDTH
  {
    DigitizeBrackets(x);
  }

  /** How many values of a sequence are positive. */
  function PositiveCount(s: seq<real>): (n: nat)
    ensures n <= |s|
  {
    if s == [] then 0 else PositiveCount(s[..|s| - 1]) + (if s[|s| - 1] > 0.0 then 1 else 0)
  }

  /**
   * `np.where(matrix[:, 160:320, 3] > 0)`: the number of centre points, one per positive
   * centre entry, that `get_rotate_angle` hands to PCA.
   */
  function CenterPositives(m: Grid): (n: nat)
    requires Wide(m)
    ensures n <= |m| * (CENTER_END - CENTER_START)
  {
    if m == [] then 0 else CenterPositives(m[..|m| - 1]) + PositiveCount(m[|m| - 1][CENTER_START..CENTER_END])
  }

  /** `PCA(n_components=2).fit(x)` raises ValueError on fewer than two samples. */
  const PCA_MIN_SAMPLES := 2

  lemma {:induction false} PositiveCountZero(s: seq<real>)
    ensures PositiveCount(s) == 0 <==> forall k :: 0 <= k < |s| ==> s[k] <= 0.0
  {
    if s != [] {
      PositiveCountZero(s[..|s| - 1]);
      assert forall k :: 0 <= k < |s| - 1 ==> s[..|s| - 1][k] == s[k];
    }
  }

  /** No point reaches PCA exactly when no centre entry is positive. */
  lemma {:induction false} CenterPositivesZero(m: Grid)
    requires Wide(m)
    ensures CenterPositives(m) == 0 <==>
      forall i, j :: 0 <= i < |m| && CENTER_START <= j < CENTER_END ==> m[i][j] <= 0.0
  {
    if m != [] {
      var init, last := m[..|m| - 1], m[|m| - 1];
      CenterPositivesZero(init);
      var row := last[CENTER_START..CENTER_END];
      PositiveCountZero(row);
      if CenterPositives(m) == 0 {
        forall i, j | 0 <= i < |m| && CENTER_START <= j < CENTER_END
          ensures m[i][j] <= 0.0
        {
          if i < |m| - 1 {
            assert m[i][j] == init[i][j];
          } else {
            assert m[i][j] == row[j - CENTER_START];
          }
        }
      }
    }
  }

  /**
   * A shallow centre leaves PCA nothing: when every centre depth is below 2.7 cm, each non-zero
   * one falls in bin 1, whose edge 0.03 m gives the window [0.027, 0.033] that keeps none of them.
   */
  lemma ShallowCentreLeavesNoPoints(m: Grid)
    requires Wide(m) && NonNegative(m)
    requires forall i, j :: 0 <= i < |m| && CENTER_START <= j < CENTER_END ==> m[i][j] < 0.027
    ensures forall i, j :: 0 <= i < |m| && CENTER_START <= j < CENTER_END && m[i][j] > 0.0 ==>
      Digitize(m[i][j]) == 1
    ensures BinEdge(1) == Some(0.03)
    ensures Wide(FilterNearMode(m, 0.03)) && CenterPositives(FilterNearMode(m, 0.03)) == 0
  {
    var f := FilterNearMode(m, 0.03);
    forall i, j | 0 <= i < |m| && CENTER_START <= j < CENTER_END && m[i][j] > 0.0
      ensures Digitize(m[i][j]) == 1
    {
      DigitizeBrackets(m[i][j]);
    }
    forall i, j | 0 <= i < |f| && CENTER_START <= j < CENTER_END
      ensures f[i][j] <= 0.0
    {
      assert !NearMode(m[i][j], 0.03);
    }
    CenterPositivesZero(f);
  }

  // ---------------------------------------------------------------------------------------
  // The percentage error of the offline scripts
  // ---------------------------------------------------------------------------------------

  /**
   * `abs(error) / width * 100`, where the error is a numpy float: a reference width of 0 does
   * not raise but gives `inf` (`nan` when the error is 0 as well) with a RuntimeWarning.
   * `None` stands for those two values.
   */
  function PercentError(error: real, width: real): (p: Option<real>)
    ensures p.None? <==> width == 0.0
    ensures p.Some? ==> p.value * width == Abs(error) * 100.0
    ensures p.Some? && width > 0.0 ==> p.value >= 0.0
  {
    if width == 0.0 then None else Some(Abs(error) / width * 100.0)
  }
}

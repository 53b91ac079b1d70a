/**
 * `RGBD_testing.py`, the offline accuracy test. Each capture's CSV lines are written cell by
 * cell into 180×240 depth and confidence matrices, which are upsampled; the non-zero centre
 * depths are counted and the most frequent one is taken as the trunk depth; the depths within
 * 10% of it are kept; the trunk's edges give a width, and its error against the sample's known
 * width is collected over every capture.
 */
module RgbdTesting {
  import opened DepthFrame
  import opened TrunkScan
  import CaptureIndex

  // ---------------------------------------------------------------------------------------
  // The matrix fill
  // ---------------------------------------------------------------------------------------

  /** One row of `np.genfromtxt(data_file, delimiter=',')`: x, y, depth, confidence. */
  datatype Point = Point(x: real, y: real, depth: real, conf: real)

  /** `astype(int)`: truncation toward zero. */
  function Truncate(r: real): (n: int)
    ensures Abs(n as real) <= Abs(r) < Abs(n as real) + 1.0
    ensures r >= 0.0 ==> n >= 0
  {
    if r >= 0.0 then r.Floor else -((-r).Floor)
  }

  /**
   * A numpy index into an axis of length n: from -n to n - 1, a negative index counting from the
   * end; anything else raises IndexError (None).
   */
  function AxisIndex(k: int, n: nat): (r: Option<nat>)
    ensures r.Some? <==> -(n as int) <= k < n
    ensures r.Some? ==> r.value < n && (k >= 0 ==> r.value == k) && (k < 0 ==> r.value == k + n)
  {
    if 0 <= k < n then Some(k) else if -(n as int) <= k < 0 then Some(k + n) else None
  }

  /** The line can be written into a 180×240 matrix. */
  predicate InBounds(p: Point) {
    AxisIndex(Truncate(p.y), TOF_ROWS).Some? && AxisIndex(Truncate(p.x), TOF_COLS).Some?
  }

  /** `m[data_y[i], data_x[i]]` is cell (i, j). */
  predicate Hits(p: Point, i: nat, j: nat) {
    AxisIndex(Truncate(p.y), TOF_ROWS) == Some(i) && AxisIndex(Truncate(p.x), TOF_COLS) == Some(j)
  }

  /** The last line that writes cell (i, j), if any. */
  function LastHit(points: seq<Point>, i: nat, j: nat): (r: Option<Point>)
    ensures r.Some? ==> r.value in points && Hits(r.value, i, j)
  {
    if points == [] then None
    else
      var last := points[|points| - 1];
      if Hits(last, i, j) then Some(last) else LastHit(points[..|points| - 1], i, j)
  }

  /** A cell of the confidence (`conf`) or depth matrix after the fill: its last write, or 0. */
  function Cell(points: seq<Point>, i: nat, j: nat, conf: bool): real {
    match LastHit(points, i, j)
    case None => 0.0
    case Some(p) => if conf then p.conf else p.depth
  }

  /** The confidence (`conf`) or depth matrix after the fill. */
  function Matrix(points: seq<Point>, conf: bool): (m: Grid)
    ensures IsGrid(m, TOF_ROWS, TOF_COLS)
  {
    seq(TOF_ROWS, i requires 0 <= i < TOF_ROWS =>
      seq(TOF_COLS, j requires 0 <= j < TOF_COLS => Cell(points, i, j, conf)))
  }

  /** A line that no later line overrides decides its cell. */
  lemma {:induction false} LastHitIs(points: seq<Point>, k: nat, i: nat, j: nat)
    requires k < |points| && Hits(points[k], i, j)
    requires forall m :: k < m < |points| ==> !Hits(points[m], i, j)
    ensures LastHit(points, i, j) == Some(points[k])
  {
    var n := |points| - 1;
    if k < n {
      var init := points[..n];
      assert forall m :: k < m < n ==> init[m] == points[m];
      LastHitIs(init, k, i, j);
    }
  }

  /** A cell no line hits stays 0. */
  lemma {:induction false} LastHitNone(points: seq<Point>, i: nat, j: nat)
    ensures LastHit(points, i, j).None? <==> forall m :: 0 <= m < |points| ==> !Hits(points[m], i, j)
  {
    if points != [] {
      var n := |points| - 1;
      var init := points[..n];
      LastHitNone(init, i, j);
      assert forall m :: 0 <= m < n ==> init[m] == points[m];
    }
  }

  /** The values of a 2-D array, row by row. */
  function Snapshot(a: array2<real>): (m: Grid)
    reads a
    ensures IsGrid(m, a.Length0, a.Length1)
    ensures forall i, j :: 0 <= i < a.Length0 && 0 <= j < a.Length1 ==> m[i][j] == a[i, j]
  {
    seq(a.Length0, i requires 0 <= i < a.Length0 reads a =>
      seq(a.Length1, j requires 0 <= j < a.Length1 reads a => a[i, j]))
  }

  /** Two grids of one shape with the same cells are equal. */
  lemma SameGrid(m: Grid, n: Grid, rows: nat, cols: nat)
    requires IsGrid(m, rows, cols) && IsGrid(n, rows, cols)
    requires forall i, j :: 0 <= i < rows && 0 <= j < cols ==> m[i][j] == n[i][j]
    ensures m == n
  {
    forall i | 0 <= i < rows
      ensures m[i] == n[i]
    {
    }
  }

  /**
   * The fill loop: both matrices start at 0 and every line, in order, writes its confidence and
   * depth at (y, x); a coordinate outside the matrix raises IndexError (None).
   */
  method FillMatrices(points: seq<Point>) returns (r: Option<(Grid, Grid)>)
    ensures r.None? <==> exists k :: 0 <= k < |points| && !InBounds(points[k])
    ensures r.Some? ==> r.value.0 == Matrix(points, true) && r.value.1 == Matrix(points, false)
  {
    var conf := new real[TOF_ROWS, TOF_COLS]((i, j) => 0.0);
    var depth := new real[TOF_ROWS, TOF_COLS]((i, j) => 0.0);
    for k := 0 to |points|
      invariant forall m :: 0 <= m < k ==> InBounds(points[m])
      invariant forall i, j :: 0 <= i < TOF_ROWS && 0 <= j < TOF_COLS ==>
        conf[i, j] == Cell(points[..k], i, j, true) && depth[i, j] == Cell(points[..k], i, j, false)
    {
      var p := points[k];
      var y, x := AxisIndex(Truncate(p.y), TOF_ROWS), AxisIndex(Truncate(p.x), TOF_COLS);
      if y.None? || x.None? {
        return None;
      }
      conf[y.value, x.value] := p.conf;
      depth[y.value, x.value] := p.depth;
      assert points[..k + 1][..k] == points[..k];
    }
    assert points[..|points|] == points;
    SameGrid(Snapshot(conf), Matrix(points, true), TOF_ROWS, TOF_COLS);
    SameGrid(Snapshot(depth), Matrix(points, false), TOF_ROWS, TOF_COLS);
    r := Some((Snapshot(conf), Snapshot(depth)));
  }

  // ---------------------------------------------------------------------------------------
  // The centre values
  // ---------------------------------------------------------------------------------------

  /** The non-zero values of a row, in order. */
  function NonZero(s: seq<real>): (r: seq<real>)
    ensures |r| <= |s|
    ensures forall v :: v in r <==> v in s && v != 0.0
  {
    if s == [] then []
    else
      var init, last := s[..|s| - 1], s[|s| - 1];
      assert s == init + [last];
      NonZero(init) + (if last != 0.0 then [last] else [])
  }

  /** The non-zero entries of columns 160 to 319, row by row. */
  function CenterValuesOf(m: Grid): seq<real>
    requires Wide(m)
  {
    if m == [] then []
    else CenterValuesOf(m[..|m| - 1]) + NonZero(m[|m| - 1][CENTER_START..CENTER_END])
  }

  /** A value is collected exactly when it is a non-zero entry of the centre third. */
  lemma {:induction false} CenterValuesMember(m: Grid, v: real)
    requires Wide(m)
    ensures v in CenterValuesOf(m) <==>
      v != 0.0 && exists i, j :: 0 <= i < |m| && CENTER_START <= j < CENTER_END && m[i][j] == v
  {
    if m != [] {
      var n := |m| - 1;
      var init, row := m[..n], m[n][CENTER_START..CENTER_END];
      CenterValuesMember(init, v);
      assert CenterValuesOf(m) == CenterValuesOf(init) + NonZero(row);
      assert v in CenterValuesOf(m) <==> v in CenterValuesOf(init) || (v in row && v != 0.0);
      assert v in row <==> exists j :: CENTER_START <= j < CENTER_END && m[n][j] == v by {
        if v in row {
          var j :| 0 <= j < |row| && row[j] == v;
          assert m[n][j + CENTER_START] == v;
        }
        if exists j :: CENTER_START <= j < CENTER_END && m[n][j] == v {
          var j :| CENTER_START <= j < CENTER_END && m[n][j] == v;
          assert row[j - CENTER_START] == v;
        }
      }
      InitCells(m, init, m[n], v);
    }
  }

  /** A centre entry of the matrix is one of its last row or one of the rows before. */
  lemma InitCells(m: Grid, init: Grid, last: seq<real>, v: real)
    requires Wide(m) && m != [] && init == m[..|m| - 1] && last == m[|m| - 1]
    ensures (exists i, j :: 0 <= i < |m| && CENTER_START <= j < CENTER_END && m[i][j] == v) <==>
      (exists i, j :: 0 <= i < |init| && CENTER_START <= j < CENTER_END && init[i][j] == v) ||
      (exists j :: CENTER_START <= j < CENTER_END && last[j] == v)
  {
    if exists i, j :: 0 <= i < |m| && CENTER_START <= j < CENTER_END && m[i][j] == v {
      var i, j :| 0 <= i < |m| && CENTER_START <= j < CENTER_END && m[i][j] == v;
      if i < |m| - 1 {
        assert init[i][j] == v;
      }
    }
  }

  /** One more column of the current row. */
  lemma NonZeroStep(row: seq<real>, j: nat)
    requires CENTER_START + j < |row|
    ensures NonZero(row[CENTER_START..CENTER_START + j + 1]) ==
      NonZero(row[CENTER_START..CENTER_START + j]) + (if row[CENTER_START + j] != 0.0 then [row[CENTER_START + j]] else [])
  {
    assert row[CENTER_START..CENTER_START + j + 1][..j] == row[CENTER_START..CENTER_START + j];
  }

  /** The nested loop collecting `depth_matrix_center_values`. */
  method CenterValues(m: Grid) returns (values: seq<real>)
    requires IsGrid(m, ROWS, COLS)
    ensures values == CenterValuesOf(m)
  {
    values := [];
    for i := 0 to ROWS
      invariant values == CenterValuesOf(m[..i])
    {
      ghost var before := values;
      for j := 0 to CENTER_START
        invariant values == before + NonZero(m[i][CENTER_START..CENTER_START + j])
      {
        NonZeroStep(m[i], j);
        var d := m[i][j + CENTER_START];
        if d != 0.0 {
          values := values + [d];
        }
      }
      assert m[..i + 1][..i] == m[..i];
    }
    assert m[..ROWS] == m;
  }

  // ---------------------------------------------------------------------------------------
  // The most frequent centre value
  // ---------------------------------------------------------------------------------------

  /** The distinct values in order of first appearance: the keys of the counting dict. */
  function Distinct(s: seq<real>): (d: seq<real>)
    ensures forall v :: v in d <==> v in s
  {
    if s == [] then []
    else
      var init, last := s[..|s| - 1], s[|s| - 1];
      assert s == init + [last];
      if last in Distinct(init) then Distinct(init) else Distinct(init) + [last]
  }

  /** The keys seen after a prefix of the values come first, in the same order. */
  lemma {:induction false} DistinctPrefix(s: seq<real>, k: nat)
    requires k <= |s|
    ensures Distinct(s[..k]) <= Distinct(s)
    decreases |s|
  {
    if k < |s| {
      var init := s[..|s| - 1];
      assert s[..k] == init[..k];
      DistinctPrefix(init, k);
    } else {
      assert s[..k] == s;
    }
  }

  /**
   * The `defaultdict(int)` loop: each value's counter, created at 0 the first time the value is
   * seen (which fixes the key order), goes up by one.
   */
  method Tally(values: seq<real>) returns (counts: map<real, nat>, order: seq<real>)
    ensures order == Distinct(values)
    ensures forall v :: v in counts <==> v in values
    ensures forall v :: v in counts ==> counts[v] == multiset(values)[v]
  {
    counts, order := map[], [];
    for i := 0 to |values|
      invariant order == Distinct(values[..i])
      invariant forall v :: v in counts <==> v in values[..i]
      invariant forall v :: v in counts ==> counts[v] == multiset(values[..i])[v]
    {
      var v := values[i];
      assert values[..i + 1] == values[..i] + [v];
      if v !in counts {
        counts := counts[v := 0];
        order := order + [v];
      }
      counts := counts[v := counts[v] + 1];
    }
    assert values[..|values|] == values;
  }

  /**
   * `max(d.items(), key=lambda x: x[1])`: the first key, in key order, whose count is largest.
   */
  method FirstMaximal(order: seq<real>, counts: map<real, nat>) returns (best: nat)
    requires |order| > 0 && forall m :: 0 <= m < |order| ==> order[m] in counts
    ensures best < |order|
    ensures forall m :: 0 <= m < |order| ==> counts[order[m]] <= counts[order[best]]
    ensures forall m :: 0 <= m < best ==> counts[order[m]] < counts[order[best]]
  {
    best := 0;
    for k := 1 to |order|
      invariant best < k
      invariant forall m :: 0 <= m < k ==> counts[order[m]] <= counts[order[best]]
      invariant forall m :: 0 <= m < best ==> counts[order[m]] < counts[order[best]]
    {
      if counts[order[k]] > counts[order[best]] {
        best := k;
      }
    }
  }

  /**
   * `most_occur_depth[0]`: a centre value occurring at least as often as any other and, among
   * those, the one seen first. With no centre value `max` raises ValueError (None).
   */
  method MostFrequent(values: seq<real>) returns (r: Option<real>)
    ensures r.None? <==> values == []
    ensures r.Some? ==> r.value in values
    ensures r.Some? ==> forall v :: v in values ==> multiset(values)[v] <= multiset(values)[r.value]
    ensures r.Some? ==> forall k :: 0 <= k < |values| && multiset(values)[values[k]] == multiset(values)[r.value] ==>
      r.value in values[..k + 1]
  {
    var counts, order := Tally(values);
    assert forall v :: v in counts <==> v in values;
    if |order| == 0 {
      assert forall v :: v !in values;
      return None;
    }
    forall m | 0 <= m < |order|
      ensures order[m] in counts
    {
      assert order[m] in Distinct(values);
    }
    var best := FirstMaximal(order, counts);
    var mid := order[best];
    forall v | v in values
      ensures multiset(values)[v] <= multiset(values)[mid]
    {
      var m :| 0 <= m < |order| && order[m] == v;
    }
    forall k | 0 <= k < |values| && multiset(values)[values[k]] == multiset(values)[mid]
      ensures mid in values[..k + 1]
    {
      DistinctPrefix(values, k + 1);
      var prefix := Distinct(values[..k + 1]);
      assert values[..k + 1][k] == values[k];
      var m :| 0 <= m < |prefix| && prefix[m] == values[k];
      assert order[m] == values[k];
      assert best <= m;
      assert order[best] == prefix[best];
    }
    r := Some(mid);
  }

  // ---------------------------------------------------------------------------------------
  // The depth window
  // ---------------------------------------------------------------------------------------

  /** `depth_min <= v <= depth_max` keeps an entry; every other entry is 0. */
  function Window(depth: Grid, lo: real, hi: real): (out: Grid)
    ensures |out| == |depth| && forall i :: 0 <= i < |out| ==> |out[i]| == |depth[i]|
    ensures forall i, j :: 0 <= i < |depth| && 0 <= j < |depth[i]| ==>
      (lo <= depth[i][j] <= hi ==> out[i][j] == depth[i][j]) &&
      (!(lo <= depth[i][j] <= hi) ==> out[i][j] == 0.0)
  {
    seq(|depth|, i requires 0 <= i < |depth| =>
      seq(|depth[i]|, j requires 0 <= j < |depth[i]| =>
        if lo <= depth[i][j] <= hi then depth[i][j] else 0.0))
  }

  /**
   * The window [mid·0.9, mid·1.1] keeps exactly what the app's filter keeps: for every mode,
   * negative ones included (whose window is empty), the two filters agree.
   */
  lemma WindowIsNearMode(depth: Grid, mid: real)
    ensures Window(depth, mid * (1.0 - 0.1), mid * (1.0 + 0.1)) == FilterNearMode(depth, mid)
  {
    var w, f := Window(depth, mid * (1.0 - 0.1), mid * (1.0 + 0.1)), FilterNearMode(depth, mid);
    forall i | 0 <= i < |depth|
      ensures w[i] == f[i]
    {
      forall j | 0 <= j < |depth[i]|
        ensures w[i][j] == f[i][j]
      {
        if mid >= 0.0 {
          NearModeWindow(depth[i][j], mid);
        }
      }
    }
  }

  /** The nested loop writing `depth_matrix_filtered`, which starts as zeros. */
  method WindowFilter(depth: Grid, mid: real) returns (filtered: Grid)
    requires IsGrid(depth, ROWS, COLS)
    ensures filtered == Window(depth, mid * (1.0 - 0.1), mid * (1.0 + 0.1))
  {
    var lo, hi := mid * (1.0 - 0.1), mid * (1.0 + 0.1);
    var out := new real[ROWS, COLS]((i, j) => 0.0);
    for i := 0 to ROWS
      invariant forall a, b :: 0 <= a < ROWS && 0 <= b < COLS ==>
        out[a, b] == if a < i && lo <= depth[a][b] <= hi then depth[a][b] else 0.0
    {
      for j := 0 to COLS
        invariant forall a, b :: 0 <= a < ROWS && 0 <= b < COLS ==>
          out[a, b] == if (a < i || (a == i && b < j)) && lo <= depth[a][b] <= hi then depth[a][b] else 0.0
      {
        if lo <= depth[i][j] <= hi {
          out[i, j] := depth[i][j];
        }
      }
    }
    filtered := Snapshot(out);
    SameGrid(filtered, Window(depth, lo, hi), ROWS, COLS);
  }

  // ---------------------------------------------------------------------------------------
  // run_sample
  // ---------------------------------------------------------------------------------------

  /** The depth matrix after the fill and the 2×2 `np.kron` upsampling. */
  function FrameOf(points: seq<Point>): (m: Grid)
    ensures IsGrid(m, ROWS, COLS)
  {
    UpsampleFrame(Matrix(points, false));
    Upsample(Matrix(points, false))
  }

  /** The values `run_sample` works out; it returns `(error, percent)` and plots the rest. */
  datatype Measurement = Measurement(
    depthMid: real, angle: real, left: nat, right: nat, estimated: real, error: real, percent: Option<real>)

  /**
   * How `run_sample` ends: IndexError from the fill, ValueError from `max` on no centre value,
   * or the measurement. A reference width of 0 does not raise: the percentage is then infinite
   * or undefined.
   */
  datatype Outcome = IndexError | NoCenterValues | Measured(m: Measurement)

  /** The first half of `run_sample`: the trunk depth, or how finding it fails. */
  datatype TrunkDepth = OutOfBounds | NoCenter | Mode(mid: real)

  /** Every point indexes the matrices. */
  predicate AllInBounds(points: seq<Point>) {
    forall k :: 0 <= k < |points| ==> InBounds(points[k])
  }

  /** `v` occurs in `c`, and no value occurs more often. */
  predicate IsMode(c: seq<real>, v: real) {
    v in c && forall u :: u in c ==> multiset(c)[u] <= multiset(c)[v]
  }

  /**
   * A measurement taken on `depth` around its own trunk depth: the upright angle, edges found
   * by the two scans of the rotated centre mask, the width estimated from them, and its error.
   */
  predicate Measures(depth: Grid, width: real, axisAngle: real, rotate: Rotation,
                     estimate: (real, int, real) -> real, m: Measurement)
    requires IsGrid(depth, ROWS, COLS)
  {
    m.angle == UprightAngle(axisAngle) &&
    m.estimated == estimate(m.depthMid, m.right - m.left, m.angle) &&
    m.error == m.estimated - width && m.percent == PercentError(m.error, width) &&
    Edges(rotate(CenterMask(FilterNearMode(depth, m.depthMid)), m.angle), m.left, m.right)
  }

  /**
   * Fill, upsample, collect the centre values and take the most frequent one.
   */
  method DepthMode(points: seq<Point>) returns (r: TrunkDepth)
    ensures r.OutOfBounds? <==> !AllInBounds(points)
    ensures r.NoCenter? <==> AllInBounds(points) && CenterValuesOf(FrameOf(points)) == []
    ensures r.Mode? ==> IsMode(CenterValuesOf(FrameOf(points)), r.mid)
  {
    var filled := FillMatrices(points);
    if filled.None? {
      return OutOfBounds;
    }
    var depth := Upsample(filled.value.1);
    assert depth == FrameOf(points);
    var centre := CenterValues(depth);
    var mode := MostFrequent(centre);
    if mode.None? {
      return NoCenter;
    }
    r := Mode(mode.value);
  }

  /**
   * The second half of `run_sample`: the window filter around the trunk depth, the angle, the
   * edges, the width and its error.
   */
  method Measure(depth: Grid, mid: real, width: real, axisAngle: real, rotate: Rotation,
                 estimate: (real, int, real) -> real)
    returns (r: Outcome)
    requires IsGrid(depth, ROWS, COLS)
    ensures r.Measured?
    ensures r.Measured? ==> r.m.depthMid == mid && Measures(depth, width, axisAngle, rotate, estimate, r.m)
  {
    var filtered := WindowFilter(depth, mid);
    WindowIsNearMode(depth, mid);
    var angle, left, right := UprightBoundaries(filtered, axisAngle, rotate);
    var estimated := estimate(mid, right - left, angle);
    var error := estimated - width;
    r := Measured(Measurement(mid, angle, left, right, estimated, error, PercentError(error, width)));
  }

  /**
   * `run_sample` of the test script. The principal-axis angle (sklearn), the rotation (scipy)
   * and `get_estimated_width` are parameters.
   */
  method RunSample(width: real, points: seq<Point>, axisAngle: real, rotate: Rotation,
                   estimate: (real, int, real) -> real)
    returns (r: Outcome)
    ensures r.IndexError? <==> !AllInBounds(points)
    ensures r.NoCenterValues? <==> AllInBounds(points) && CenterValuesOf(FrameOf(points)) == []
    ensures r.Measured? <==> AllInBounds(points) && CenterValuesOf(FrameOf(points)) != []
    ensures r.Measured? ==> IsMode(CenterValuesOf(FrameOf(points)), r.m.depthMid)
    ensures r.Measured? ==> Measures(FrameOf(points), width, axisAngle, rotate, estimate, r.m)
  {
    var trunk := DepthMode(points);
    match trunk
    case OutOfBounds => r := IndexError;
    case NoCenter => r := NoCenterValues;
    case Mode(mid) =>
      var depth := FrameOf(points);
      r := Measure(depth, mid, width, axisAngle, rotate, estimate);
  }

  // ---------------------------------------------------------------------------------------
  // The error summary
  // ---------------------------------------------------------------------------------------

  /** `SAMPLE_NUM_TO_WIDTH`, in its key order: sample number and measured width in metres. */
  const SAMPLE_WIDTHS: seq<(int, real)> := [
    (1, 0.24), (2, 0.22), (3, 0.32), (4, 0.1), (5, 0.08), (6, 0.15), (7, 0.16),
    (8, 0.17), (9, 0.26), (10, 0.08), (11, 0.33), (12, 0.25), (13, 0.32), (14, 0.11)]

  /** The runs of one sample: each of its listed captures, with the sample's width. */
  function SampleAttempts(sample: int, width: real, groups: map<int, seq<int>>): (a: seq<(int, int, real)>)
    ensures sample in groups ==> |a| == |groups[sample]|
    ensures sample !in groups ==> a == []
  {
    if sample in groups then
      seq(|groups[sample]|, k requires 0 <= k < |groups[sample]| => (sample, groups[sample][k], width))
    else []
  }

  /** Every run of the test loop, in order: samples in table order, captures in listing order. */
  function Attempts(table: seq<(int, real)>, groups: map<int, seq<int>>): seq<(int, int, real)> {
    if table == [] then []
    else
      var last := table[|table| - 1];
      Attempts(table[..|table| - 1], groups) + SampleAttempts(last.0, last.1, groups)
  }

  /**
   * `run` stands for `run_sample` on (sample, capture, width): None when it raises. The results
   * of the runs that returned, in order.
   */
  function Kept(attempts: seq<(int, int, real)>, run: (int, int, real) -> Option<(real, real)>): seq<(real, real)> {
    if attempts == [] then []
    else
      var last := attempts[|attempts| - 1];
      Kept(attempts[..|attempts| - 1], run) + (match run(last.0, last.1, last.2) case None => [] case Some(e) => [e])
  }

  function Firsts(results: seq<(real, real)>): seq<real> {
    seq(|results|, k requires 0 <= k < |results| => results[k].0)
  }

  function Seconds(results: seq<(real, real)>): seq<real> {
    seq(|results|, k requires 0 <= k < |results| => results[k].1)
  }

  /** A run is attempted for exactly the listed captures of the samples in the table. */
  lemma {:induction false} AttemptsMember(table: seq<(int, real)>, groups: map<int, seq<int>>,
                                          sample: int, capture: int, width: real)
    ensures (sample, capture, width) in Attempts(table, groups) <==>
      (sample, width) in table && sample in groups && capture in groups[sample]
  {
    if table != [] {
      var init, last := table[..|table| - 1], table[|table| - 1];
      assert table == init + [last];
      AttemptsMember(init, groups, sample, capture, width);
      var here := SampleAttempts(last.0, last.1, groups);
      if (sample, capture, width) in here {
        var k :| 0 <= k < |here| && here[k] == (sample, capture, width);
        assert groups[sample][k] == capture;
      }
      if last == (sample, width) && sample in groups && capture in groups[sample] {
        var k :| 0 <= k < |groups[sample]| && groups[sample][k] == capture;
        assert here[k] == (sample, capture, width);
      }
    }
  }

  /**
   * A run that raises is skipped: at most one result per run, one per run exactly when none
   * raises, and each result is the outcome of some run.
   */
  lemma {:induction false} KeptRuns(attempts: seq<(int, int, real)>, run: (int, int, real) -> Option<(real, real)>)
    ensures |Kept(attempts, run)| <= |attempts|
    ensures |Kept(attempts, run)| == |attempts| <==>
      forall k :: 0 <= k < |attempts| ==> run(attempts[k].0, attempts[k].1, attempts[k].2).Some?
    ensures forall e :: e in Kept(attempts, run) ==>
      exists k :: 0 <= k < |attempts| && run(attempts[k].0, attempts[k].1, attempts[k].2) == Some(e)
  {
    if attempts != [] {
      var n := |attempts| - 1;
      var init := attempts[..n];
      KeptRuns(init, run);
      assert forall k :: 0 <= k < n ==> init[k] == attempts[k];
      if |Kept(attempts, run)| == |attempts| {
        assert |Kept(init, run)| == n;
      }
    }
  }

  /** One more run: its result, if it returned, follows those before. */
  lemma KeptSnoc(attempts: seq<(int, int, real)>, a: (int, int, real), run: (int, int, real) -> Option<(real, real)>)
    ensures Kept(attempts + [a], run) ==
      Kept(attempts, run) + (match run(a.0, a.1, a.2) case None => [] case Some(e) => [e])
  {
    assert (attempts + [a])[..|attempts|] == attempts;
  }

  /** Appending a result appends its error and its percentage. */
  lemma FirstsSecondsSnoc(results: seq<(real, real)>, e: (real, real))
    ensures Firsts(results + [e]) == Firsts(results) + [e.0]
    ensures Seconds(results + [e]) == Seconds(results) + [e.1]
  {
  }

  /** The inner loop: every capture of one sample, in order. */
  method RunCaptures(sample: int, width: real, groups: map<int, seq<int>>, ghost done: seq<(int, int, real)>,
                     errors: seq<real>, psts: seq<real>, run: (int, int, real) -> Option<(real, real)>)
    returns (errors': seq<real>, psts': seq<real>)
    requires sample in groups
    requires errors == Firsts(Kept(done, run)) && psts == Seconds(Kept(done, run))
    ensures errors' == Firsts(Kept(done + SampleAttempts(sample, width, groups), run))
    ensures psts' == Seconds(Kept(done + SampleAttempts(sample, width, groups), run))
  {
    ghost var here := SampleAttempts(sample, width, groups);
    errors', psts' := errors, psts;
    ghost var results := Kept(done, run);
    assert done + here[..0] == done;
    for k := 0 to |groups[sample]|
      invariant results == Kept(done + here[..k], run)
      invariant errors' == Firsts(results) && psts' == Seconds(results)
    {
      assert done + here[..k + 1] == (done + here[..k]) + [(sample, groups[sample][k], width)];
      KeptSnoc(done + here[..k], (sample, groups[sample][k], width), run);
      var result := run(sample, groups[sample][k], width);
      if result.Some? {
        FirstsSecondsSnoc(results, result.value);
        errors' := errors' + [result.value.0];
        psts' := psts' + [result.value.1];
        results := results + [result.value];
      }
    }
    assert here[..|here|] == here;
  }

  /**
   * The test loop: for each sample of the table that was listed, each of its captures is run
   * and a run that raises is skipped, so the two lists always have the same length.
   */
  method Summarise(table: seq<(int, real)>, groups: map<int, seq<int>>, run: (int, int, real) -> Option<(real, real)>)
    returns (errors: seq<real>, psts: seq<real>)
    ensures |errors| == |psts| == |Kept(Attempts(table, groups), run)|
    ensures errors == Firsts(Kept(Attempts(table, groups), run))
    ensures psts == Seconds(Kept(Attempts(table, groups), run))
  {
    errors, psts := [], [];
    for i := 0 to |table|
      invariant errors == Firsts(Kept(Attempts(table[..i], groups), run))
      invariant psts == Seconds(Kept(Attempts(table[..i], groups), run))
    {
      var sample, width := table[i].0, table[i].1;
      assert table[..i + 1][..i] == table[..i];
      assert Attempts(table[..i + 1], groups) == Attempts(table[..i], groups) + SampleAttempts(sample, width, groups);
      if sample in groups {
        errors, psts := RunCaptures(sample, width, groups, Attempts(table[..i], groups), errors, psts, run);
      } else {
        assert Attempts(table[..i + 1], groups) == Attempts(table[..i], groups);
      }
    }
    assert table[..|table|] == table;
  }

  /**
   * The `__main__` block up to the error summary: the depth captures of the listing are grouped
   * by sample (a name that does not parse stops the script: None) and every sample of
   * `SAMPLE_NUM_TO_WIDTH` is run. The result is the two lists the summary is drawn from; they
   * are empty when nothing is listed or every run raises, and the summary statistics that
   * follow, which are not part of this model, raise on empty lists.
   */
  method TestSamples(names: seq<string>, run: (int, int, real) -> Option<(real, real)>)
    returns (r: Option<(seq<real>, seq<real>)>)
    ensures r.None? <==> CaptureIndex.Numbers(CaptureIndex.DepthCaptures(names)).None?
    ensures r.Some? ==>
      var kept := Kept(Attempts(SAMPLE_WIDTHS, CaptureIndex.Group(CaptureIndex.Numbers(CaptureIndex.DepthCaptures(names)).value)), run);
      r.value.0 == Firsts(kept) && r.value.1 == Seconds(kept)
  {
    var fileNames := CaptureIndex.DepthCaptures(names);
    var index := CaptureIndex.IndexCaptures(fileNames);
    if index.None? {
      return None;
    }
    var errors, psts := Summarise(SAMPLE_WIDTHS, index.value, run);
    r := Some((errors, psts));
  }
}

/**
 * `find_boundaries` and the upright-angle rule, repeated with the same text in the app's
 * processor, `improc.py`, `RGBD.py` and `RGBD_testing.py`. The rotated 0/1 mask of the centre
 * third is scanned column by column: a column counts when `np.bincount(column).argmax() == 1`.
 * The left edge is the first such column, the right edge the last, both offset by 160.
 */
module TrunkScan {
  import opened DepthFrame

  /** The rotated centre mask: rows of non-negative integers, as `np.bincount` needs. */
  type Mask = seq<seq<nat>>

  /** The scan reads columns 0 up to 160 of at least one row. */
  predicate Scannable(mask: Mask) {
    |mask| >= 1 && forall i :: 0 <= i < |mask| ==> |mask[i]| >= CENTER_START
  }

  /**
   * `scipy.ndimage.rotate` of the mask by an angle in degrees. The interpolation is not part of
   * this model; it only keeps at least the 160 columns the scan reads.
   */
  type ScannableMask = m: Mask | Scannable(m) witness [seq(CENTER_START, _ => 0)]

  type Rotation = (Mask, real) -> ScannableMask

  /** `(depth_filtered[:, 160:320] > 0) * 1`. */
  function CenterMask(filtered: Grid): (mask: Mask)
    requires Wide(filtered)
    ensures |mask| == |filtered|
    ensures forall i :: 0 <= i < |mask| ==> |mask[i]| == CENTER_START
    ensures forall i, j :: 0 <= i < |mask| && 0 <= j < CENTER_START ==>
      (mask[i][j] == 1 <==> filtered[i][j + CENTER_START] > 0.0) && mask[i][j] <= 1
  {
    seq(|filtered|, i requires 0 <= i < |filtered| =>
      seq(CENTER_START, j requires 0 <= j < CENTER_START =>
        if filtered[i][j + CENTER_START] > 0.0 then 1 else 0))
  }

  function Column(mask: Mask, j: nat): (col: seq<nat>)
    requires forall i :: 0 <= i < |mask| ==> j < |mask[i]|
    ensures |col| == |mask| && forall i :: 0 <= i < |mask| ==> col[i] == mask[i][j]
  {
    seq(|mask|, i requires 0 <= i < |mask| => mask[i][j])
  }

  /** `np.bincount(col)[v]`. */
  function Count(col: seq<nat>, v: nat): (n: nat)
    ensures n <= |col|
  {
    if col == [] then 0 else Count(col[..|col| - 1], v) + (if col[|col| - 1] == v then 1 else 0)
  }

  /**
   * `np.bincount(col).argmax() == 1`: argmax gives the first largest bin, so bin 1 wins when it
   * beats bin 0 strictly and no later bin beats it.
   */
  predicate MajorityOne(col: seq<nat>) {
    Count(col, 1) > Count(col, 0) && forall v :: v in col ==> Count(col, v) <= Count(col, 1)
  }

  predicate Qualifies(mask: Mask, j: nat)
    requires forall i :: 0 <= i < |mask| ==> j < |mask[i]|
  {
    MajorityOne(Column(mask, j))
  }

  /**
   * What both scans together establish: both edges are 0, or both lie in [160, 320) in order,
   * each on a qualifying column.
   */
  predicate Edges(mask: Mask, left: nat, right: nat)
    requires Scannable(mask)
  {
    (left == 0 <==> right == 0) && left <= right &&
    (left != 0 ==>
      CENTER_START <= left <= right < CENTER_END &&
      Qualifies(mask, left - CENTER_START) && Qualifies(mask, right - CENTER_START))
  }

  /** A value that occurs in a sequence has a positive count. */
  lemma {:induction false} CountPositive(col: seq<nat>, v: nat)
    requires v in col
    ensures Count(col, v) > 0
  {
    if col[|col| - 1] != v {
      assert v in col[..|col| - 1];
      CountPositive(col[..|col| - 1], v);
    }
  }

  /** For a 0/1 column the test is a strict majority of ones: ties go to 0. */
  lemma {:induction false} BinaryMajority(col: seq<nat>)
    requires forall i :: 0 <= i < |col| ==> col[i] <= 1
    ensures Count(col, 0) + Count(col, 1) == |col|
    ensures MajorityOne(col) <==> 2 * Count(col, 1) > |col|
  {
    if col != [] {
      BinaryMajority(col[..|col| - 1]);
    }
  }

  /**
   * The left scan: `left_boundary` stays 0 unless some column in [0, 160) has majority 1, and
   * is then 160 plus the first such column.
   */
  method LeftBoundary(mask: Mask) returns (left: nat)
    requires Scannable(mask)
    ensures left == 0 <==> forall j :: 0 <= j < CENTER_START ==> !Qualifies(mask, j)
    ensures left != 0 ==> CENTER_START <= left < CENTER_END && Qualifies(mask, left - CENTER_START)
    ensures left != 0 ==> forall j :: 0 <= j < left - CENTER_START ==> !Qualifies(mask, j)
  {
    left := 0;
    for j := 0 to CENTER_START
      invariant left == 0
      invariant forall k :: 0 <= k < j ==> !Qualifies(mask, k)
    {
      if MajorityOne(Column(mask, j)) {
        assert Qualifies(mask, j);
        left := j + CENTER_START;
        break;
      }
    }
  }

  /** The right scan: from column 159 down, 160 plus the last column with majority 1, or 0. */
  method RightBoundary(mask: Mask) returns (right: nat)
    requires Scannable(mask)
    ensures right == 0 <==> forall j :: 0 <= j < CENTER_START ==> !Qualifies(mask, j)
    ensures right != 0 ==> CENTER_START <= right < CENTER_END && Qualifies(mask, right - CENTER_START)
    ensures right != 0 ==> forall j :: right - CENTER_START < j < CENTER_START ==> !Qualifies(mask, j)
  {
    right := 0;
    for j := CENTER_START downto 0
      invariant right == 0
      invariant forall k :: j <= k < CENTER_START ==> !Qualifies(mask, k)
    {
      if MajorityOne(Column(mask, j)) {
        assert Qualifies(mask, j);
        right := j + CENTER_START;
        break;
      }
    }
  }

  /**
   * Both scans of `find_boundaries`: either no column qualifies and both edges are 0, or both
   * are in [160, 320) and the left edge is not right of the right edge.
   */
  method Boundaries(mask: Mask) returns (left: nat, right: nat)
    requires Scannable(mask)
    ensures left == 0 <==> right == 0
    ensures left == 0 <==> forall j :: 0 <= j < CENTER_START ==> !Qualifies(mask, j)
    ensures left != 0 ==> CENTER_START <= left <= right < CENTER_END
    ensures left != 0 ==> Qualifies(mask, left - CENTER_START) && Qualifies(mask, right - CENTER_START)
    ensures forall j :: 0 <= j < CENTER_START && Qualifies(mask, j) ==>
      left <= j + CENTER_START <= right
  {
    left := LeftBoundary(mask);
    right := RightBoundary(mask);
  }

  /**
   * `get_rotate_angle` of `improc.py`, `RGBD.py` and `RGBD_testing.py`, from the angle in degrees
   * of the first principal axis: an angle within 10 degrees of +90 or -90 is moved by 90 degrees
   * towards 0, whichever way is shorter (a - 90 on a tie); any other angle gets 180 added.
   */
  function UprightAngle(a: real): (r: real)
    ensures 80.0 < Abs(a) < 100.0 ==>
      -10.0 < r < 10.0 && (r == a - 90.0 || r == a + 90.0) &&
      Abs(r) <= Abs(a - 90.0) && Abs(r) <= Abs(a + 90.0)
    ensures !(80.0 < Abs(a) < 100.0) ==> r == a + 180.0
  {
    if 80.0 < Abs(a) < 100.0 then
      var first, second := a - 90.0, a + 90.0;
      if Abs(first) <= Abs(second) then first else second
    else
      a + 180.0
  }

  /**
   * `find_boundaries` of `improc.py` and `RGBD.py`: the angle from the principal axis, then both
   * scans over the rotated centre mask of the filtered depth.
   */
  method UprightBoundaries(filtered: Grid, axisAngle: real, rotate: Rotation)
    returns (angle: real, left: nat, right: nat)
    requires Wide(filtered)
    ensures angle == UprightAngle(axisAngle)
    ensures left == 0 <==> forall j :: 0 <= j < CENTER_START ==> !Qualifies(rotate(CenterMask(filtered), angle), j)
    ensures left == 0 <==> right == 0
    ensures left != 0 ==> CENTER_START <= left <= right < CENTER_END
    ensures left != 0 ==>
      Qualifies(rotate(CenterMask(filtered), angle), left - CENTER_START) &&
      Qualifies(rotate(CenterMask(filtered), angle), right - CENTER_START)
  {
    angle := UprightAngle(axisAngle);
    left, right := Boundaries(rotate(CenterMask(filtered), angle));
  }
}

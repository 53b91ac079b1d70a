/**
 * `processor.py`, the trunk measurement the app runs on a 360×480 depth frame: it refuses a
 * frame whose centre third holds no depth, zeroes the depths more than 10% away from the mode
 * depth, picks a rotation from the two angles PCA's components give and scans for the trunk's edges.
 */
module Processor {
  import opened DepthFrame
  import opened TrunkScan

  /**
   * `process` raises MissingDepthError, or IndexError at `bins[...]` when the modal bin is past
   * the last edge, or ValueError from PCA when fewer than two centre points survive the
   * filter; otherwise it returns its five results.
   */
  datatype Outcome = MissingDepth | BinIndexError | TooFewPoints | Measured(m: Measurement)

  /** The tuple `(angle, left, right, mode_depth, estimated_width)`, in that order. */
  datatype Measurement = Measurement(angle: real, left: nat, right: nat, modeDepth: real, width: real)

  /** `np.mod(a, 180)` on a float: the remainder of flooring division, in [0, 180). */
  function Mod180(a: real): (r: real)
    ensures 0.0 <= r < 180.0
    ensures a - r == 180.0 * ((a - r) / 180.0).Floor as real
  {
    a - 180.0 * (a / 180.0).Floor as real
  }

  /** An angle and the same angle plus a whole number of half turns reduce alike. */
  lemma Mod180Periodic(a: real, k: int)
    ensures Mod180(a + 180.0 * k as real) == Mod180(a)
  {
    assert (a + 180.0 * k as real) / 180.0 == a / 180.0 + k as real;
    assert ((a + 180.0 * k as real) / 180.0).Floor == (a / 180.0).Floor + k;
  }

  /** An angle already in [0, 180) is its own reduction. */
  lemma Mod180Reduced(a: real)
    requires 0.0 <= a < 180.0
    ensures Mod180(a) == a
  {
    assert (a / 180.0).Floor == 0;
  }

  /**
   * `get_rotate_angle`. `first` and `second` are the two entries of
   * `np.rad2deg(np.arctan2(*pca.components_))`: entry j is the angle of
   * `(components_[0][j], components_[1][j])`, a COLUMN of the component matrix, not one
   * eigenvector. Both are reduced into [0, 180); the first is used when it is less than 60
   * degrees from vertical, otherwise the second; the result is 90 minus the chosen one.
   */
  function RotateAngle(first: real, second: real): (angle: real)
    ensures -90.0 < angle <= 90.0
    ensures Abs(90.0 - Mod180(first)) < 60.0 ==> angle == 90.0 - Mod180(first) && -60.0 < angle < 60.0
    ensures !(Abs(90.0 - Mod180(first)) < 60.0) ==> angle == 90.0 - Mod180(second)
  {
    var a0, a1 := Mod180(first), Mod180(second);
    var chosen := if Abs(90.0 - a0) < 60.0 then a0 else a1;
    90.0 - chosen
  }

  /** Adding a multiple of 180 degrees to either entry leaves the rotation unchanged. */
  lemma RotateAngleAxis(first: real, second: real, k0: int, k1: int)
    ensures RotateAngle(first + 180.0 * k0 as real, second + 180.0 * k1 as real) == RotateAngle(first, second)
  {
    Mod180Periodic(first, k0);
    Mod180Periodic(second, k1);
  }

  /**
   * `find_boundaries`: the angle from the two `arctan2` entries, then both scans over the rotated
   * (same-shape) centre mask of the filtered depth.
   */
  method FindBoundaries(filtered: Grid, axes: (real, real), rotate: Rotation)
    returns (angle: real, left: nat, right: nat)
    requires Wide(filtered)
    ensures angle == RotateAngle(axes.0, axes.1)
    ensures left == 0 <==> forall j :: 0 <= j < CENTER_START ==> !Qualifies(rotate(CenterMask(filtered), angle), j)
    ensures left == 0 <==> right == 0
    ensures left != 0 ==> CENTER_START <= left <= right < CENTER_END
    ensures left != 0 ==>
      Qualifies(rotate(CenterMask(filtered), angle), left - CENTER_START) &&
      Qualifies(rotate(CenterMask(filtered), angle), right - CENTER_START)
  {
    angle := RotateAngle(axes.0, axes.1);
    left, right := Boundaries(rotate(CenterMask(filtered), angle));
  }

  /**
   * `process`. The modal bin (scipy's mode of the digitised non-zero centre depths), the two
   * entries of `arctan2` over sklearn's PCA components, the rotation and `get_estimated_width` (cosine) are
   * parameters; the mode depth is `bins[modalBin]`.
   */
  method Process(depth: Grid, modalBin: int, axes: (real, real), rotate: Rotation,
                 estimate: (real, int, real) -> real)
    returns (r: Outcome)
    requires Wide(depth)
    ensures r.MissingDepth? <==> CenterSum(depth) == 0.0
    ensures r.BinIndexError? <==> CenterSum(depth) != 0.0 && BinEdge(modalBin).None?
    ensures r.TooFewPoints? <==>
      CenterSum(depth) != 0.0 && BinEdge(modalBin).Some? &&
      CenterPositives(FilterNearMode(depth, BinEdge(modalBin).value)) < PCA_MIN_SAMPLES
    ensures r.Measured? ==> BinEdge(modalBin).Some? && r.m.modeDepth == BinEdge(modalBin).value
    ensures r.Measured? ==> r.m.angle == RotateAngle(axes.0, axes.1)
    ensures r.Measured? ==> r.m.width == estimate(r.m.modeDepth, r.m.right - r.m.left, r.m.angle)
    ensures r.Measured? ==> (r.m.left == 0 <==> r.m.right == 0) && r.m.left <= r.m.right
    ensures r.Measured? && r.m.left != 0 ==>
      CENTER_START <= r.m.left <= r.m.right < CENTER_END &&
      Qualifies(rotate(CenterMask(FilterNearMode(depth, r.m.modeDepth)), r.m.angle), r.m.left - CENTER_START) &&
      Qualifies(rotate(CenterMask(FilterNearMode(depth, r.m.modeDepth)), r.m.angle), r.m.right - CENTER_START)
  {
    if CenterSum(depth) == 0.0 {
      return MissingDepth;
    }
    var edge := BinEdge(modalBin);
    if edge.None? {
      return BinIndexError;
    }
    var modeDepth := edge.value;
    var filtered := FilterNearMode(depth, modeDepth);
    if CenterPositives(filtered) < PCA_MIN_SAMPLES {
      return TooFewPoints;
    }
    var angle, left, right := FindBoundaries(filtered, axes, rotate);
    var width := estimate(modeDepth, right - left, angle);
    r := Measured(Measurement(angle, left, right, modeDepth, width));
  }
}

/**
 * `improc.py`, the earlier in-app processor: the flat ToF buffer is reshaped to 180×240 and
 * upsampled to 360×480, a frame with no centre depth is refused, depths far from the mode are
 * zeroed and the trunk's edges are scanned. `run` hands back the RGB image with an alpha
 * channel; the angle, edges and width it works out along the way are not returned.
 */
module Improc {
  import opened DepthFrame
  import opened TrunkScan

  /**
   * The exceptions `run` can raise: the reshape of a buffer of the wrong size, MissingDepthError,
   * IndexError at `bins[...]` and PCA's ValueError on fewer than two centre points.
   */
  datatype RunError = WrongSize | MissingDepth | BinIndexError | TooFewPoints

  datatype Result<T> = Success(value: T) | Failure(error: RunError)

  /**
   * What `run` works out. Only `image` leaves the function in the source; the other fields are
   * the values it computes and drops, kept here so the contract can speak about them.
   */
  datatype Run = Run(image: seq<bv8>, depth: Grid, modeDepth: real, filtered: Grid, angle: real, left: nat, right: nat, width: real)

  /**
   * `run`. The resized RGB image with its alpha channel (PIL), the modal bin of the digitised
   * centre depths (scipy), the principal-axis angle (sklearn), the rotation and
   * `get_estimated_width` are parameters.
   */
  method RunFrame(depthArr: seq<real>, image: seq<bv8>, modalBin: int, axisAngle: real, rotate: Rotation,
                  estimate: (real, int, real) -> real)
    returns (r: Result<Run>)
    ensures r.Failure? && r.error == WrongSize <==> |depthArr| != TOF_ROWS * TOF_COLS
    ensures r.Failure? && r.error == MissingDepth <==>
      TofFrame(depthArr).Some? && CenterSum(TofFrame(depthArr).value) == 0.0
    ensures r.Failure? && r.error == BinIndexError <==>
      TofFrame(depthArr).Some? && CenterSum(TofFrame(depthArr).value) != 0.0 && BinEdge(modalBin).None?
    ensures r.Failure? && r.error == TooFewPoints <==>
      TofFrame(depthArr).Some? && CenterSum(TofFrame(depthArr).value) != 0.0 && BinEdge(modalBin).Some? &&
      CenterPositives(FilterNearMode(TofFrame(depthArr).value, BinEdge(modalBin).value)) < PCA_MIN_SAMPLES
    ensures r.Success? ==> r.value.image == image && r.value.depth == TofFrame(depthArr).value
    ensures r.Success? ==> BinEdge(modalBin).Some? && r.value.modeDepth == BinEdge(modalBin).value
    ensures r.Success? ==> r.value.filtered == FilterNearMode(r.value.depth, r.value.modeDepth)
    ensures r.Success? ==> r.value.angle == UprightAngle(axisAngle)
    ensures r.Success? ==> (r.value.left == 0 <==> r.value.right == 0) && r.value.left <= r.value.right
    ensures r.Success? ==> r.value.width == estimate(r.value.modeDepth, r.value.right - r.value.left, r.value.angle)
  {
    var frame := TofFrame(depthArr);
    if frame.None? {
      return Failure(WrongSize);
    }
    var depth := frame.value;
    if CenterSum(depth) == 0.0 {
      return Failure(MissingDepth);
    }
    var edge := BinEdge(modalBin);
    if edge.None? {
      return Failure(BinIndexError);
    }
    var modeDepth := edge.value;
    var filtered := FilterNearMode(depth, modeDepth);
    if CenterPositives(filtered) < PCA_MIN_SAMPLES {
      return Failure(TooFewPoints);
    }
    var angle, left, right := UprightBoundaries(filtered, axisAngle, rotate);
    var width := estimate(modeDepth, right - left, angle);
    r := Success(Run(image, depth, modeDepth, filtered, angle, left, right, width));
  }
}

/** `TofUtil`: decodes a DEPTH16 image, bytes swapped first, into four per-pixel arrays. */
module TofUtil {
  import opened TofSample
  import opened DepthImage

  /** The four preallocated per-pixel arrays of `TofUtil.TofArrays`. */
  class TofArrays {
    var xBuffer: array<int>
    var yBuffer: array<int>
    var dBuffer: array<real>
    var percentageBuffer: array<real>
    var length: int

    /** Allocates four zero-filled arrays of `size` entries; `length` is never set. */
    constructor (size: nat)
      ensures fresh(xBuffer) && fresh(yBuffer) && fresh(dBuffer) && fresh(percentageBuffer)
      ensures xBuffer != yBuffer && dBuffer != percentageBuffer
      ensures xBuffer.Length == yBuffer.Length == dBuffer.Length == percentageBuffer.Length == size
      ensures forall k :: 0 <= k < size ==>
        xBuffer[k] == 0 && yBuffer[k] == 0 && dBuffer[k] == 0.0 && percentageBuffer[k] == 0.0
      ensures length == 0
    {
      xBuffer := new int[size](_ => 0);
      yBuffer := new int[size](_ => 0);
      dBuffer := new real[size](_ => 0.0);
      percentageBuffer := new real[size](_ => 0.0);
      length := 0;
    }
  }

  /** The sample of pixel (x, y) as `parseTof` decodes it: with its two bytes exchanged. */
  function SwappedSample(img: Image, x: int, y: int): Word
    requires Readable(img) && 0 <= x < img.width && 0 <= y < img.height
  {
    SwapBytes(SampleAt(img, x, y))
  }

  /**
   * What `parseTof` stores at index k: the column and row of pixel k in row-major
   * order, its range in metres and its confidence percentage, bytes swapped first.
   */
  predicate Entry(img: Image, k: int, x: int, y: int, d: real, p: real)
    requires Readable(img)
  {
    img.width > 0 && 0 <= k % img.width < img.width && k / img.width < img.height &&
    x == k % img.width && y == k / img.width && 0 <= y &&
    d == Metres(SwappedSample(img, x, y)) &&
    p == Percentage(Confidence(SwappedSample(img, x, y)))
  }

  /** Pixel (x, y), decoded, is what belongs at row-major index y * width + x. */
  lemma EntryOfPixel(img: Image, x: int, y: int)
    requires Readable(img) && 0 <= x < img.width && 0 <= y < img.height
    ensures 0 <= y * img.width + x < img.width * img.height
    ensures Entry(img, y * img.width + x, x, y,
                  Range(SwappedSample(img, x, y)) as real / 1000.0,
                  var c := Confidence(SwappedSample(img, x, y));
                  if c == 0 then 1.0 else (c - 1) as real / 7.0)
  {
    RowMajorBound(img.width, img.height, x, y);
    RowMajor(img.width, x, y);
  }

  /**
   * `parseTof`: entry i = y * width + x holds x, y, the range in metres and the
   * confidence percentage of pixel (x, y), for every pixel, in row-major order.
   */
  method ParseTof(img: Image) returns (arrays: TofArrays)
    requires Readable(img)
    ensures fresh(arrays) && fresh(arrays.xBuffer) && fresh(arrays.yBuffer)
    ensures fresh(arrays.dBuffer) && fresh(arrays.percentageBuffer)
    ensures arrays.xBuffer.Length == arrays.yBuffer.Length == img.width * img.height
    ensures arrays.dBuffer.Length == arrays.percentageBuffer.Length == img.width * img.height
    ensures forall i :: 0 <= i < img.width * img.height ==>
      Entry(img, i, arrays.xBuffer[i], arrays.yBuffer[i], arrays.dBuffer[i], arrays.percentageBuffer[i])
  {
    var width, height := img.width, img.height;
    MulMonotone(0, height, width);
    arrays := new TofArrays(width * height);
    var xs, ys, ds, ps := arrays.xBuffer, arrays.yBuffer, arrays.dBuffer, arrays.percentageBuffer;
    var i := 0;
    var y := 0;
    while y < height
      modifies xs, ys, ds, ps
      invariant 0 <= y <= height
      invariant i == y * width <= width * height
      invariant forall k :: 0 <= k < i ==> Entry(img, k, xs[k], ys[k], ds[k], ps[k])
    {
      MulMonotone(y + 1, height, width);
      assert (y + 1) * width == y * width + width;
      i := DecodeRow(img, xs, ys, ds, ps, y, i);
      y := y + 1;
    }
    assert i == width * height;
  }

  /** The inner loop of `parseTof`: the `width` pixels of row y, stored from index `i0 == y * width` on. */
  method DecodeRow(img: Image, xs: array<int>, ys: array<int>, ds: array<real>, ps: array<real>, y: int, i0: int)
    returns (i: int)
    requires Readable(img) && 0 <= y < img.height && i0 == y * img.width
    requires xs != ys && ds != ps && i0 + img.width <= xs.Length == ys.Length == ds.Length == ps.Length
    requires forall k :: 0 <= k < i0 ==> Entry(img, k, xs[k], ys[k], ds[k], ps[k])
    modifies xs, ys, ds, ps
    ensures i == i0 + img.width
    ensures forall k :: 0 <= k < i ==> Entry(img, k, xs[k], ys[k], ds[k], ps[k])
  {
    i := i0;
    var x := 0;
    while x < img.width
      invariant 0 <= x <= img.width && i == i0 + x
      invariant forall k :: 0 <= k < i ==> Entry(img, k, xs[k], ys[k], ds[k], ps[k])
    {
      var depthSample := SwapBytes(img.samples[SampleIndex(img, x, y)]);
      var depthRange := Range(depthSample);
      var depthConfidence := Confidence(depthSample);
      var depthPercentage := if depthConfidence == 0 then 1.0 else (depthConfidence - 1) as real / 7.0;
      EntryOfPixel(img, x, y);
      xs[i] := x;
      ys[i] := y;
      ds[i] := depthRange as real / 1000.0;
      ps[i] := depthPercentage;
      i := i + 1;
      x := x + 1;
    }
  }

  /** Row-major order: the entry for pixel (x, y) sits at index y * width + x. */
  lemma ParseTofRowMajor(img: Image, xs: seq<int>, ys: seq<int>, x: int, y: int)
    requires Readable(img) && 0 <= x < img.width && 0 <= y < img.height
    requires |xs| == |ys| == img.width * img.height
    requires forall i :: 0 <= i < |xs| ==> xs[i] == i % img.width && ys[i] == i / img.width
    ensures 0 <= y * img.width + x < |xs|
    ensures xs[y * img.width + x] == x && ys[y * img.width + x] == y
  {
    RowMajorBound(img.width, img.height, x, y);
    RowMajor(img.width, x, y);
  }
}

/** `OcclusionRenderer`: packs the positive samples of a depth frame into a vertex array. */
module OcclusionRenderer {
  import opened DepthImage

  const FLOATS_PER_POINT: int := 3

  datatype Option<T> = None | Some(value: T)

  /** Normalised device x coordinate of column x: the pixel centre mapped onto [-1, 1]. */
  function NdcX(x: int, width: int): real
    requires width > 0
  {
    2.0 * (x as real + 0.5) / width as real - 1.0
  }

  /** Normalised device y coordinate of row y: the pixel centre mapped onto [1, -1]. */
  function NdcY(y: int, height: int): real
    requires height > 0
  {
    -2.0 * (y as real + 0.5) / height as real + 1.0
  }

  /** The vertex of input k: normalised device coordinates of its pixel, then the depth. */
  function Vertex(data: seq<real>, width: int, height: int, k: int): (v: seq<real>)
    requires width > 0 && height > 0 && 0 <= k < |data|
    ensures |v| == FLOATS_PER_POINT && v[2] == data[k]
  {
    var x, y := k % width, k / width;
    [NdcX(x, width), NdcY(y, height), data[k]]
  }

  /** The vertices of the positive samples among the first n inputs, in input order. */
  function Points(data: seq<real>, width: int, height: int, n: nat): (pts: seq<real>)
    requires width > 0 && height > 0 && n <= |data|
    ensures |pts| == FLOATS_PER_POINT * Positives(data, n)
  {
    if n == 0 then []
    else Points(data, width, height, n - 1) + (if data[n - 1] > 0.0 then Vertex(data, width, height, n - 1) else [])
  }

  /** How many of the first n samples are positive. */
  function Positives(data: seq<real>, n: nat): (c: nat)
    requires n <= |data|
    ensures c <= n
  {
    if n == 0 then 0 else Positives(data, n - 1) + (if data[n - 1] > 0.0 then 1 else 0)
  }

  /** The whole vertex array `update` builds: the packed points, then zeros up to 3 * data.length. */
  function Packed(data: seq<real>, width: int, height: int): (a: seq<real>)
    requires width > 0 && height > 0 ==> width * height <= |data|
    ensures |a| == FLOATS_PER_POINT * |data|
  {
    var pts := if width > 0 && height > 0 then Points(data, width, height, width * height) else [];
    pts + seq(FLOATS_PER_POINT * |data| - |pts|, _ => 0.0)
  }

  /** An array holding the points of all inputs and zeros after them is the packed array. */
  lemma PackedFromParts(data: seq<real>, width: int, height: int, a: seq<real>, index: nat)
    requires width > 0 && height > 0 ==> width * height <= |data|
    requires |a| == FLOATS_PER_POINT * |data| && index <= |a|
    requires width > 0 && height > 0 ==> a[..index] == Points(data, width, height, width * height)
    requires !(width > 0 && height > 0) ==> index == 0
    requires forall k :: index <= k < |a| ==> a[k] == 0.0
    ensures a == Packed(data, width, height)
  {
    assert a == a[..index] + a[index..];
    assert a[index..] == seq(|a| - index, _ => 0.0);
  }

  /** Visiting input k extends the points by its vertex and the count by one exactly when its sample is positive. */
  lemma PointsStep(data: seq<real>, width: int, height: int, x: int, y: int, k: int)
    requires 0 <= x < width && 0 <= y < height && width * height <= |data| && k == y * width + x
    ensures 0 <= k < width * height
    ensures Positives(data, k + 1) == Positives(data, k) + (if data[k] > 0.0 then 1 else 0)
    ensures Points(data, width, height, k + 1) == Points(data, width, height, k) +
        (if data[k] > 0.0 then [NdcX(x, width), NdcY(y, height), data[k]] else [])
  {
    RowMajorBound(width, height, x, y);
    RowMajor(width, x, y);
  }

  /**
   * One pass of `update`'s inner loop over row y, whose first input is `input0 == y * width`:
   * appends the vertex of every positive sample of the row after the `count0` vertices already
   * in `arr`.
   */
  method PackRow(data: seq<real>, arr: array<real>, width: int, height: int, y: int, input0: int, count0: nat)
    returns (count: nat)
    requires width > 0 && height > 0 && 0 <= y < height && input0 == y * width
    requires width * height <= |data| && arr.Length == FLOATS_PER_POINT * |data|
    requires count0 == Positives(data, input0)
    requires arr[..FLOATS_PER_POINT * count0] == Points(data, width, height, input0)
    requires forall k :: FLOATS_PER_POINT * count0 <= k < arr.Length ==> arr[k] == 0.0
    modifies arr
    ensures input0 + width <= width * height
    ensures count == Positives(data, input0 + width)
    ensures arr[..FLOATS_PER_POINT * count] == Points(data, width, height, input0 + width)
    ensures forall k :: FLOATS_PER_POINT * count <= k < arr.Length ==> arr[k] == 0.0
  {
    RowSpan(width, height, y);
    count := count0;
    var index := FLOATS_PER_POINT * count;
    var input := input0;
    var x := 0;
    while x < width
      invariant 0 <= x <= width && input == input0 + x
      invariant index == FLOATS_PER_POINT * count && count == Positives(data, input)
      invariant arr[..index] == Points(data, width, height, input)
      invariant forall k :: index <= k < arr.Length ==> arr[k] == 0.0
    {
      PointsStep(data, width, height, x, y, input);
      if data[input] > 0.0 {
        var vx := 2.0 * (x as real + 0.5) / width as real - 1.0;
        var vy := -2.0 * (y as real + 0.5) / height as real + 1.0;
        assert vx == NdcX(x, width) && vy == NdcY(y, height);
        PutVertex(arr, index, vx, vy, data[input]);
        index := index + 3;
        count := count + 1;
      }
      input := input + 1;
      x := x + 1;
    }
    assert input == input0 + width;
  }

  /** `array[index++] = vx; array[index++] = vy; array[index++] = d`. */
  method PutVertex(arr: array<real>, index: int, vx: real, vy: real, d: real)
    requires 0 <= index && index + 3 <= arr.Length
    modifies arr
    ensures arr[..index + 3] == old(arr[..index]) + [vx, vy, d]
    ensures forall k :: index + 3 <= k < arr.Length ==> arr[k] == old(arr[k])
  {
    arr[index] := vx;
    arr[index + 1] := vy;
    arr[index + 2] := d;
    assert arr[..index + 3] == old(arr[..index]) + [vx, vy, d];
  }

  /**
   * The two nested loops of `update`: the depthWidth x depthHeight inputs in row-major order,
   * one vertex per positive sample; `count` is what `numPoints` ends at.
   */
  method PackAll(data: seq<real>, w: int, h: int) returns (arr: array<real>, count: nat)
    requires w > 0 && h > 0 ==> w * h <= |data|
    ensures fresh(arr)
    ensures arr[..] == Packed(data, w, h)
    ensures count == if w > 0 && h > 0 then Positives(data, w * h) else 0
  {
    count := 0;
    var index := 0;
    var input := 0;
    arr := new real[|data| * FLOATS_PER_POINT](_ => 0.0);
    ghost var dims := w > 0 && h > 0;
    var y := 0;
    while y < h
      invariant 0 <= y && (h > 0 ==> y <= h)
      invariant index == FLOATS_PER_POINT * count
      invariant forall k :: index <= k < arr.Length ==> arr[k] == 0.0
      invariant !dims ==> index == 0
      invariant dims ==> input == y * w && input <= w * h <= |data|
      invariant dims ==> count == Positives(data, input) && arr[..index] == Points(data, w, h, input)
    {
      if w > 0 {
        RowSpan(w, h, y);
        count := PackRow(data, arr, w, h, y, input, count);
        index := FLOATS_PER_POINT * count;
        input := input + w;
      }
      y := y + 1;
    }
    if dims {
      LastRow(w, h, y, input);
    }
    PackedFromParts(data, w, h, arr[..], index);
  }

  /** When the row loop ends after all h rows, the cursor has passed all w * h inputs. */
  lemma LastRow(w: int, h: int, y: int, input: int)
    requires y == h && input == y * w
    ensures input == w * h
  {
  }

  class Renderer {
    var depthWidth: int
    var depthHeight: int
    var numPoints: int
    /** The contents of `verticesBuffer`; `None` while it is still null. */
    var vertices: Option<seq<real>>

    /** Dimensions start at -1, no points and no buffer. */
    constructor ()
      ensures depthWidth == -1 && depthHeight == -1 && numPoints == 0 && vertices == None
    {
      depthWidth, depthHeight, numPoints, vertices := -1, -1, 0, None;
    }

    function GetDepthWidth(): (w: int)
      reads this
      ensures w == depthWidth
    {
      depthWidth
    }

    method SetDepthWidth(w: int)
      modifies this
      ensures depthWidth == w && GetDepthWidth() == w
      ensures depthHeight == old(depthHeight) && numPoints == old(numPoints) && vertices == old(vertices)
    {
      depthWidth := w;
    }

    function GetDepthHeight(): (h: int)
      reads this
      ensures h == depthHeight
    {
      depthHeight
    }

    method SetDepthHeight(h: int)
      modifies this
      ensures depthHeight == h && GetDepthHeight() == h
      ensures depthWidth == old(depthWidth) && numPoints == old(numPoints) && vertices == old(vertices)
    {
      depthHeight := h;
    }

    /**
     * `update`: walks the depthWidth x depthHeight inputs in row-major order and stores
     * one vertex per positive sample; numPoints counts them.
     */
    method Update(data: seq<real>)
      requires depthWidth > 0 && depthHeight > 0 ==> depthWidth * depthHeight <= |data|
      modifies this
      ensures depthWidth == old(depthWidth) && depthHeight == old(depthHeight)
      ensures vertices == Some(Packed(data, depthWidth, depthHeight))
      ensures numPoints == (if depthWidth > 0 && depthHeight > 0
                            then Positives(data, depthWidth * depthHeight) else 0)
    {
      numPoints := 0;
      var arr, count := PackAll(data, depthWidth, depthHeight);
      numPoints := count;
      vertices := Some(arr[..]);
    }
  }

  /** The k-th positive sample in row-major order is the depth of the k-th vertex. */
  lemma {:induction false} PositiveSampleSlot(data: seq<real>, width: int, height: int, n: nat, i: nat)
    requires width > 0 && height > 0 && i < n <= |data| && data[i] > 0.0
    ensures 3 * Positives(data, i) + 2 < |Points(data, width, height, n)|
    ensures Points(data, width, height, n)[3 * Positives(data, i) + 2] == data[i]
  {
    if i == n - 1 {
      assert Positives(data, n) == Positives(data, i) + 1;
    } else {
      PositiveSampleSlot(data, width, height, n - 1, i);
      PositivesMonotone(data, i + 1, n - 1);
    }
  }

  lemma {:induction false} PositivesMonotone(data: seq<real>, m: nat, n: nat)
    requires m <= n <= |data|
    ensures Positives(data, m) <= Positives(data, n)
  {
    if m < n {
      PositivesMonotone(data, m, n - 1);
    }
  }

  /** With the dimensions still at their default of -1, `update` stores no point at all. */
  lemma UnsetDimensionsStoreNothing(data: seq<real>)
    ensures Packed(data, -1, -1) == seq(FLOATS_PER_POINT * |data|, _ => 0.0)
  {
  }
}

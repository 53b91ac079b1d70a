/**
 * `com.google.ar.core.examples.java.sharedcamera.ImageUtil`: the shared-camera sample's copy of
 * the YUV_420_888 to NV21 to JPEG conversion. It differs from the helpers copy only in how the
 * row-by-row Y loop moves its read position.
 */
module SharedCameraImageUtil {
  import opened Yuv

  datatype Option<T> = None | Some(value: T)

  /**
   * `imageToByteArray`: null for any format but YUV_420_888, otherwise the JPEG of the NV21
   * conversion. The JPEG encoder is a parameter.
   */
  method ImageToByteArray(img: Image, jpeg: (seq<bv8>, int, int) -> seq<bv8>) returns (data: Option<seq<bv8>>)
    requires PlanesWithin(img)
    requires img.format == YUV_420_888 ==> Convertible(Snapshot(img), AsWrittenStep(Snapshot(img)))
    modifies img.v.mem
    ensures img.v.mem[..] == old(img.v.mem[..])
    ensures data.None? <==> img.format != YUV_420_888
    ensures data.Some? ==>
      data.value == jpeg(NV21(old(Snapshot(img)), AsWrittenStep(old(Snapshot(img)))), img.width, img.height)
  {
    data := None;
    if img.format == YUV_420_888 {
      var nv21 := YUV420888ToNV21(img);
      data := Some(jpeg(nv21[..], img.width, img.height));
    }
  }

  /**
   * `YUV_420_888toNV21`: the Y bytes (in one piece when the row stride is the width, otherwise
   * row by row), then the chroma bytes. The V plane is written by the aliasing probe and put
   * back, so the image is the same afterwards.
   */
  method YUV420888ToNV21(img: Image) returns (nv21: array<bv8>)
    requires PlanesWithin(img) && Convertible(Snapshot(img), AsWrittenStep(Snapshot(img)))
    modifies img.v.mem
    ensures fresh(nv21)
    ensures img.v.mem[..] == old(img.v.mem[..]) && Snapshot(img) == old(Snapshot(img))
    ensures nv21[..] == NV21(Snapshot(img), AsWrittenStep(Snapshot(img)))
  {
    ghost var f := Snapshot(img);
    var ySize := img.width * img.height;
    var uvSize := img.width * img.height / 4;
    assert ySize == YSize(f) && uvSize == UvSize(f);
    nv21 := new bv8[ySize + uvSize * 2](_ => 0);
    ghost var zeros := nv21[ySize..];
    HoldsSnapshot(img);
    CopyY(img, nv21, f);
    assert forall k :: ySize <= k < nv21.Length ==> nv21[k] == zeros[k - ySize] == 0;
    FillChroma(img, nv21, f, AsWrittenStep(f));
    Assembled(nv21[..], f, AsWrittenStep(f));
  }

  /** The Y bytes: one bulk `get` when the row stride is the width, otherwise row by row. */
  method CopyY(img: Image, nv21: array<bv8>, ghost f: Frame)
    requires PlanesWithin(img) && Holds(img.y, f.y) && nv21 != img.y.mem
    requires img.width == f.width && img.height == f.height && img.y.rowStride == f.yRowStride
    requires YReadable(f, AsWrittenStep(f)) && YSize(f) <= nv21.Length
    modifies nv21
    ensures nv21[..YSize(f)] == YPart(f, AsWrittenStep(f))
    ensures nv21[YSize(f)..] == old(nv21[YSize(f)..])
  {
    var ySize := img.width * img.height;
    assert ySize == YSize(f);
    if img.y.rowStride == img.width {
      HoldsBytes(img.y, f.y);
      Get(img.y, 0, nv21, 0, ySize);
    } else {
      CopyYRows(img, nv21, f);
    }
  }

  /**
   * The row-by-row Y copy of this copy: `yBufferPos` starts at `width - rowStride` and grows by
   * `rowStride - width` before each row is read, so row r is read from `r * (rowStride - width)`.
   */
  method CopyYRows(img: Image, nv21: array<bv8>, ghost f: Frame)
    requires PlanesWithin(img) && Holds(img.y, f.y) && nv21 != img.y.mem
    requires img.width == f.width && img.height == f.height && img.y.rowStride == f.yRowStride
    requires RowsReadable(|f.y|, f.width, AsWrittenStep(f), f.height)
    requires YSize(f) <= nv21.Length
    modifies nv21
    ensures nv21[..YSize(f)] == Rows(f.y, f.width, AsWrittenStep(f), f.height)
    ensures nv21[YSize(f)..] == old(nv21[YSize(f)..])
  {
    var width, rowStride := img.width, img.y.rowStride;
    var ySize := img.width * img.height;
    assert ySize == YSize(f);
    var pos := 0;
    var yBufferPos := width - rowStride;
    ghost var row := 0;
    ghost var tail := nv21[ySize..];
    while pos < ySize
      invariant 0 <= row <= f.height && pos == row * width && pos <= ySize
      invariant yBufferPos == row * (rowStride - width) - (rowStride - width)
      invariant RowsReadable(|f.y|, width, rowStride - width, row)
      invariant nv21[..pos] == Rows(f.y, width, rowStride - width, row)
      invariant nv21[ySize..] == tail
      decreases ySize - pos
    {
      NextRow(width, f.height, rowStride - width, row, pos);
      yBufferPos := yBufferPos + (rowStride - width);
      CopyRow(img.y, nv21, f.y, width, rowStride - width, f.height, row, yBufferPos, pos, ySize);
      pos := pos + width;
      row := row + 1;
    }
    RowLoop(width, f.height, row);
  }
}

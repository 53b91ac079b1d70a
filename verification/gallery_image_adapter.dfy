/**
 * `GalleryImageAdapter.calculateInSampleSize`: the power-of-two subsampling factor used to
 * decode gallery thumbnails, in Kotlin `Int` arithmetic.
 */
module GalleryImageAdapter {
  import Int32

  /** 1, 2, 4, 8, ... */
  predicate PowerOfTwo(n: int)
    decreases if n > 0 then n else 0
  {
    n == 1 || (n >= 2 && n % 2 == 0 && PowerOfTwo(n / 2))
  }

  /** Whether subsampling by `size` still leaves both half-dimensions at the requested size. */
  predicate Fits(halfHeight: int, halfWidth: int, size: int, reqWidth: int, reqHeight: int)
    requires size > 0
  {
    Int32.TruncDiv(halfHeight, size) >= reqHeight && Int32.TruncDiv(halfWidth, size) >= reqWidth
  }

  /**
   * The factor is 1 for an image already within the request; otherwise it doubles while the
   * halved image divided by it still reaches the request. A request of at least 1 in either
   * direction bounds the loop (the only caller asks for 25 x 25); with both at 0 or below the
   * Kotlin loop overflows to 0 and divides by it.
   */
  method CalculateInSampleSize(height: int, width: int, reqWidth: int, reqHeight: int)
    returns (inSampleSize: int)
    requires Int32.InRange(height) && Int32.InRange(width)
    requires Int32.InRange(reqWidth) && Int32.InRange(reqHeight)
    requires reqHeight >= 1 || reqWidth >= 1
    ensures PowerOfTwo(inSampleSize) && 1 <= inSampleSize <= Int32.MAX_VALUE
    ensures height <= reqHeight && width <= reqWidth ==> inSampleSize == 1
    ensures height > reqHeight || width > reqWidth ==>
      !Fits(Int32.TruncDiv(height, 2), Int32.TruncDiv(width, 2), inSampleSize, reqWidth, reqHeight)
    ensures inSampleSize > 1 ==>
      Fits(Int32.TruncDiv(height, 2), Int32.TruncDiv(width, 2), inSampleSize / 2, reqWidth, reqHeight)
  {
    inSampleSize := 1;
    if height > reqHeight || width > reqWidth {
      var halfHeight := Int32.TruncDiv(height, 2);
      var halfWidth := Int32.TruncDiv(width, 2);
      Int32.TruncDivBounds(height, 2);
      Int32.TruncDivBounds(width, 2);
      while Int32.TruncDiv(halfHeight, inSampleSize) >= reqHeight && Int32.TruncDiv(halfWidth, inSampleSize) >= reqWidth
        invariant PowerOfTwo(inSampleSize) && 1 <= inSampleSize <= Int32.MAX_VALUE
        invariant inSampleSize > 1 ==> Fits(halfHeight, halfWidth, inSampleSize / 2, reqWidth, reqHeight)
        decreases Int32.MAX_VALUE - inSampleSize
      {
        DoublingStaysInRange(halfHeight, halfWidth, inSampleSize, reqWidth, reqHeight);
        inSampleSize := Int32.Wrap(inSampleSize * 2);
        assert inSampleSize / 2 == inSampleSize - inSampleSize / 2;
      }
    }
  }

  /** While the loop condition holds, doubling the factor stays a positive Kotlin Int. */
  lemma DoublingStaysInRange(halfHeight: int, halfWidth: int, size: int, reqWidth: int, reqHeight: int)
    requires 1 <= size && halfHeight <= Int32.MAX_VALUE / 2 && halfWidth <= Int32.MAX_VALUE / 2
    requires reqHeight >= 1 || reqWidth >= 1
    requires Fits(halfHeight, halfWidth, size, reqWidth, reqHeight)
    ensures size * 2 <= Int32.MAX_VALUE
  {
    var half := if reqHeight >= 1 then halfHeight else halfWidth;
    Int32.QuotientAtLeastOne(half, size);
  }
}

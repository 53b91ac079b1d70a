/**
 * One DEPTH16 sample of the time-of-flight camera: a 16-bit word whose low 13 bits
 * are the range in millimetres and whose top 3 bits are a confidence code. The word is
 * held as its unsigned value, so the source's masks and shifts become remainders and
 * quotients by powers of two (`MasksAsArithmetic` checks that correspondence bit by bit).
 */
module TofSample {
  /** A 16-bit word, as its unsigned value. */
  type Word = x: int | 0 <= x < 0x1_0000

  /** On 16-bit words the source's masks and shifts are remainders and quotients. */
  lemma MasksAsArithmetic(s: bv16)
    ensures s & 0x1FFF == s % 0x2000
    ensures (s >> 13) & 0x7 == s / 0x2000
    ensures (((s & 0xFF) << 8) & 0xFF00) | (((s & 0xFF00) >> 8) & 0xFF) == (s % 0x100) * 0x100 + s / 0x100
  {
  }

  /** `(((s & 0xFF) << 8) & 0xFF00) | (((s & 0xFF00) >> 8) & 0xFF)`: the two bytes exchanged. */
  function SwapBytes(s: Word): (r: Word)
    ensures r / 0x100 == s % 0x100
    ensures r % 0x100 == s / 0x100
  {
    (s % 0x100) * 0x100 + s / 0x100
  }

  /** Exchanging the bytes twice gives back the sample. */
  lemma SwapBytesInvolutive(s: Word)
    ensures SwapBytes(SwapBytes(s)) == s
  {
    var r := SwapBytes(s);
    assert s == (s / 0x100) * 0x100 + s % 0x100;
    assert SwapBytes(r) == (r % 0x100) * 0x100 + r / 0x100;
  }

  /** `s & 0x1FFF`: the range field, in millimetres. */
  function Range(s: Word): (r: nat)
    ensures r <= 8191
    ensures (s - r) % 8192 == 0
  {
    s % 8192
  }

  /** `(s >> 13) & 0x7`: the confidence code. */
  function Confidence(s: Word): (c: nat)
    ensures c <= 7
    ensures c * 8192 <= s < (c + 1) * 8192
  {
    s / 8192
  }

  /** The two fields together account for every bit of the sample. */
  lemma FieldsReassemble(s: Word)
    ensures Range(s) + 8192 * Confidence(s) == s
  {
  }

  /** `c == 0 ? 1 : (c - 1) / 7`: code 0 means full confidence, codes 1..7 rise from 0 to 6/7. */
  function Percentage(c: nat): (p: real)
    requires c <= 7
    ensures 0.0 <= p <= 1.0
    ensures p == 1.0 <==> c == 0
    ensures p == 0.0 <==> c == 1
    ensures c >= 1 ==> 7.0 * p + 1.0 == c as real
  {
    if c == 0 then 1.0 else (c - 1) as real / 7.0
  }

  /** A larger non-zero code never gives a smaller percentage. */
  lemma PercentageMonotone(c: nat, d: nat)
    requires 1 <= c <= d <= 7
    ensures Percentage(c) <= Percentage(d)
  {
  }

  /** The value Java sees when it reads the word as a `short` and widens it to `int`. */
  function Signed(s: Word): (v: int)
    ensures -0x8000 <= v <= 0x7FFF
    ensures (v < 0) <==> Confidence(s) >= 4
    ensures v % 0x1_0000 == s
  {
    if s < 0x8000 then s else s - 0x1_0000
  }

  /** Depth in metres as the capture files store it: range / 1000. */
  function Metres(s: Word): (m: real)
    ensures 0.0 <= m <= 8.191
    ensures m * 1000.0 == Range(s) as real
  {
    Range(s) as real / 1000.0
  }
}

/** Plane 0 of a DEPTH16 image and the position each pixel is read from. */
module DepthImage {
  import opened TofSample

  /**
   * Width and height of the image, plane 0's row stride and the plane's 16-bit words.
   * The stride is the byte count `getRowStride` reports; the decoder uses it unchanged
   * as a step in 16-bit words, and so does the model.
   */
  datatype Image = Image(width: int, height: int, rowStride: int, samples: seq<Word>)

  /**
   * What the decoding loops need of an image: the `short` loop counters can reach the
   * dimensions, and every position `(y / 2) * rowStride + x` lies inside the plane.
   */
  predicate Readable(img: Image) {
    0 <= img.width <= 0x7FFF && 0 <= img.height <= 0x7FFF && img.rowStride >= 0 &&
    (img.width > 0 && img.height > 0 ==>
      ((img.height - 1) / 2) * img.rowStride + img.width - 1 < |img.samples|)
  }

  /** Pixel (x, y) is read at `(y / 2) * stride + x`: each stored row serves two image rows. */
  function SampleIndex(img: Image, x: int, y: int): (k: int)
    requires Readable(img) && 0 <= x < img.width && 0 <= y < img.height
    ensures 0 <= k < |img.samples|
  {
    MulMonotone(y / 2, (img.height - 1) / 2, img.rowStride);
    (y / 2) * img.rowStride + x
  }

  /** Rows 2r and 2r + 1 of the image read the same stored row. */
  lemma RowsShareSamples(img: Image, x: int, r: int)
    requires Readable(img) && 0 <= x < img.width && 0 <= r && 2 * r + 1 < img.height
    ensures SampleAt(img, x, 2 * r) == SampleAt(img, x, 2 * r + 1)
  {
    assert (2 * r) / 2 == r == (2 * r + 1) / 2;
  }

  lemma MulMonotone(a: int, b: int, c: int)
    requires 0 <= a <= b && 0 <= c
    ensures 0 <= a * c <= b * c
  {
  }

  function SampleAt(img: Image, x: int, y: int): Word
    requires Readable(img) && 0 <= x < img.width && 0 <= y < img.height
  {
    img.samples[SampleIndex(img, x, y)]
  }

  /** Row-major index k of a width x height grid names column k % width of row k / width. */
  lemma GridIndex(width: int, height: int, k: int)
    requires 0 <= width && 0 <= height && 0 <= k < width * height
    ensures width > 0 && 0 <= k % width < width && 0 <= k / width < height
  {
    assert width != 0;
    if k / width >= height {
      MulMonotone(height, k / width, width);
      assert false;
    }
  }

  /** The sample of the pixel at row-major index k. */
  function SampleOfIndex(img: Image, k: int): Word
    requires Readable(img) && 0 <= k < img.width * img.height
  {
    GridIndex(img.width, img.height, k);
    SampleAt(img, k % img.width, k / img.width)
  }

  /** Index `y * width + x` of a row-major buffer names column x of row y. */
  lemma RowMajor(width: int, x: int, y: int)
    requires 0 <= x < width && 0 <= y
    ensures (y * width + x) / width == y
    ensures (y * width + x) % width == x
  {
    var i := y * width + x;
    var q, r := i / width, i % width;
    assert q * width + r == i && 0 <= r < width;
    assert (q - y) * width == x - r;
    if q > y {
      MulMonotone(1, q - y, width);
      assert false;
    } else if q < y {
      MulMonotone(1, y - q, width);
      assert false;
    }
  }

  /** Row y of a width x height grid spans inputs y * width to y * width + width, inside the grid. */
  lemma RowSpan(width: int, height: int, y: int)
    requires 0 < width && 0 <= y < height
    ensures 0 <= y * width && y * width + width == (y + 1) * width <= width * height
  {
    MulMonotone(y + 1, height, width);
    MulMonotone(0, y, width);
  }

  /** Every pixel (x, y) of the grid has a row-major index below width * height. */
  lemma RowMajorBound(width: int, height: int, x: int, y: int)
    requires 0 <= x < width && 0 <= y < height
    ensures 0 <= y * width + x < width * height
  {
    MulMonotone(y + 1, height, width);
    MulMonotone(0, y, width);
  }
}

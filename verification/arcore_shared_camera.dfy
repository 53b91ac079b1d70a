/**
 * The ARCore shared-camera screen of the `trees` app: each DEPTH16 frame is decoded (without a
 * byte swap) into four per-pixel lists and a depth array for the occlusion renderer, and a
 * frame that arrives while a capture is armed is written to a capture file.
 */
module ArcoreSharedCamera {
  import Int32
  import opened TofSample
  import opened DepthImage
  import opened Text
  import SampleCounter
  import ImageStore
  import OcclusionRenderer

  datatype Option<T> = None | Some(value: T)

  /** A file the screen wrote: its name and its text. */
  datatype SavedFile = SavedFile(name: string, text: string)

  /** The lists `onImageAvailable` fills for one frame, and the `output` array it renders. */
  datatype Decoded = Decoded(xs: seq<int>, ys: seq<int>, ds: seq<real>, ps: seq<real>, output: seq<real>)

  /**
   * Entry k of a decoded frame: column and row of pixel k in row-major order, the range in
   * metres, the confidence percentage, and the range over 10000 for the renderer.
   */
  predicate Entry(img: Image, k: int, x: int, y: int, d: real, p: real, o: real)
    requires Readable(img)
  {
    img.width > 0 && 0 <= k && 0 <= k % img.width && k / img.width < img.height &&
    x == k % img.width && y == k / img.width && 0 <= y &&
    d == Metres(SampleAt(img, x, y)) &&
    p == Percentage(Confidence(SampleAt(img, x, y))) &&
    o == Range(SampleAt(img, x, y)) as real / 10000.0
  }

  /** The decoded frame, entry by entry; the sample is taken as stored. */
  function Decode(img: Image): (f: Decoded)
    requires Readable(img)
    ensures |f.xs| == |f.ys| == |f.ds| == |f.ps| == |f.output| == img.width * img.height
    ensures forall k :: 0 <= k < img.width * img.height ==>
      Entry(img, k, f.xs[k], f.ys[k], f.ds[k], f.ps[k], f.output[k])
  {
    var n := img.width * img.height;
    var f := Decoded(
      seq(n, k requires 0 <= k < n => (GridIndex(img.width, img.height, k); k % img.width)),
      seq(n, k requires 0 <= k < n => (GridIndex(img.width, img.height, k); k / img.width)),
      seq(n, k requires 0 <= k < n => Metres(SampleOfIndex(img, k))),
      seq(n, k requires 0 <= k < n => Percentage(Confidence(SampleOfIndex(img, k)))),
      seq(n, k requires 0 <= k < n => Range(SampleOfIndex(img, k)) as real / 10000.0));
    assert forall k :: 0 <= k < n ==> Entry(img, k, f.xs[k], f.ys[k], f.ds[k], f.ps[k], f.output[k]) by {
      forall k | 0 <= k < n
        ensures Entry(img, k, f.xs[k], f.ys[k], f.ds[k], f.ps[k], f.output[k])
      {
        GridIndex(img.width, img.height, k);
      }
    }
    f
  }

  /** Pixel (x, y) is entry y * width + x: its coordinates, its decoded depth and its render value. */
  lemma DecodeRowMajor(img: Image, x: int, y: int)
    requires Readable(img) && 0 <= x < img.width && 0 <= y < img.height
    ensures 0 <= y * img.width + x < img.width * img.height
    ensures var f, k := Decode(img), y * img.width + x;
      f.xs[k] == x && f.ys[k] == y &&
      f.ds[k] == Range(SampleAt(img, x, y)) as real / 1000.0 &&
      f.output[k] == Range(SampleAt(img, x, y)) as real / 10000.0
  {
    RowMajorBound(img.width, img.height, x, y);
    RowMajor(img.width, x, y);
  }

  /** The list depth is ten times the render value, and both stay within the 13-bit range. */
  lemma DepthAndOutput(img: Image, k: int)
    requires Readable(img) && 0 <= k < img.width * img.height
    ensures var f := Decode(img);
      f.ds[k] == 10.0 * f.output[k] && 0.0 <= f.output[k] <= 0.8191 && 0.0 <= f.ps[k] <= 1.0
  {
  }

  /** Entries 0 to n - 1 of the lists and of `output` are those of the decoded frame. */
  ghost predicate DecodedUpTo(img: Image, n: int, xs: seq<int>, ys: seq<int>, ds: seq<real>, ps: seq<real>, output: seq<real>)
    requires Readable(img)
  {
    |xs| == |ys| == |ds| == |ps| == n <= |output| &&
    forall k :: 0 <= k < n ==> Entry(img, k, xs[k], ys[k], ds[k], ps[k], output[k])
  }

  /** Lists whose every entry is the decoded one, for every pixel, are the decoded frame. */
  lemma DecodedAll(img: Image, xs: seq<int>, ys: seq<int>, ds: seq<real>, ps: seq<real>, output: seq<real>)
    requires Readable(img) && |output| == img.width * img.height
    requires DecodedUpTo(img, img.width * img.height, xs, ys, ds, ps, output)
    ensures Decoded(xs, ys, ds, ps, output) == Decode(img)
  {
    var f := Decode(img);
    assert xs == f.xs && ys == f.ys && ds == f.ds && ps == f.ps && output == f.output;
  }

  /**
   * The decode loop of `onImageAvailable`: rows y, then columns x, appending to the four
   * lists and writing `output[offset + x]`, with `offset` moving on by the width per row.
   */
  method DecodeFrame(img: Image) returns (xs: seq<int>, ys: seq<int>, ds: seq<real>, ps: seq<real>, output: array<real>)
    requires Readable(img)
    ensures fresh(output)
    ensures Decoded(xs, ys, ds, ps, output[..]) == Decode(img)
  {
    var width, height := img.width, img.height;
    MulMonotone(0, height, width);
    output := new real[width * height](_ => 0.0);
    xs, ys, ds, ps := [], [], [], [];
    var offset := 0;
    var y := 0;
    while y < height
      invariant 0 <= y <= height && offset == y * width <= width * height
      invariant DecodedUpTo(img, offset, xs, ys, ds, ps, output[..])
    {
      MulMonotone(y + 1, height, width);
      assert (y + 1) * width == y * width + width;
      xs, ys, ds, ps := DecodeRow(img, output, y, offset, xs, ys, ds, ps);
      offset := offset + width;
      y := y + 1;
    }
    assert offset == width * height;
    DecodedAll(img, xs, ys, ds, ps, output[..]);
  }

  /** The inner loop: the `width` pixels of row y, from entry `offset == y * width` on. */
  method DecodeRow(img: Image, output: array<real>, y: int, offset: int,
                   xs0: seq<int>, ys0: seq<int>, ds0: seq<real>, ps0: seq<real>)
    returns (xs: seq<int>, ys: seq<int>, ds: seq<real>, ps: seq<real>)
    requires Readable(img) && 0 <= y < img.height && offset == y * img.width
    requires offset + img.width <= output.Length
    requires DecodedUpTo(img, offset, xs0, ys0, ds0, ps0, output[..])
    modifies output
    ensures DecodedUpTo(img, offset + img.width, xs, ys, ds, ps, output[..])
  {
    xs, ys, ds, ps := xs0, ys0, ds0, ps0;
    var x := 0;
    while x < img.width
      invariant 0 <= x <= img.width
      invariant DecodedUpTo(img, offset + x, xs, ys, ds, ps, output[..])
    {
      ghost var before := output[..];
      var d, p := DecodePixel(img, output, x, y, offset + x);
      PixelAppended(img, offset + x, before, output[..], xs, ys, ds, ps, x, y, d, p);
      xs, ys, ds, ps := xs + [x], ys + [y], ds + [d], ps + [p];
      x := x + 1;
    }
  }

  /** One more entry, written at index n, extends the decoded prefix by one. */
  lemma PixelAppended(img: Image, n: int, before: seq<real>, after: seq<real>,
                      xs: seq<int>, ys: seq<int>, ds: seq<real>, ps: seq<real>, x: int, y: int, d: real, p: real)
    requires Readable(img) && 0 <= n < |after| == |before|
    requires DecodedUpTo(img, n, xs, ys, ds, ps, before)
    requires Entry(img, n, x, y, d, p, after[n])
    requires forall j :: 0 <= j < |after| && j != n ==> after[j] == before[j]
    ensures DecodedUpTo(img, n + 1, xs + [x], ys + [y], ds + [d], ps + [p], after)
  {
  }

  /** The body of the inner loop for pixel (x, y): `output[k]` is written; d and p are to be appended. */
  method DecodePixel(img: Image, output: array<real>, x: int, y: int, k: int) returns (d: real, p: real)
    requires Readable(img) && 0 <= x < img.width && 0 <= y < img.height
    requires k == y * img.width + x && k < output.Length
    modifies output
    ensures Entry(img, k, x, y, d, p, output[k])
    ensures forall j :: 0 <= j < output.Length && j != k ==> output[j] == old(output[j])
  {
    var depthSample := img.samples[SampleIndex(img, x, y)];
    var depthRange := Range(depthSample);
    var depthConfidence := Confidence(depthSample);
    var depthPercentage := if depthConfidence == 0 then 1.0 else (depthConfidence - 1) as real / 7.0;
    RowMajor(img.width, x, y);
    output[k] := depthRange as real / 10000.0;
    d, p := depthRange as real / 1000.0, depthPercentage;
  }

  /** The screen: its capture flag, its preferences and delete button, its renderer and the files it wrote. */
  class Activity {
    var captureImage: bool
    const counters: SampleCounter.Counters
    const renderer: OcclusionRenderer.Renderer
    var files: seq<SavedFile>

    predicate Valid()
      reads this, counters
    {
      counters.Valid()
    }

    /**
     * The field initialisers and `onCreate`: nothing armed, nothing written, the renderer's
     * dimensions still unset, and the saved counters with unset ones filled in.
     */
    constructor (saved: map<string, int>)
      requires SampleCounter.IntValues(saved)
      ensures fresh(counters) && fresh(renderer) && Valid()
      ensures !captureImage && files == []
      ensures counters.prefs == SampleCounter.Defaults(saved)
      ensures counters.deleteEnabled == (SampleCounter.Lookup(saved, SampleCounter.CURRENT_SAMPLE) == 0)
      ensures renderer.depthWidth == -1 && renderer.depthHeight == -1
    {
      captureImage := false;
      files := [];
      var c := new SampleCounter.Counters(saved);
      c.OnCreate();
      counters := c;
      renderer := new OcclusionRenderer.Renderer();
    }

    /** `onCaptureImage`: arms the next frame's save, but only with storage permission. */
    method OnCaptureImage(hasStoragePermission: bool)
      modifies this
      ensures captureImage == (old(captureImage) || hasStoragePermission)
      ensures files == old(files)
    {
      if !hasStoragePermission {
        return;
      }
      captureImage := true;
    }

    /**
     * `saveToFile`: the file is named after the current sample and the old capture count, the
     * count moves on by one before writing, and the text is one "x,y,d,p" line per depth entry.
     * `written` says whether the `FileWriter` succeeded.
     */
    method SaveToFile(xs: seq<int>, ys: seq<int>, ds: seq<real>, ps: seq<real>, fmt: real -> string, written: bool)
      requires Valid() && |ds| <= |xs| && |ds| <= |ys| && |ds| <= |ps|
      modifies this, counters
      ensures Valid() && captureImage == old(captureImage)
      ensures counters.deleteEnabled == old(counters.deleteEnabled)
      ensures counters.prefs == old(counters.prefs)[SampleCounter.NUM_CAPTURES :=
        Int32.Wrap(old(counters.Get(SampleCounter.NUM_CAPTURES)) + 1)]
      ensures files == old(files) + if written then [CaptureFile(old(counters.Get(SampleCounter.CURRENT_SAMPLE)),
        old(counters.Get(SampleCounter.NUM_CAPTURES)), xs, ys, ds, ps, fmt)] else []
    {
      var currentSample := counters.Get(SampleCounter.CURRENT_SAMPLE);
      var numCaptures := counters.Get(SampleCounter.NUM_CAPTURES);
      var file := TofCapture(currentSample, numCaptures, xs, ys, ds, ps, fmt);
      counters.Set(SampleCounter.NUM_CAPTURES, Int32.Wrap(numCaptures + 1));
      assert Valid() && captureImage == old(captureImage) && files == old(files);
      files := files + if written then [file] else [];
    }

    /**
     * `onImageAvailable`: no image, no change. Otherwise the frame is decoded, its depth array
     * handed to the renderer, and, when a capture was armed, saved; the flag is then cleared.
     */
    method OnImageAvailable(image: Option<Image>, fmt: real -> string, written: bool)
      requires Valid()
      requires image.Some? ==> Readable(image.value) && RendererFits(renderer, image.value)
      modifies this, counters, renderer
      ensures Valid()
      ensures renderer.depthWidth == old(renderer.depthWidth) && renderer.depthHeight == old(renderer.depthHeight)
      ensures counters.deleteEnabled == old(counters.deleteEnabled)
      ensures image.None? ==>
        captureImage == old(captureImage) && files == old(files) && counters.prefs == old(counters.prefs) &&
        renderer.vertices == old(renderer.vertices) && renderer.numPoints == old(renderer.numPoints)
      ensures image.Some? ==> !captureImage
      ensures image.Some? ==> var packed := OcclusionRenderer.Packed(Decode(image.value).output, renderer.depthWidth, renderer.depthHeight);
        renderer.vertices == OcclusionRenderer.Some(packed)
      ensures image.Some? && !old(captureImage) ==>
        files == old(files) && counters.prefs == old(counters.prefs)
      ensures image.Some? && old(captureImage) ==>
        var f, n := Decode(image.value), old(counters.Get(SampleCounter.NUM_CAPTURES));
        counters.prefs == old(counters.prefs)[SampleCounter.NUM_CAPTURES := Int32.Wrap(n + 1)] &&
        files == old(files) + if written then [CaptureFile(old(counters.Get(SampleCounter.CURRENT_SAMPLE)), n,
          f.xs, f.ys, f.ds, f.ps, fmt)] else []
    {
      if image.None? {
        return;
      }
      var img := image.value;
      var xs, ys, ds, ps, output := DecodeFrame(img);
      renderer.Update(output[..]);
      if captureImage {
        SaveToFile(xs, ys, ds, ps, fmt, written);
        captureImage := false;
      }
    }
  }

  /** The renderer reads `depthWidth * depthHeight` entries of the frame's depth array. */
  predicate RendererFits(renderer: OcclusionRenderer.Renderer, img: Image)
    reads renderer
  {
    renderer.depthWidth > 0 && renderer.depthHeight > 0 ==> renderer.depthWidth * renderer.depthHeight <= img.width * img.height
  }

  /** `ImageStore.saveToFileTOF` on the frame's buffers, as the file it produces. */
  method TofCapture(sample: int, capture: int, xs: seq<int>, ys: seq<int>, ds: seq<real>, ps: seq<real>,
                    fmt: real -> string)
    returns (file: SavedFile)
    requires |ds| <= |xs| && |ds| <= |ys| && |ds| <= |ps|
    ensures file == CaptureFile(sample, capture, xs, ys, ds, ps, fmt)
  {
    var name, text := ImageStore.SaveToFileTOF(sample, capture, xs, ys, ds, ps, fmt);
    file := SavedFile(name, text);
  }

  /** The capture file of one frame: `Capture_Sample_<sample>_<capture>` and its depth lines. */
  function CaptureFile(sample: int, capture: int, xs: seq<int>, ys: seq<int>, ds: seq<real>, ps: seq<real>,
                       fmt: real -> string): (file: SavedFile)
    requires |ds| <= |xs| && |ds| <= |ys| && |ds| <= |ps|
    ensures file.name == ImageStore.FileName(sample, capture, ImageStore.TOF)
    ensures file.text == Unlines(ImageStore.TofLines(xs, ys, ds, ps, fmt))
  {
    SavedFile(ImageStore.FileName(sample, capture, ImageStore.TOF), Unlines(ImageStore.TofLines(xs, ys, ds, ps, fmt)))
  }
}

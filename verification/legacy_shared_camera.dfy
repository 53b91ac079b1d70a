/**
 * The earlier ARCore shared-camera screen (`app/`): the same DEPTH16 decode loop as the `trees`
 * copy, but the depth list keeps the raw sample, the render value is `0.0001 * range`, and the
 * captures are numbered by an in-memory counter into files named `/Capture_<n>`.
 */
module LegacySharedCamera {
  import Int32
  import opened TofSample
  import opened DepthImage
  import opened Decimal
  import opened Text
  import ImageStore

  datatype Option<T> = None | Some(value: T)

  datatype SavedFile = SavedFile(name: string, text: string)

  /** The lists one frame fills, and the `output` array handed to the renderer. */
  datatype Decoded = Decoded(xs: seq<int>, ys: seq<int>, ds: seq<int>, ps: seq<real>, output: seq<real>)

  /**
   * Entry k: column and row of pixel k in row-major order, the sample itself as Java's `int`
   * sees a `short`, the confidence percentage, and the range times 0.0001.
   */
  predicate Entry(img: Image, k: int, x: int, y: int, d: int, p: real, o: real)
    requires Readable(img)
  {
    img.width > 0 && 0 <= k && 0 <= k % img.width && k / img.width < img.height &&
    x == k % img.width && y == k / img.width && 0 <= y &&
    d == Signed(SampleAt(img, x, y)) &&
    p == Percentage(Confidence(SampleAt(img, x, y))) &&
    o == 0.0001 * Range(SampleAt(img, x, y)) as real
  }

  /** The decoded frame, entry by entry. */
  function Decode(img: Image): (f: Decoded)
    requires Readable(img)
    ensures |f.xs| == |f.ys| == |f.ds| == |f.ps| == |f.output| == img.width * img.height
    ensures forall k :: 0 <= k < img.width * img.height ==>
      Entry(img, k, f.xs[k], f.ys[k], f.ds[k], f.ps[k], f.output[k])
  {
    var n := img.width * img.height;
    var f := Decoded(
      seq(n, k requires 0 <= k < n => (GridIndex(img.width, img.height, k); k % img.width)),
      seq(n, k requires 0 <= k < n => (GridIndex(img.width, img.height, k); k / img.width)),
      seq(n, k requires 0 <= k < n => Signed(SampleOfIndex(img, k))),
      seq(n, k requires 0 <= k < n => Percentage(Confidence(SampleOfIndex(img, k)))),
      seq(n, k requires 0 <= k < n => 0.0001 * Range(SampleOfIndex(img, k)) as real));
    assert forall k :: 0 <= k < n ==> Entry(img, k, f.xs[k], f.ys[k], f.ds[k], f.ps[k], f.output[k]) by {
      forall k | 0 <= k < n
        ensures Entry(img, k, f.xs[k], f.ys[k], f.ds[k], f.ps[k], f.output[k])
      {
        GridIndex(img.width, img.height, k);
      }
    }
    f
  }

  /**
   * The depth list keeps the whole sample: its range and confidence fields are still there,
   * while the render value only carries the range.
   */
  lemma RawSampleKept(img: Image, x: int, y: int)
    requires Readable(img) && 0 <= x < img.width && 0 <= y < img.height
    ensures 0 <= y * img.width + x < img.width * img.height
    ensures var f, k, s := Decode(img), y * img.width + x, SampleAt(img, x, y);
      f.xs[k] == x && f.ys[k] == y &&
      f.ds[k] % 0x1_0000 == s && f.ds[k] % 8192 == Range(s) &&
      f.output[k] * 10000.0 == Range(s) as real
  {
    RowMajorBound(img.width, img.height, x, y);
    RowMajor(img.width, x, y);
    var s := SampleAt(img, x, y);
    var d := Signed(s);
    assert d % 0x1_0000 == s;
    assert d % 8192 == s % 8192 by {
      assert d == s as int || d == s as int - 0x1_0000;
      assert 0x1_0000 == 8 * 8192;
    }
  }

  ghost predicate DecodedUpTo(img: Image, n: int, xs: seq<int>, ys: seq<int>, ds: seq<int>, ps: seq<real>, output: seq<real>)
    requires Readable(img)
  {
    |xs| == |ys| == |ds| == |ps| == n <= |output| &&
    forall k :: 0 <= k < n ==> Entry(img, k, xs[k], ys[k], ds[k], ps[k], output[k])
  }

  lemma DecodedAll(img: Image, xs: seq<int>, ys: seq<int>, ds: seq<int>, ps: seq<real>, output: seq<real>)
    requires Readable(img) && |output| == img.width * img.height
    requires DecodedUpTo(img, img.width * img.height, xs, ys, ds, ps, output)
    ensures Decoded(xs, ys, ds, ps, output) == Decode(img)
  {
    var f := Decode(img);
    assert xs == f.xs && ys == f.ys && ds == f.ds && ps == f.ps && output == f.output;
  }

  /** The decode loop: rows, then columns, with `offset` moving on by the width per row. */
  method DecodeFrame(img: Image) returns (xs: seq<int>, ys: seq<int>, ds: seq<int>, ps: seq<real>, output: array<real>)
    requires Readable(img)
    ensures fresh(output)
    ensures Decoded(xs, ys, ds, ps, output[..]) == Decode(img)
  {
    var width, height := img.width, img.height;
    MulMonotone(0, height, width);
    output := new real[width * height](_ => 0.0);
    xs, ys, ds, ps := [], [], [], [];
    var offset := 0;
    var y := 0;
    while y < height
      invariant 0 <= y <= height && offset == y * width <= width * height
      invariant DecodedUpTo(img, offset, xs, ys, ds, ps, output[..])
    {
      MulMonotone(y + 1, height, width);
      assert (y + 1) * width == y * width + width;
      xs, ys, ds, ps := DecodeRow(img, output, y, offset, xs, ys, ds, ps);
      offset := offset + width;
      y := y + 1;
    }
    assert offset == width * height;
    DecodedAll(img, xs, ys, ds, ps, output[..]);
  }

  method DecodeRow(img: Image, output: array<real>, y: int, offset: int,
                   xs0: seq<int>, ys0: seq<int>, ds0: seq<int>, ps0: seq<real>)
    returns (xs: seq<int>, ys: seq<int>, ds: seq<int>, ps: seq<real>)
    requires Readable(img) && 0 <= y < img.height && offset == y * img.width
    requires offset + img.width <= output.Length
    requires DecodedUpTo(img, offset, xs0, ys0, ds0, ps0, output[..])
    modifies output
    ensures DecodedUpTo(img, offset + img.width, xs, ys, ds, ps, output[..])
  {
    xs, ys, ds, ps := xs0, ys0, ds0, ps0;
    var x := 0;
    while x < img.width
      invariant 0 <= x <= img.width
      invariant DecodedUpTo(img, offset + x, xs, ys, ds, ps, output[..])
    {
      ghost var before := output[..];
      var d, p := DecodePixel(img, output, x, y, offset + x);
      PixelAppended(img, offset + x, before, output[..], xs, ys, ds, ps, x, y, d, p);
      xs, ys, ds, ps := xs + [x], ys + [y], ds + [d], ps + [p];
      x := x + 1;
    }
  }

  lemma PixelAppended(img: Image, n: int, before: seq<real>, after: seq<real>,
                      xs: seq<int>, ys: seq<int>, ds: seq<int>, ps: seq<real>, x: int, y: int, d: int, p: real)
    requires Readable(img) && 0 <= n < |after| == |before|
    requires DecodedUpTo(img, n, xs, ys, ds, ps, before)
    requires Entry(img, n, x, y, d, p, after[n])
    requires forall j :: 0 <= j < |after| && j != n ==> after[j] == before[j]
    ensures DecodedUpTo(img, n + 1, xs + [x], ys + [y], ds + [d], ps + [p], after)
  {
  }

  /** One pixel: `output[k]` is written; the sample and its percentage are to be appended. */
  method DecodePixel(img: Image, output: array<real>, x: int, y: int, k: int) returns (d: int, p: real)
    requires Readable(img) && 0 <= x < img.width && 0 <= y < img.height
    requires k == y * img.width + x && k < output.Length
    modifies output
    ensures Entry(img, k, x, y, d, p, output[k])
    ensures forall j :: 0 <= j < output.Length && j != k ==> output[j] == old(output[j])
  {
    var depthSample := Signed(img.samples[SampleIndex(img, x, y)]);
    var word := img.samples[SampleIndex(img, x, y)];
    var depthRange := Range(word);
    var depthConfidence := Confidence(word);
    var depthPercentage := if depthConfidence == 0 then 1.0 else (depthConfidence - 1) as real / 7.0;
    RowMajor(img.width, x, y);
    output[k] := 0.0001 * depthRange as real;
    d, p := depthSample, depthPercentage;
  }

  /** Line i of a capture file: x, y, the raw sample and the percentage. */
  function RawLine(x: int, y: int, d: int, p: real, fmt: real -> string): string {
    IntToString(x) + "," + IntToString(y) + "," + IntToString(d) + "," + fmt(p)
  }

  function RawLines(xs: seq<int>, ys: seq<int>, ds: seq<int>, ps: seq<real>, fmt: real -> string): (lines: seq<string>)
    requires |ds| <= |xs| && |ds| <= |ys| && |ds| <= |ps|
    ensures |lines| == |ds|
    ensures forall i :: 0 <= i < |ds| ==> lines[i] == RawLine(xs[i], ys[i], ds[i], ps[i], fmt)
  {
    seq(|ds|, i requires 0 <= i < |ds| => RawLine(xs[i], ys[i], ds[i], ps[i], fmt))
  }

  /** A reader splitting a line on ',' gets four fields, and the third reads back as the sample. */
  lemma RawLineReadsBack(x: int, y: int, d: int, p: real, fmt: real -> string)
    requires ',' !in fmt(p)
    ensures var fields := Split(RawLine(x, y, d, p, fmt), ',');
      |fields| == 4 && ParseInt(fields[0]) == Decimal.Some(x) && ParseInt(fields[1]) == Decimal.Some(y) &&
      ParseInt(fields[2]) == Decimal.Some(d) && fields[3] == fmt(p)
  {
    var f := [IntToString(x), IntToString(y), IntToString(d), fmt(p)];
    JoinFour(f[0], f[1], f[2], f[3], ',');
    assert RawLine(x, y, d, p, fmt) == Join(f, ',');
    ImageStore.NoSeparatorInNumber(x);
    ImageStore.NoSeparatorInNumber(y);
    ImageStore.NoSeparatorInNumber(d);
    SplitJoin(f, ',');
    ParseIntToString(x);
    ParseIntToString(y);
    ParseIntToString(d);
  }

  /** The screen: the capture flag, the capture counter and the files written. */
  class Activity {
    var captureImage: bool
    var numCaptures: int
    var files: seq<SavedFile>

    constructor ()
      ensures !captureImage && numCaptures == 0 && files == []
    {
      captureImage := false;
      numCaptures := 0;
      files := [];
    }

    /** `onCaptureImage`: arms the next frame's save, but only with storage permission. */
    method OnCaptureImage(hasStoragePermission: bool)
      modifies this
      ensures captureImage == (old(captureImage) || hasStoragePermission)
      ensures numCaptures == old(numCaptures) && files == old(files)
    {
      if !hasStoragePermission {
        return;
      }
      captureImage := true;
    }

    /**
     * `saveToFile`: the file is `/Capture_<n>` for the counter's old value, the counter moves on
     * by one whatever happens next, and the text is one "x,y,d,p" line per depth entry;
     * `written` says whether the file could be opened and written.
     */
    method SaveToFile(xs: seq<int>, ys: seq<int>, ds: seq<int>, ps: seq<real>, fmt: real -> string, written: bool)
      requires Int32.InRange(numCaptures) && |ds| <= |xs| && |ds| <= |ys| && |ds| <= |ps|
      modifies this
      ensures numCaptures == Int32.Wrap(old(numCaptures) + 1) && captureImage == old(captureImage)
      ensures files == old(files) + if written then [CaptureFile(old(numCaptures), xs, ys, ds, ps, fmt)] else []
    {
      var name := "/Capture_" + IntToString(numCaptures);
      numCaptures := Int32.Wrap(numCaptures + 1);
      var str := CaptureText(xs, ys, ds, ps, fmt);
      if written {
        files := files + [SavedFile(name, str)];
      }
    }

    /**
     * `onImageAvailable`: no image, no change. Otherwise the frame is decoded and, when a capture
     * was armed, saved, and the flag cleared. The depth array for the renderer is the result.
     */
    method OnImageAvailable(image: Option<Image>, fmt: real -> string, written: bool) returns (output: Option<seq<real>>)
      requires Int32.InRange(numCaptures)
      requires image.Some? ==> Readable(image.value)
      modifies this
      ensures image.None? ==> output.None?
      ensures image.None? ==>
        captureImage == old(captureImage) && numCaptures == old(numCaptures) && files == old(files)
      ensures image.Some? ==> output == Option.Some(Decode(image.value).output) && !captureImage
      ensures image.Some? && !old(captureImage) ==> numCaptures == old(numCaptures) && files == old(files)
      ensures image.Some? && old(captureImage) ==>
        var f := Decode(image.value);
        numCaptures == Int32.Wrap(old(numCaptures) + 1) &&
        files == old(files) + if written then [CaptureFile(old(numCaptures), f.xs, f.ys, f.ds, f.ps, fmt)] else []
    {
      if image.None? {
        return Option.None;
      }
      var xs, ys, ds, ps, out := DecodeFrame(image.value);
      output := Option.Some(out[..]);
      if captureImage {
        SaveToFile(xs, ys, ds, ps, fmt, written);
        captureImage := false;
      }
    }
  }

  /** The text the builder collects: one "x,y,d,p" line per depth entry, each ended by '\n'. */
  method CaptureText(xs: seq<int>, ys: seq<int>, ds: seq<int>, ps: seq<real>, fmt: real -> string) returns (str: string)
    requires |ds| <= |xs| && |ds| <= |ys| && |ds| <= |ps|
    ensures str == Unlines(RawLines(xs, ys, ds, ps, fmt))
  {
    str := "";
    var i := 0;
    ghost var lines := RawLines(xs, ys, ds, ps, fmt);
    while i < |ds|
      invariant 0 <= i <= |ds|
      invariant str == Unlines(lines[..i])
    {
      str := AppendRawLine(str, xs[i], ys[i], ds[i], ps[i], fmt);
      UnlinesSnoc(lines[..i], lines[i]);
      PrefixSnoc(lines, i);
      i := i + 1;
    }
    assert lines[..|ds|] == lines;
  }

  /** The eight appends of one iteration. */
  method AppendRawLine(before: string, x: int, y: int, d: int, p: real, fmt: real -> string) returns (str: string)
    ensures str == before + RawLine(x, y, d, p, fmt) + "\n"
  {
    str := before + IntToString(x);
    str := str + ",";
    str := str + IntToString(y);
    str := str + ",";
    str := str + IntToString(d);
    str := str + ",";
    str := str + fmt(p);
    str := str + "\n";
  }

  /** The file of capture n: `/Capture_<n>` and one line per depth entry. */
  function CaptureFile(n: int, xs: seq<int>, ys: seq<int>, ds: seq<int>, ps: seq<real>, fmt: real -> string): (file: SavedFile)
    requires |ds| <= |xs| && |ds| <= |ys| && |ds| <= |ps|
    ensures file.name == "/Capture_" + IntToString(n)
    ensures file.text == Unlines(RawLines(xs, ys, ds, ps, fmt))
  {
    SavedFile("/Capture_" + IntToString(n), Unlines(RawLines(xs, ys, ds, ps, fmt)))
  }

  /** Successive captures never reuse a name while the counter has not wrapped. */
  lemma CaptureNamesDistinct(m: int, n: int)
    requires m != n
    ensures "/Capture_" + IntToString(m) != "/Capture_" + IntToString(n)
  {
    var a, b := "/Capture_" + IntToString(m), "/Capture_" + IntToString(n);
    if a == b {
      assert a[9..] == IntToString(m) && b[9..] == IntToString(n);
      IntToStringInjective(m, n);
    }
  }
}

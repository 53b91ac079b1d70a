/**
 * The capture files as the offline tools read them back: the name `ImageStore` gives a depth
 * capture is listed and parsed by the Python scripts into its own sample and capture numbers,
 * and each line it writes becomes, in `pcd_write.cpp`, the point of that pixel.
 */
module CaptureRoundTrip {
  import opened Text
  import opened Decimal
  import ImageStore
  import CaptureIndex
  import PcdWrite

  /** The last character of a decimal number is a digit. */
  lemma NumberEndsInDigit(i: int)
    ensures IsDigit(IntToString(i)[|IntToString(i)| - 1])
  {
    if i < 0 {
      assert IntToString(i) == "-" + NatToString(-i);
    }
  }

  lemma LastOfConcat(a: string, b: string)
    requires |b| >= 1
    ensures (a + b)[|a + b| - 1] == b[|b| - 1]
  {
  }

  /** A name ending in a digit has neither of the extensions the scripts skip. */
  lemma DigitEndingKept(name: string)
    requires |name| >= 1 && IsDigit(name[|name| - 1])
    ensures !EndsWith(name, ".txt") && !EndsWith(name, ".jpeg")
  {
  }

  /**
   * The directory filter keeps exactly the depth file of a capture: its image and matrix files
   * are skipped by their extensions.
   */
  lemma OnlyDepthFilesKept(sample: int, capture: int)
    ensures CaptureIndex.IsDepthCapture(ImageStore.FileName(sample, capture, ImageStore.TOF))
    ensures !CaptureIndex.IsDepthCapture(ImageStore.FileName(sample, capture, ImageStore.JPEG))
    ensures !CaptureIndex.IsDepthCapture(ImageStore.FileName(sample, capture, ImageStore.MATRIX))
  {
    DepthFileKept(sample, capture);
  }

  lemma DepthFileKept(sample: int, capture: int)
    ensures CaptureIndex.IsDepthCapture(ImageStore.FileName(sample, capture, ImageStore.TOF))
  {
    var tof := ImageStore.FileName(sample, capture, ImageStore.TOF);
    var head, b := ImageStore.PREFIX + IntToString(sample) + "_", IntToString(capture);
    NumberEndsInDigit(capture);
    assert tof == head + b;
    LastOfConcat(head, b);
    DigitEndingKept(tof);
    assert StartsWith(tof, CaptureIndex.SAMPLE_PREFIX) by {
      assert tof[..|ImageStore.PREFIX|] == ImageStore.PREFIX;
    }
  }

  /**
   * The scripts read back the numbers of a depth file's name: its last two '_'-separated
   * fields are the sample and the capture, negative numbers included.
   */
  lemma DepthNameParses(sample: int, capture: int)
    ensures CaptureIndex.ParseName(ImageStore.FileName(sample, capture, ImageStore.TOF)) == CaptureIndex.Some((sample, capture))
  {
    var a, b := IntToString(sample), IntToString(capture);
    ImageStore.NoSeparatorInNumber(sample);
    ImageStore.NoSeparatorInNumber(capture);
    var name := ImageStore.FileName(sample, capture, ImageStore.TOF);
    var head := "Capture_Sample" + ['_'] + a;
    assert name == head + ['_'] + b;
    SplitBeforeField("Capture_Sample", '_', a);
    SplitBeforeField(head, '_', b);
    var parts := Split(name, '_');
    assert parts == Split("Capture_Sample", '_') + [a] + [b];
    assert parts[|parts| - 2] == a && parts[|parts| - 1] == b;
    ParseIntToString(sample);
    ParseIntToString(capture);
  }

  /**
   * A listing of the depth files written for any captures is indexed back into exactly those
   * captures, in listing order.
   */
  lemma ListingIndexed(pairs: seq<(int, int)>)
    ensures CaptureIndex.Numbers(Names(pairs)) == CaptureIndex.Some(pairs)
  {
    var names := Names(pairs);
    forall k | 0 <= k < |names|
      ensures CaptureIndex.ParseName(names[k]) == CaptureIndex.Some(pairs[k])
    {
      DepthNameParses(pairs[k].0, pairs[k].1);
    }
    CaptureIndex.NumbersOfParsed(names, pairs);
  }

  /** The depth file names of a sequence of captures. */
  function Names(pairs: seq<(int, int)>): (names: seq<string>)
    ensures |names| == |pairs|
    ensures forall k :: 0 <= k < |pairs| ==> names[k] == ImageStore.FileName(pairs[k].0, pairs[k].1, ImageStore.TOF)
  {
    seq(|pairs|, k requires 0 <= k < |pairs| => ImageStore.FileName(pairs[k].0, pairs[k].1, ImageStore.TOF))
  }

  /** What `std::stof` is taken to do on a decimal integer: read it back as that number. */
  ghost predicate ReadsIntegers(stof: string -> PcdWrite.Option<real>) {
    forall i: int :: stof(IntToString(i)) == PcdWrite.Some(i as real)
  }

  /**
   * What `std::stof` is taken to do on the two float fields of one depth line: the formatted
   * depth reads back as the depth itself, and the formatted percentage as some number.
   */
  ghost predicate ReadsDepth(stof: string -> PcdWrite.Option<real>, fmt: real -> string, d: real, p: real) {
    stof(fmt(d)) == PcdWrite.Some(d) && stof(fmt(p)).Some?
  }

  /**
   * A line the app writes for pixel (x, y) is read by `writePcd` as that pixel and its depth;
   * the confidence in the fourth field is ignored.
   */
  lemma DepthLineConverts(x: int, y: int, d: real, p: real, fmt: real -> string, stof: string -> PcdWrite.Option<real>)
    requires ImageStore.CsvField(fmt) && ReadsIntegers(stof) && ReadsDepth(stof, fmt, d, p)
    ensures PcdWrite.ParseLine(ImageStore.TofLine(x, y, d, p, fmt), stof) == PcdWrite.Coords(x as real, y as real, d)
  {
    ImageStore.TofLineTokens(x, y, d, p, fmt);
    var fields := ImageStore.TofFields(x, y, d, p, fmt);
    var data := PcdWrite.Floats(fields, stof);
    assert stof(fields[0]) == PcdWrite.Some(x as real);
    assert stof(fields[1]) == PcdWrite.Some(y as real);
    assert stof(fields[2]) == PcdWrite.Some(d);
    assert stof(fields[3]).Some?;
    assert data.Some?;
  }

  /**
   * Every line of a depth file the app writes gives `writePcd` a point: the file converts, and
   * point k is that of pixel (xs[k], ys[k]) at depth ds[k].
   */
  lemma DepthFileConverts(xs: seq<int>, ys: seq<int>, ds: seq<real>, ps: seq<real>,
                          fmt: real -> string, stof: string -> PcdWrite.Option<real>)
    requires |ds| <= |xs| && |ds| <= |ys| && |ds| <= |ps|
    requires ImageStore.CsvField(fmt) && ReadsIntegers(stof)
    requires forall k :: 0 <= k < |ds| ==> ReadsDepth(stof, fmt, ds[k], ps[k])
    ensures var c := PcdWrite.Convert(PcdWrite.ParseLines(ImageStore.TofLines(xs, ys, ds, ps, fmt), stof));
      c.Points? && |c.points| == |ds| &&
      forall k :: 0 <= k < |ds| ==> c.points[k] == PcdWrite.PointXYZFromDepth(xs[k] as real, ys[k] as real, ds[k])
  {
    var lines := ImageStore.TofLines(xs, ys, ds, ps, fmt);
    var parsed := PcdWrite.ParseLines(lines, stof);
    forall k | 0 <= k < |ds|
      ensures parsed[k] == PcdWrite.Coords(xs[k] as real, ys[k] as real, ds[k])
    {
      DepthLineConverts(xs[k], ys[k], ds[k], ps[k], fmt, stof);
    }
    PcdWrite.ConvertPoints(parsed);
  }
}

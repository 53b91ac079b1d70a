/**
 * `RGBD.py`, the offline batch measurement: it reads the reference widths, lists the depth
 * captures of a directory by sample, and measures each capture. Plotting, the RGB image, the
 * CSV summary and the numerical steps (mode, PCA, rotation, cosine) are not modelled; the
 * numerical results enter as parameters.
 */
module Rgbd {
  import opened DepthFrame
  import opened TrunkScan
  import opened Text
  import Decimal
  import CaptureIndex

  // ---------------------------------------------------------------------------------------
  // get_widths
  // ---------------------------------------------------------------------------------------

  /** One line of the reference file read as `sample: width`. */
  datatype WidthLine = Entry(sample: int, width: real) | WrongFieldCount | NotANumber

  /**
   * `line.split(':')` must give exactly two parts; `float(parse[1])` and `int(parse[0])` then
   * raise on text that is not a number. Python's `float` is a parameter.
   */
  function ParseWidthLine(line: string, parseFloat: string -> Option<real>): WidthLine {
    var parts := Split(line, ':');
    if |parts| != 2 then WrongFieldCount
    else
      match (parseFloat(parts[1]), Decimal.ParseInt(parts[0]))
      case (Some(width), Some(sample)) => Entry(sample, width)
      case _ => NotANumber
  }

  /** The outcome of `get_widths`: the table, or the ValueError raised on a line. */
  datatype Widths = Table(widths: map<int, real>) | ValueError(line: nat, fieldCount: bool)

  /** Every line of the file, read on its own. */
  function ParseWidthLines(lines: seq<string>, parseFloat: string -> Option<real>): seq<WidthLine> {
    seq(|lines|, i requires 0 <= i < |lines| => ParseWidthLine(lines[i], parseFloat))
  }

  /** The table after reading the lines in order: a later line overwrites an earlier sample. */
  function Tabulate(parsed: seq<WidthLine>): Widths {
    if parsed == [] then Table(map[])
    else
      var i := |parsed| - 1;
      match Tabulate(parsed[..i])
      case ValueError(line, fieldCount) => ValueError(line, fieldCount)
      case Table(widths) =>
        match parsed[i]
        case Entry(sample, width) => Table(widths[sample := width])
        case WrongFieldCount => ValueError(i, true)
        case NotANumber => ValueError(i, false)
  }

  /**
   * `get_widths`: every line of the file, in order, goes into the table; the first line that
   * is not two numbers around one ':' raises ValueError (with its index for a wrong field count).
   */
  method GetWidths(lines: seq<string>, parseFloat: string -> Option<real>) returns (r: Widths)
    ensures r == Tabulate(ParseWidthLines(lines, parseFloat))
  {
    ghost var all := ParseWidthLines(lines, parseFloat);
    var widths: map<int, real> := map[];
    for i := 0 to |lines|
      invariant Tabulate(all[..i]) == Table(widths)
    {
      assert all[..i + 1][..i] == all[..i];
      var parsed := ParseWidthLine(lines[i], parseFloat);
      assert all[i] == parsed;
      if parsed.WrongFieldCount? {
        TabulateFailFrom(all, i + 1);
        return ValueError(i, true);
      } else if parsed.NotANumber? {
        TabulateFailFrom(all, i + 1);
        return ValueError(i, false);
      }
      widths := widths[parsed.sample := parsed.width];
    }
    assert all[..|lines|] == all;
    r := Table(widths);
  }

  /** An error on a line is the error of the whole file. */
  lemma {:induction false} TabulateFailFrom(parsed: seq<WidthLine>, i: nat)
    requires i <= |parsed| && Tabulate(parsed[..i]).ValueError?
    ensures Tabulate(parsed) == Tabulate(parsed[..i])
    decreases |parsed| - i
  {
    if i < |parsed| {
      assert parsed[..i + 1][..i] == parsed[..i];
      TabulateFailFrom(parsed, i + 1);
    } else {
      assert parsed[..i] == parsed;
    }
  }

  /** The file is read in full exactly when every line is an entry. */
  lemma {:induction false} TabulateComplete(parsed: seq<WidthLine>)
    ensures Tabulate(parsed).Table? <==> forall i :: 0 <= i < |parsed| ==> parsed[i].Entry?
  {
    if parsed != [] {
      var n := |parsed| - 1;
      var init := parsed[..n];
      TabulateComplete(init);
      assert forall i :: 0 <= i < n ==> init[i] == parsed[i];
    }
  }

  /**
   * A ValueError names the first line that is not an entry, and says whether that line's
   * field count was wrong.
   */
  lemma {:induction false} TabulateFirstError(parsed: seq<WidthLine>)
    requires Tabulate(parsed).ValueError?
    ensures var e := Tabulate(parsed);
      e.line < |parsed| && !parsed[e.line].Entry? && (e.fieldCount <==> parsed[e.line].WrongFieldCount?) &&
      forall i :: 0 <= i < e.line ==> parsed[i].Entry?
  {
    var n := |parsed| - 1;
    var init := parsed[..n];
    assert forall i :: 0 <= i < n ==> init[i] == parsed[i];
    if Tabulate(init).Table? {
      TabulateComplete(init);
    } else {
      TabulateFirstError(init);
    }
  }

  /**
   * The width of a sample is the one on the last line naming it: a line whose sample no later
   * line repeats decides that sample's entry.
   */
  lemma {:induction false} TabulateLastWins(parsed: seq<WidthLine>, i: nat)
    requires Tabulate(parsed).Table? && i < |parsed| && parsed[i].Entry?
    requires forall j :: i < j < |parsed| && parsed[j].Entry? ==> parsed[j].sample != parsed[i].sample
    ensures parsed[i].sample in Tabulate(parsed).widths
    ensures Tabulate(parsed).widths[parsed[i].sample] == parsed[i].width
  {
    var init := parsed[..|parsed| - 1];
    if i < |parsed| - 1 {
      assert forall j :: 0 <= j < |init| ==> init[j] == parsed[j];
      TabulateLastWins(init, i);
    }
  }

  /** Every sample in the table was named on some line. */
  lemma {:induction false} TabulateNamed(parsed: seq<WidthLine>, sample: int)
    requires Tabulate(parsed).Table? && sample in Tabulate(parsed).widths
    ensures exists i :: 0 <= i < |parsed| && parsed[i].Entry? && parsed[i].sample == sample
  {
    var n := |parsed| - 1;
    var init := parsed[..n];
    if parsed[n].sample != sample {
      TabulateNamed(init, sample);
      var i :| 0 <= i < |init| && init[i].Entry? && init[i].sample == sample;
      assert parsed[i] == init[i];
    }
  }

  // ---------------------------------------------------------------------------------------
  // The directory listing
  // ---------------------------------------------------------------------------------------

  datatype Listing = NoSamples | BadName | Listed(index: map<int, seq<int>>)

  /**
   * The `__main__` listing: the depth captures are kept; none at all ends the script with
   * status 1; otherwise their numbers are grouped by sample (a name whose last two fields are
   * not numbers stops the script).
   */
  method ListSamples(names: seq<string>) returns (r: Listing)
    ensures r.NoSamples? <==> CaptureIndex.DepthCaptures(names) == []
    ensures r.BadName? <==>
      CaptureIndex.DepthCaptures(names) != [] && CaptureIndex.Numbers(CaptureIndex.DepthCaptures(names)).None?
    ensures r.Listed? ==>
      r.index == CaptureIndex.Group(CaptureIndex.Numbers(CaptureIndex.DepthCaptures(names)).value)
  {
    var fileNames := CaptureIndex.DepthCaptures(names);
    if |fileNames| < 1 {
      return NoSamples;
    }
    var index := CaptureIndex.IndexCaptures(fileNames);
    if index.None? {
      return BadName;
    }
    r := Listed(index.value);
  }

  // ---------------------------------------------------------------------------------------
  // get_data and run_sample
  // ---------------------------------------------------------------------------------------

  /**
   * The matrices of `get_data`: the confidence and depth columns, each reshaped to 180×240 and
   * upsampled to 360×480; a file of any other length makes the reshape raise.
   */
  function GetData(depths: seq<real>, confs: seq<real>): (r: Option<(Grid, Grid)>)
    requires |depths| == |confs|
    ensures r.Some? <==> |depths| == TOF_ROWS * TOF_COLS
    ensures r.Some? ==> IsGrid(r.value.0, ROWS, COLS) && IsGrid(r.value.1, ROWS, COLS)
    ensures r.Some? ==> r.value.0 == TofFrame(confs).value && r.value.1 == TofFrame(depths).value
  {
    match (TofFrame(confs), TofFrame(depths))
    case (Some(conf), Some(depth)) => Some((conf, depth))
    case _ => None
  }

  /** The row of the summary for one capture, and the edges drawn on its figure. */
  datatype SampleResult = SampleResult(
    sample: int, capture: int, trunkDepth: real, referenceWidth: real, estimatedWidth: real,
    angle: real, error: real, percentError: Option<real>, left: nat, right: nat)

  /**
   * `run_sample` either raises on a file of the wrong length, returns None (after printing)
   * when the centre has no depth, raises IndexError at `bins[...]` when the modal bin is past
   * the last edge, raises ValueError in PCA when fewer than two centre points survive the
   * filter, or returns the result row. A reference width of 0 does not raise: the row then
   * carries an infinite or undefined percentage.
   */
  datatype SampleOutcome = BadShape | NoDepth | BinIndexError | TooFewPoints | Sampled(result: SampleResult)

  /**
   * `run_sample`. The modal bin of the digitised centre depths, the principal-axis angle, the
   * rotation and `get_estimated_width` are parameters.
   */
  method RunSample(sample: int, capture: int, width: real, depths: seq<real>, confs: seq<real>,
                   modalBin: int, axisAngle: real, rotate: Rotation, estimate: (real, int, real) -> real)
    returns (r: SampleOutcome)
    requires |depths| == |confs|
    ensures r.BadShape? <==> |depths| != TOF_ROWS * TOF_COLS
    ensures r.NoDepth? <==> |depths| == TOF_ROWS * TOF_COLS && CenterSum(TofFrame(depths).value) == 0.0
    ensures r.BinIndexError? <==>
      |depths| == TOF_ROWS * TOF_COLS && CenterSum(TofFrame(depths).value) != 0.0 && BinEdge(modalBin).None?
    ensures r.TooFewPoints? <==>
      |depths| == TOF_ROWS * TOF_COLS && CenterSum(TofFrame(depths).value) != 0.0 && BinEdge(modalBin).Some? &&
      CenterPositives(FilterNearMode(TofFrame(depths).value, BinEdge(modalBin).value)) < PCA_MIN_SAMPLES
    ensures r.Sampled? <==>
      |depths| == TOF_ROWS * TOF_COLS && CenterSum(TofFrame(depths).value) != 0.0 && BinEdge(modalBin).Some? &&
      CenterPositives(FilterNearMode(TofFrame(depths).value, BinEdge(modalBin).value)) >= PCA_MIN_SAMPLES
    ensures r.Sampled? ==>
      var s := r.result;
      BinEdge(modalBin).Some? && s.trunkDepth == BinEdge(modalBin).value &&
      s.sample == sample && s.capture == capture && s.referenceWidth == width &&
      s.angle == UprightAngle(axisAngle) && s.estimatedWidth == estimate(s.trunkDepth, s.right - s.left, s.angle) &&
      s.error == s.estimatedWidth - width && s.percentError == PercentError(s.error, width) &&
      (s.left == 0 <==> s.right == 0) && s.left <= s.right
  {
    var data := GetData(depths, confs);
    if data.None? {
      return BadShape;
    }
    var depth := data.value.1;
    if CenterSum(depth) == 0.0 {
      return NoDepth;
    }
    var edge := BinEdge(modalBin);
    if edge.None? {
      return BinIndexError;
    }
    var modeDepth := edge.value;
    var filtered := FilterNearMode(depth, modeDepth);
    if CenterPositives(filtered) < PCA_MIN_SAMPLES {
      return TooFewPoints;
    }
    var angle, left, right := UprightBoundaries(filtered, axisAngle, rotate);
    var estimated := estimate(modeDepth, right - left, angle);
    var error := estimated - width;
    var percent := PercentError(error, width);
    r := Sampled(SampleResult(sample, capture, modeDepth, width, estimated, angle, error, percent, left, right));
  }
}

/**
 * `pcd_write.cpp`: turns a depth capture file (lines `u,v,depth,confidence`) into a
 * 180×240 point cloud, placing every pixel in camera space with the ToF camera's intrinsic
 * parameters. Writing the cloud as an ASCII PCD file is not part of this model.
 */
module PcdWrite {
  import opened Text

  datatype Option<T> = None | Some(value: T)

  const CLOUD_WIDTH: nat := 180
  const CLOUD_HEIGHT: nat := 240

  // Camera intrinsic parameters of `pointXYZFromDepth`.
  const ALPH_X: real := 492.68967
  const ALPH_Y: real := 492.6062
  const U0: real := 323.59485
  const V0: real := 234.65974

  /** A float coordinate: a number or the quiet NaN marking an invalid point. */
  datatype Coord = Num(v: real) | NaN

  datatype PointXYZ = PointXYZ(x: Coord, y: Coord, z: Coord)

  /** A default-constructed `pcl::PointXYZ`. */
  const ORIGIN := PointXYZ(Num(0.0), Num(0.0), Num(0.0))

  /** The point cloud of `makeCloud`, updated in place by `writePcd`. */
  class Cloud {
    var width: nat
    var height: nat
    var isDense: bool
    var points: array<PointXYZ>
    var sensorOrigin: (real, real, real)
    /** The quaternion (w, x, y, z). */
    var sensorOrientation: (real, real, real, real)

    /**
     * `makeCloud`: the ToF image's dimensions, possibly NaN points (not dense), width × height
     * default points, the sensor at the origin turned by the quaternion (0, 1, 0, 0).
     */
    constructor ()
      ensures width == CLOUD_WIDTH && height == CLOUD_HEIGHT && !isDense
      ensures fresh(points) && points.Length == width * height
      ensures forall k :: 0 <= k < points.Length ==> points[k] == ORIGIN
      ensures sensorOrigin == (0.0, 0.0, 0.0) && sensorOrientation == (0.0, 1.0, 0.0, 0.0)
    {
      width := CLOUD_WIDTH;
      height := CLOUD_HEIGHT;
      isDense := false;
      points := new PointXYZ[CLOUD_WIDTH * CLOUD_HEIGHT](_ => ORIGIN);
      sensorOrigin := (0.0, 0.0, 0.0);
      sensorOrientation := (0.0, 1.0, 0.0, 0.0);
    }
  }

  /**
   * `pointXYZFromDepth`: a depth of 0 is invalid and gives NaN in all three coordinates;
   * any other depth becomes z, and x and y scale the pixel's offset from the image centre.
   */
  function PointXYZFromDepth(u: real, v: real, depth: real): (p: PointXYZ)
    ensures depth == 0.0 <==> p == PointXYZ(NaN, NaN, NaN)
    ensures depth != 0.0 ==> p.x.Num? && p.y.Num? && p.z == Num(depth)
  {
    if depth == 0.0 then PointXYZ(NaN, NaN, NaN)
    else PointXYZ(Num(depth * ((u - U0) / ALPH_X)), Num(depth * ((v - V0) / ALPH_Y)), Num(depth))
  }

  /** Projecting a valid point back through the intrinsics gives the pixel it came from. */
  lemma PointXYZProjects(u: real, v: real, depth: real)
    requires depth != 0.0
    ensures U0 + ALPH_X * (PointXYZFromDepth(u, v, depth).x.v / depth) == u
    ensures V0 + ALPH_Y * (PointXYZFromDepth(u, v, depth).y.v / depth) == v
  {
    var p := PointXYZFromDepth(u, v, depth);
    assert p.x.v / depth == (u - U0) / ALPH_X;
    assert p.y.v / depth == (v - V0) / ALPH_Y;
  }

  // ---------------------------------------------------------------------------------------
  // One line
  // ---------------------------------------------------------------------------------------

  /**
   * `std::stof` on every token, in order. It is a parameter (None when it throws
   * invalid_argument); the line gives its numbers only when every token converts.
   */
  function Floats(tokens: seq<string>, stof: string -> Option<real>): (r: Option<seq<real>>)
    ensures r.Some? <==> forall k :: 0 <= k < |tokens| ==> stof(tokens[k]).Some?
    ensures r.Some? ==> |r.value| == |tokens| && forall k :: 0 <= k < |tokens| ==> Some(r.value[k]) == stof(tokens[k])
  {
    if tokens == [] then Some([])
    else
      var init := tokens[..|tokens| - 1];
      assert forall k :: 0 <= k < |init| ==> init[k] == tokens[k];
      match (Floats(init, stof), stof(tokens[|tokens| - 1]))
      case (Some(data), Some(f)) => Some(data + [f])
      case _ => None
  }

  /** The inner loop: `data.push_back(std::stof(t))` for each token of the line. */
  method LineValues(line: string, stof: string -> Option<real>) returns (data: Option<seq<real>>)
    ensures data == Floats(Tokens(line), stof)
  {
    var tokens := Tokens(line);
    var values: seq<real> := [];
    for k := 0 to |tokens|
      invariant Floats(tokens[..k], stof) == Some(values)
    {
      assert tokens[..k + 1][..k] == tokens[..k];
      var f := stof(tokens[k]);
      if f.None? {
        FloatsFailFrom(tokens, k + 1, stof);
        return None;
      }
      values := values + [f.value];
    }
    assert tokens[..|tokens|] == tokens;
    data := Some(values);
  }

  /** Once a token fails to convert, the whole line fails. */
  lemma {:induction false} FloatsFailFrom(tokens: seq<string>, k: nat, stof: string -> Option<real>)
    requires k <= |tokens| && Floats(tokens[..k], stof).None?
    ensures Floats(tokens, stof).None?
  {
    var j :| 0 <= j < k && stof(tokens[..k][j]).None?;
    assert tokens[j] == tokens[..k][j];
  }

  /** What one line does: throw invalid_argument, throw for too few numbers, or give a point. */
  datatype LineData = InvalidArgument | TooFew | Coords(u: real, v: real, depth: real)

  /** The first three numbers of the line are u, v and depth; the rest are ignored. */
  function ParseLine(line: string, stof: string -> Option<real>): LineData {
    match Floats(Tokens(line), stof)
    case None => InvalidArgument
    case Some(data) => if |data| < 3 then TooFew else Coords(data[0], data[1], data[2])
  }

  /** One pass of the read loop: the tokens' numbers, then the check that there are three. */
  method ReadLine(line: string, stof: string -> Option<real>) returns (d: LineData)
    ensures d == ParseLine(line, stof)
  {
    var data := LineValues(line, stof);
    if data.None? {
      return InvalidArgument;
    }
    if |data.value| < 3 {
      return TooFew;
    }
    d := Coords(data.value[0], data.value[1], data.value[2]);
  }

  // ---------------------------------------------------------------------------------------
  // The file
  // ---------------------------------------------------------------------------------------

  /** The exceptions `writePcd` throws, the second with the index of the offending line. */
  datatype PcdError = FileNotFound | BadNumber | IncorrectFormat(line: nat)

  /** The points the lines give, or the first line's failure. */
  datatype Conversion = Failed(error: PcdError) | Points(points: seq<PointXYZ>)

  /** Every line of the file, read on its own. */
  function ParseLines(lines: seq<string>, stof: string -> Option<real>): seq<LineData> {
    seq(|lines|, k requires 0 <= k < |lines| => ParseLine(lines[k], stof))
  }

  /** The lines in order: each gives the next point, until one fails. */
  function Convert(parsed: seq<LineData>): Conversion {
    if parsed == [] then Points([])
    else
      var i := |parsed| - 1;
      match Convert(parsed[..i])
      case Failed(e) => Failed(e)
      case Points(ps) =>
        match parsed[i]
        case InvalidArgument => Failed(BadNumber)
        case TooFew => Failed(IncorrectFormat(i))
        case Coords(u, v, d) => Points(ps + [PointXYZFromDepth(u, v, d)])
  }

  /** One more line after lines that all gave points. */
  lemma ConvertStep(parsed: seq<LineData>, i: nat, ps: seq<PointXYZ>)
    requires i < |parsed| && Convert(parsed[..i]) == Points(ps)
    ensures parsed[i].InvalidArgument? ==> Convert(parsed[..i + 1]) == Failed(BadNumber)
    ensures parsed[i].TooFew? ==> Convert(parsed[..i + 1]) == Failed(IncorrectFormat(i))
    ensures parsed[i].Coords? ==>
      Convert(parsed[..i + 1]) == Points(ps + [PointXYZFromDepth(parsed[i].u, parsed[i].v, parsed[i].depth)])
  {
    assert parsed[..i + 1][..i] == parsed[..i];
  }

  /** A failure on a line is the failure of the whole file. */
  lemma {:induction false} ConvertFailFrom(parsed: seq<LineData>, i: nat, n: nat)
    requires i <= n <= |parsed| && Convert(parsed[..i]).Failed?
    ensures Convert(parsed[..n]) == Convert(parsed[..i])
    decreases n - i
  {
    if i < n {
      assert parsed[..i + 1][..i] == parsed[..i];
      ConvertFailFrom(parsed, i + 1, n);
    }
  }

  /**
   * The file converts exactly when every line gives a point, and then line k gives point k.
   */
  lemma {:induction false} ConvertPoints(parsed: seq<LineData>)
    ensures Convert(parsed).Points? <==> forall k :: 0 <= k < |parsed| ==> parsed[k].Coords?
    ensures Convert(parsed).Points? ==>
      |Convert(parsed).points| == |parsed| &&
      forall k :: 0 <= k < |parsed| ==>
        Convert(parsed).points[k] == PointXYZFromDepth(parsed[k].u, parsed[k].v, parsed[k].depth)
  {
    if parsed != [] {
      var n := |parsed| - 1;
      var init := parsed[..n];
      ConvertPoints(init);
      assert forall k :: 0 <= k < n ==> init[k] == parsed[k];
    }
  }

  /**
   * A failure is that of the first line that gives no point: too few numbers report that
   * line's index.
   */
  lemma {:induction false} ConvertFirstFailure(parsed: seq<LineData>)
    requires Convert(parsed).Failed?
    ensures exists i :: (0 <= i < |parsed| && !parsed[i].Coords? &&
      (forall k :: 0 <= k < i ==> parsed[k].Coords?) &&
      Convert(parsed).error == (if parsed[i].TooFew? then IncorrectFormat(i) else BadNumber))
  {
    var n := |parsed| - 1;
    var init := parsed[..n];
    assert forall k :: 0 <= k < n ==> init[k] == parsed[k];
    if Convert(init).Points? {
      ConvertPoints(init);
      assert !parsed[n].Coords?;
    } else {
      ConvertFirstFailure(init);
      var i :| 0 <= i < |init| && !init[i].Coords? &&
        (forall k :: 0 <= k < i ==> init[k].Coords?) &&
        Convert(init).error == (if init[i].TooFew? then IncorrectFormat(i) else BadNumber);
      assert !parsed[i].Coords?;
    }
  }

  /** The lines `writePcd` reads: no more than the cloud has points. */
  function Consumed(lines: seq<string>): (n: nat)
    ensures n <= |lines| && n <= CLOUD_WIDTH * CLOUD_HEIGHT
    ensures n == |lines| || n == CLOUD_WIDTH * CLOUD_HEIGHT
  {
    if |lines| < CLOUD_WIDTH * CLOUD_HEIGHT then |lines| else CLOUD_WIDTH * CLOUD_HEIGHT
  }

  /** The cloud's points: those the lines gave, then default points. */
  predicate Filled(points: seq<PointXYZ>, given: seq<PointXYZ>) {
    |given| <= |points| && points[..|given|] == given &&
    forall k :: |given| <= k < |points| ==> points[k] == ORIGIN
  }

  /**
   * The read loop of `writePcd`: line i, while there is one and i is below the number of
   * points, fills point i; a line that gives no point throws.
   */
  method FillPoints(points: array<PointXYZ>, lines: seq<string>, stof: string -> Option<real>)
    returns (error: Option<PcdError>)
    requires points.Length == CLOUD_WIDTH * CLOUD_HEIGHT
    requires forall k :: 0 <= k < points.Length ==> points[k] == ORIGIN
    modifies points
    ensures var c := Convert(ParseLines(lines[..Consumed(lines)], stof));
      (error.Some? <==> c.Failed?) && (error.Some? ==> error.value == c.error) &&
      (error.None? ==> Filled(points[..], c.points))
  {
    ghost var parsed := ParseLines(lines, stof);
    ghost var n := Consumed(lines);
    assert ParseLines(lines[..n], stof) == parsed[..n];
    var i := 0;
    while i < |lines| && i < points.Length
      invariant 0 <= i <= n
      invariant Convert(parsed[..i]) == Points(points[..i])
      invariant forall k :: i <= k < points.Length ==> points[k] == ORIGIN
    {
      var line := ReadLine(lines[i], stof);
      assert parsed[i] == line;
      ConvertStep(parsed, i, points[..i]);
      match line
      case InvalidArgument =>
        ConvertFailFrom(parsed, i + 1, n);
        return Some(BadNumber);
      case TooFew =>
        ConvertFailFrom(parsed, i + 1, n);
        return Some(IncorrectFormat(i));
      case Coords(u, v, depth) =>
        points[i] := PointXYZFromDepth(u, v, depth);
        assert points[..i + 1] == points[..i] + [PointXYZFromDepth(u, v, depth)];
      i := i + 1;
    }
    assert i == n;
    error := None;
  }

  /** What `writePcd` ends with: an exception, or the saved cloud. */
  datatype Written = Error(error: PcdError) | Saved(cloud: Cloud)

  /**
   * `writePcd`. The input file is a parameter (None when it cannot be opened); saving the cloud
   * to the output file is not modelled.
   */
  method WritePcd(file: Option<seq<string>>, stof: string -> Option<real>) returns (r: Written)
    ensures file.None? ==> r == Error(FileNotFound)
    ensures file.Some? ==>
      var c := Convert(ParseLines(file.value[..Consumed(file.value)], stof));
      (r.Error? <==> c.Failed?) && (r.Error? ==> r.error == c.error)
    ensures r.Saved? ==>
      fresh(r.cloud) && fresh(r.cloud.points) &&
      r.cloud.width == CLOUD_WIDTH && r.cloud.height == CLOUD_HEIGHT && !r.cloud.isDense &&
      r.cloud.points.Length == CLOUD_WIDTH * CLOUD_HEIGHT &&
      Filled(r.cloud.points[..], Convert(ParseLines(file.value[..Consumed(file.value)], stof)).points)
  {
    if file.None? {
      return Error(FileNotFound);
    }
    var cloud := new Cloud();
    var error := FillPoints(cloud.points, file.value, stof);
    if error.Some? {
      return Error(error.value);
    }
    r := Saved(cloud);
  }

  /** How the program ends. */
  datatype Command = Usage | WrongArgumentCount | Wrote(result: Written)

  /** `pcl::console::find_argument`: the option appears among the arguments after the program name. */
  predicate HasOption(args: seq<string>, option: string) {
    exists k :: 1 <= k < |args| && args[k] == option
  }

  /**
   * `main`: "-h" anywhere prints the usage, and any count of arguments other than two prints it
   * too (both end with status 0); otherwise the cloud is built from the first argument's file.
   * The file system is the `read` parameter.
   */
  method PcdWriteCommand(args: seq<string>, read: string -> Option<seq<string>>, stof: string -> Option<real>)
    returns (r: Command)
    ensures r.Usage? <==> HasOption(args, "-h")
    ensures r.WrongArgumentCount? <==> !HasOption(args, "-h") && |args| != 3
    ensures r.Wrote? ==> |args| == 3 && (read(args[1]).None? ==> r.result == Error(FileNotFound))
    ensures r.Wrote? && read(args[1]).Some? ==>
      var lines := read(args[1]).value;
      var c := Convert(ParseLines(lines[..Consumed(lines)], stof));
      (r.result.Error? <==> c.Failed?) && (r.result.Error? ==> r.result.error == c.error)
  {
    if HasOption(args, "-h") {
      return Usage;
    }
    if |args| != 3 {
      return WrongArgumentCount;
    }
    var result := WritePcd(read(args[1]), stof);
    r := Wrote(result);
  }
}

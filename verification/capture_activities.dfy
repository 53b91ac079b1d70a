/**
 * The two capture screens of `com.trees.activities`: `SharedCameraActivity`, which arms a capture
 * when the preview screen answers OK and saves the depth, colour and matrix files of the next
 * frame, and `ImageCaptureActivity`, which only counts captures. Both keep the sample and capture
 * counters of `SampleCounter`.
 */
module CaptureActivities {
  import Int32
  import SampleCounter
  import ImageStore
  import Text

  datatype Option<T> = None | Some(value: T)

  /** `Activity.RESULT_OK`. */
  const RESULT_OK: int := -1

  /** The four lists `TofUtil.TofToBuffers` makes of a depth image. */
  datatype TofBuffers = TofBuffers(xs: seq<int>, ys: seq<int>, ds: seq<real>, ps: seq<real>)

  predicate WellFormed(b: TofBuffers) {
    |b.ds| <= |b.xs| && |b.ds| <= |b.ys| && |b.ds| <= |b.ps|
  }

  /**
   * The two number formats of `ImageStore`: `StringBuilder.append(float)` (that is,
   * `Float.toString`) for the depth lines, and `DecimalFormat("#.##########")` with CEILING
   * rounding for the matrix elements.
   */
  datatype Formats = Formats(tof: real -> string, matrix: real -> string)

  /**
   * A file one capture leaves behind: its type, the sample and capture numbers it is saved
   * under, and its text; the JPEG's bytes are not modelled.
   */
  datatype Saved = Saved(ftype: ImageStore.Filetype, sample: int, capture: int, text: Option<string>)

  /** The name the file is saved under. */
  function Name(f: Saved): string {
    ImageStore.FileName(f.sample, f.capture, f.ftype)
  }

  /** The types of a list of files. */
  function Types(files: seq<Saved>): set<ImageStore.Filetype> {
    set i | 0 <= i < |files| :: files[i].ftype
  }

  /** The order in which `extractImageData` saves the three files. */
  function Rank(t: ImageStore.Filetype): nat {
    match t
    case TOF => 0
    case JPEG => 1
    case MATRIX => 2
  }

  /** Whether a file of type t is written: its image or matrices are held and its save does not throw. */
  predicate Written(t: ImageStore.Filetype, tof: bool, rgb: bool, matrices: bool, failing: set<ImageStore.Filetype>) {
    t !in failing &&
    match t
    case TOF => tof
    case JPEG => rgb
    case MATRIX => matrices
  }

  /** The file of type t of capture (sample, capture). */
  function SaveOf(t: ImageStore.Filetype, sample: int, capture: int, tof: Option<TofBuffers>,
                  projection: Option<seq<real>>, view: Option<seq<real>>, fmt: Formats): (f: Saved)
    requires tof.Some? ==> WellFormed(tof.value)
    ensures f.ftype == t && f.sample == sample && f.capture == capture
  {
    match t
    case TOF =>
      var text := if tof.Some? then Some(Text.Unlines(ImageStore.TofLines(tof.value.xs, tof.value.ys, tof.value.ds, tof.value.ps, fmt.tof)))
                  else None;
      Saved(t, sample, capture, text)
    case JPEG => Saved(t, sample, capture, None)
    case MATRIX =>
      var text := if projection.Some? && view.Some?
                  then Some(Text.Unlines([ImageStore.MatrixLine(projection.value, fmt.matrix), ImageStore.MatrixLine(view.value, fmt.matrix)]))
                  else None;
      Saved(t, sample, capture, text)
  }

  /** The file of type t, if it is written. */
  function Part(t: ImageStore.Filetype, sample: int, capture: int, tof: Option<TofBuffers>, rgb: bool,
                projection: Option<seq<real>>, view: Option<seq<real>>,
                failing: set<ImageStore.Filetype>, fmt: Formats): (part: seq<Saved>)
    requires tof.Some? ==> WellFormed(tof.value)
    ensures |part| == 1 <==> Written(t, tof.Some?, rgb, projection.Some? && view.Some?, failing)
    ensures |part| <= 1 && forall f :: f in part ==> f.ftype == t && f.sample == sample && f.capture == capture
  {
    if Written(t, tof.Some?, rgb, projection.Some? && view.Some?, failing)
    then [SaveOf(t, sample, capture, tof, projection, view, fmt)] else []
  }

  /**
   * The files of capture (sample, capture): the depth file when a depth image was acquired, the
   * JPEG when a colour image was, the matrix file when both matrices are held; a type in
   * `failing` is one whose save throws, and its file is missing.
   */
  function CaptureSaves(sample: int, capture: int, tof: Option<TofBuffers>, rgb: bool,
                        projection: Option<seq<real>>, view: Option<seq<real>>,
                        failing: set<ImageStore.Filetype>, fmt: Formats): seq<Saved>
    requires tof.Some? ==> WellFormed(tof.value)
  {
    Part(ImageStore.TOF, sample, capture, tof, rgb, projection, view, failing, fmt) +
    Part(ImageStore.JPEG, sample, capture, tof, rgb, projection, view, failing, fmt) +
    Part(ImageStore.MATRIX, sample, capture, tof, rgb, projection, view, failing, fmt)
  }

  /**
   * Every file of a capture is named after the one (sample, capture) pair, a file of each type is
   * there exactly when it is written, and the types come in saving order.
   */
  lemma CaptureSavesNamed(sample: int, capture: int, tof: Option<TofBuffers>, rgb: bool,
                          projection: Option<seq<real>>, view: Option<seq<real>>,
                          failing: set<ImageStore.Filetype>, fmt: Formats)
    requires tof.Some? ==> WellFormed(tof.value)
    ensures var files := CaptureSaves(sample, capture, tof, rgb, projection, view, failing, fmt);
      (forall i :: 0 <= i < |files| ==> files[i].sample == sample && files[i].capture == capture) &&
      (forall i, j :: 0 <= i < j < |files| ==> Rank(files[i].ftype) < Rank(files[j].ftype)) &&
      (forall t :: t in Types(files) <==> Written(t, tof.Some?, rgb, projection.Some? && view.Some?, failing))
  {
    var a := Part(ImageStore.TOF, sample, capture, tof, rgb, projection, view, failing, fmt);
    var b := Part(ImageStore.JPEG, sample, capture, tof, rgb, projection, view, failing, fmt);
    var c := Part(ImageStore.MATRIX, sample, capture, tof, rgb, projection, view, failing, fmt);
    PartsInOrder(a, b, c, sample, capture);
  }

  /** Three parts of at most one file each, of the three types in turn, make an ordered, named list. */
  lemma PartsInOrder(a: seq<Saved>, b: seq<Saved>, c: seq<Saved>, sample: int, capture: int)
    requires |a| <= 1 && |b| <= 1 && |c| <= 1
    requires forall f :: f in a ==> f.ftype == ImageStore.TOF && f.sample == sample && f.capture == capture
    requires forall f :: f in b ==> f.ftype == ImageStore.JPEG && f.sample == sample && f.capture == capture
    requires forall f :: f in c ==> f.ftype == ImageStore.MATRIX && f.sample == sample && f.capture == capture
    ensures var files := a + b + c;
      (forall i :: 0 <= i < |files| ==> files[i].sample == sample && files[i].capture == capture) &&
      (forall i, j :: 0 <= i < j < |files| ==> Rank(files[i].ftype) < Rank(files[j].ftype)) &&
      (forall t :: t in Types(files) <==>
                   (t == ImageStore.TOF && |a| == 1) || (t == ImageStore.JPEG && |b| == 1) || (t == ImageStore.MATRIX && |c| == 1))
  {
    var files := a + b + c;
    forall i | 0 <= i < |files|
      ensures files[i] in a || files[i] in b || files[i] in c
      ensures files[i] in a <==> i < |a|
      ensures files[i] in c <==> i >= |a| + |b|
    {
      if i < |a| {
        assert files[i] == a[i];
      } else if i < |a| + |b| {
        assert files[i] == b[i - |a|];
      } else {
        assert files[i] == c[i - |a| - |b|];
      }
    }
    forall t
      ensures t in Types(files) <==>
        (t == ImageStore.TOF && |a| == 1) || (t == ImageStore.JPEG && |b| == 1) || (t == ImageStore.MATRIX && |c| == 1)
    {
      if t == ImageStore.TOF && |a| == 1 {
        assert files[0] == a[0];
      } else if t == ImageStore.JPEG && |b| == 1 {
        assert files[|a|] == b[0];
      } else if t == ImageStore.MATRIX && |c| == 1 {
        assert files[|a| + |b|] == c[0];
      }
    }
  }

  /** The files of one capture never share a name, and none of them is a file of another capture. */
  lemma CaptureSavesDistinct(files: seq<Saved>, sample: int, capture: int, sample2: int, capture2: int,
                             t2: ImageStore.Filetype)
    requires forall i :: 0 <= i < |files| ==> files[i].sample == sample && files[i].capture == capture
    requires forall i, j :: 0 <= i < j < |files| ==> Rank(files[i].ftype) < Rank(files[j].ftype)
    ensures forall i, j :: 0 <= i < j < |files| ==> Name(files[i]) != Name(files[j])
    ensures (sample2, capture2) != (sample, capture) ==>
      forall i :: 0 <= i < |files| ==> Name(files[i]) != ImageStore.FileName(sample2, capture2, t2)
  {
    forall i, j | 0 <= i < j < |files|
      ensures Name(files[i]) != Name(files[j])
    {
      if Name(files[i]) == Name(files[j]) {
        ImageStore.FileNameInjective(sample, capture, files[i].ftype, sample, capture, files[j].ftype);
      }
    }
    if (sample2, capture2) != (sample, capture) {
      forall i | 0 <= i < |files|
        ensures Name(files[i]) != ImageStore.FileName(sample2, capture2, t2)
      {
        if Name(files[i]) == ImageStore.FileName(sample2, capture2, t2) {
          ImageStore.FileNameInjective(sample, capture, files[i].ftype, sample2, capture2, t2);
        }
      }
    }
  }

  /** `com.trees.activities.SharedCameraActivity`. */
  class SharedCamera {
    /** The static `CAPTURE_IMAGE` flag. */
    var captureImage: bool
    /** The last frame seen while not capturing, and its matrices. */
    var arFrame: Option<int>
    var projectionMatrix: Option<seq<real>>
    var viewMatrix: Option<seq<real>>
    /** The images acquired by `onCaptureImage`: the depth image as its buffers. */
    var imgTOF: Option<TofBuffers>
    var imgRGB: bool
    var files: seq<Saved>
    const counters: SampleCounter.Counters

    predicate Valid()
      reads this, counters
    {
      counters.Valid() && (imgTOF.Some? ==> WellFormed(imgTOF.value))
    }

    /**
     * The field initialisers and `onCreate`: nothing armed, held or written, and the saved
     * counters with unset ones filled in; a saved sample of 0 enables the delete button.
     */
    constructor (saved: map<string, int>)
      requires SampleCounter.IntValues(saved)
      ensures fresh(counters) && Valid()
      ensures counters.prefs == SampleCounter.Defaults(saved)
      ensures counters.deleteEnabled == (SampleCounter.Lookup(saved, SampleCounter.CURRENT_SAMPLE) == 0)
      ensures !captureImage && arFrame.None? && projectionMatrix.None? && viewMatrix.None?
      ensures imgTOF.None? && !imgRGB && files == []
    {
      captureImage := false;
      arFrame, projectionMatrix, viewMatrix := None, None, None;
      imgTOF, imgRGB := None, false;
      files := [];
      var c := new SampleCounter.Counters(saved);
      c.OnCreate();
      counters := c;
    }

    /** `onActivityResult`: the preview screen's OK arms the capture; any other result leaves it. */
    method OnActivityResult(resultCode: int)
      modifies this
      ensures captureImage == (old(captureImage) || resultCode == RESULT_OK)
      ensures arFrame == old(arFrame) && files == old(files)
      ensures imgTOF == old(imgTOF) && imgRGB == old(imgRGB)
    {
      if resultCode == RESULT_OK {
        captureImage := true;
      }
    }

    /**
     * `onCaptureImage`: with no frame yet, nothing; otherwise the colour and depth images of
     * the frame are acquired (the depth one may be missing) and the preview screen is started.
     */
    method OnCaptureImage(depth: Option<TofBuffers>)
      requires Valid() && (depth.Some? ==> WellFormed(depth.value))
      modifies this
      ensures Valid() && captureImage == old(captureImage) && files == old(files)
      ensures old(arFrame).None? ==> imgTOF == old(imgTOF) && imgRGB == old(imgRGB)
      ensures old(arFrame).Some? ==> imgTOF == depth && imgRGB
    {
      if arFrame.None? {
        return;
      }
      imgRGB := true;
      imgTOF := depth;
    }

    /**
     * `extractImageData`: a null frame changes nothing. Not capturing, the frame and its matrices
     * are recorded. Capturing, every file is saved under the one (sample, capture) pair read from
     * the preferences, then the capture count moves on by one and the flag is cleared.
     */
    method ExtractImageData(frame: Option<int>, projection: seq<real>, view: seq<real>,
                            failing: set<ImageStore.Filetype>, fmt: Formats)
      requires Valid()
      modifies this, counters
      ensures Valid() && counters.deleteEnabled == old(counters.deleteEnabled)
      ensures imgTOF == old(imgTOF) && imgRGB == old(imgRGB)
      ensures frame.None? ==>
        captureImage == old(captureImage) && files == old(files) && arFrame == old(arFrame) &&
        projectionMatrix == old(projectionMatrix) && viewMatrix == old(viewMatrix) && counters.prefs == old(counters.prefs)
      ensures frame.Some? && !old(captureImage) ==>
        !captureImage && files == old(files) &&
        counters.prefs == old(counters.prefs) && arFrame == frame &&
        projectionMatrix == Some(projection) && viewMatrix == Some(view)
      ensures frame.Some? && old(captureImage) ==>
        !captureImage && arFrame == old(arFrame) &&
        projectionMatrix == old(projectionMatrix) && viewMatrix == old(viewMatrix)
      ensures frame.Some? && old(captureImage) ==>
        var sample, capture := old(counters.Get(SampleCounter.CURRENT_SAMPLE)), old(counters.Get(SampleCounter.NUM_CAPTURES));
        files == old(files) + CaptureSaves(sample, capture, imgTOF, imgRGB, projectionMatrix, viewMatrix, failing, fmt) &&
        counters.prefs == old(counters.prefs)[SampleCounter.NUM_CAPTURES := Int32.Wrap(capture + 1)]
    {
      if frame.None? {
        return;
      }
      if !captureImage {
        arFrame := frame;
        projectionMatrix := Some(projection);
        viewMatrix := Some(view);
        return;
      }
      SaveCapture(failing, fmt);
      captureImage := false;
    }

    /**
     * The capturing branch of `extractImageData`: each held image or matrix pair is saved under
     * the (sample, capture) pair read from the preferences, then the capture count moves on.
     */
    method SaveCapture(failing: set<ImageStore.Filetype>, fmt: Formats)
      requires Valid()
      modifies this, counters
      ensures Valid() && counters.deleteEnabled == old(counters.deleteEnabled)
      ensures captureImage == old(captureImage) && arFrame == old(arFrame)
      ensures imgTOF == old(imgTOF) && imgRGB == old(imgRGB)
      ensures projectionMatrix == old(projectionMatrix) && viewMatrix == old(viewMatrix)
      ensures var sample, capture := old(counters.Get(SampleCounter.CURRENT_SAMPLE)), old(counters.Get(SampleCounter.NUM_CAPTURES));
        files == old(files) + CaptureSaves(sample, capture, imgTOF, imgRGB, projectionMatrix, viewMatrix, failing, fmt) &&
        counters.prefs == old(counters.prefs)[SampleCounter.NUM_CAPTURES := Int32.Wrap(capture + 1)]
    {
      var sample := counters.Get(SampleCounter.CURRENT_SAMPLE);
      var capture := counters.Get(SampleCounter.NUM_CAPTURES);
      var saved := Saves(sample, capture, failing, fmt);
      files := files + saved;
      counters.IncrementCaptures();
    }

    /** The three guarded saves, in order. */
    method Saves(sample: int, capture: int, failing: set<ImageStore.Filetype>, fmt: Formats)
      returns (saved: seq<Saved>)
      requires Valid()
      ensures saved == CaptureSaves(sample, capture, imgTOF, imgRGB, projectionMatrix, viewMatrix, failing, fmt)
    {
      var a := SavePart(ImageStore.TOF, sample, capture, failing, fmt);
      var b := SavePart(ImageStore.JPEG, sample, capture, failing, fmt);
      var c := SavePart(ImageStore.MATRIX, sample, capture, failing, fmt);
      saved := a + b + c;
    }

    /** One guarded save: `imgTOF != null`, `imgRGB != null` or both matrices held, and no exception. */
    method SavePart(t: ImageStore.Filetype, sample: int, capture: int, failing: set<ImageStore.Filetype>, fmt: Formats)
      returns (part: seq<Saved>)
      requires Valid()
      ensures part == Part(t, sample, capture, imgTOF, imgRGB, projectionMatrix, viewMatrix, failing, fmt)
    {
      part := [];
      if Written(t, imgTOF.Some?, imgRGB, projectionMatrix.Some? && viewMatrix.Some?, failing) {
        var name, f := Save(t, sample, capture, fmt);
        part := [f];
      }
    }

    /** One of the three `ImageStoreHelper` saves of `extractImageData`, for the pair read from the preferences. */
    method Save(t: ImageStore.Filetype, sample: int, capture: int, fmt: Formats) returns (name: string, f: Saved)
      requires Valid()
      ensures f == SaveOf(t, sample, capture, imgTOF, projectionMatrix, viewMatrix, fmt) && name == Name(f)
    {
      match t
      case TOF =>
        if imgTOF.Some? {
          var b := imgTOF.value;
          var text;
          name, text := ImageStore.SaveToFileTOF(sample, capture, b.xs, b.ys, b.ds, b.ps, fmt.tof);
          f := Saved(t, sample, capture, Some(text));
        } else {
          name, f := ImageStore.FileName(sample, capture, t), Saved(t, sample, capture, None);
        }
      case JPEG =>
        name, f := ImageStore.FileName(sample, capture, t), Saved(t, sample, capture, None);
      case MATRIX =>
        if projectionMatrix.Some? && viewMatrix.Some? {
          var text;
          name, text := ImageStore.SaveToFileMatrix(sample, capture, projectionMatrix.value, viewMatrix.value, fmt.matrix);
          f := Saved(t, sample, capture, Some(text));
        } else {
          name, f := ImageStore.FileName(sample, capture, t), Saved(t, sample, capture, None);
        }
    }
  }

  /** `com.trees.activities.ImageCaptureActivity`: the capture button only counts. */
  class ImageCapture {
    /**
     * The `arFrame` field. No method of the screen assigns it (`onCaptureImage` updates a local
     * of the same name), so it keeps the null it starts with.
     */
    var arFrame: Option<int>
    const counters: SampleCounter.Counters

    predicate Valid()
      reads this, counters
    {
      counters.Valid()
    }

    /**
     * The field initialisers and `onCreate`: no frame, and the saved counters with unset ones
     * filled in; a saved sample of 0 enables the delete button.
     */
    constructor (saved: map<string, int>)
      requires SampleCounter.IntValues(saved)
      ensures fresh(counters) && Valid() && arFrame.None?
      ensures counters.prefs == SampleCounter.Defaults(saved)
      ensures counters.deleteEnabled == (SampleCounter.Lookup(saved, SampleCounter.CURRENT_SAMPLE) == 0)
    {
      arFrame := None;
      var c := new SampleCounter.Counters(saved);
      c.OnCreate();
      counters := c;
    }

    /** `onCaptureImage`: no frame, no change; otherwise the capture count moves on by one. */
    method OnCaptureImage()
      requires Valid()
      modifies counters
      ensures Valid() && counters.deleteEnabled == old(counters.deleteEnabled)
      ensures arFrame.None? ==> counters.prefs == old(counters.prefs)
      ensures arFrame.Some? ==> counters.prefs == old(counters.prefs)[SampleCounter.NUM_CAPTURES :=
        Int32.Wrap(old(counters.Get(SampleCounter.NUM_CAPTURES)) + 1)]
    {
      if arFrame.None? {
        return;
      }
      counters.IncrementCaptures();
    }
  }
}

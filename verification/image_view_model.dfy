/**
 * `ImageViewModel`: the sample number, the next capture number and the current capture of the
 * capture screen, mirrored into the saved-state handle so that they survive a restart.
 */
module ImageViewModel {
  import Int32

  datatype Option<T> = None | Some(value: T)

  const NEXT_CAPTURE: string := "nextCapture"
  const SAMPLE_NUMBER: string := "sampleNumber"

  /** What the image processor returns for one capture; its contents are not modelled. */
  datatype ImageResult = ImageResult(id: int)

  /** The three store calls of `storeCapture`, in call order. */
  datatype SaveKind = RGB | TOF | RESULTS
  datatype Save = Save(kind: SaveKind, sample: int, capture: int)

  const SAVE_ORDER: seq<SaveKind> := [RGB, TOF, RESULTS]

  /** `Math.min(0, v - 1)`, as `decrementSampleNumber` computes it. */
  function DecrementAsWritten(v: int): (r: int)
    requires Int32.InRange(v)
    ensures r <= 0 && Int32.InRange(r)
    ensures v <= 1 && v != Int32.MIN_VALUE ==> r == v - 1
    ensures v > 1 ==> r == 0
  {
    var w := Int32.Wrap(v - 1);
    if 0 <= w then 0 else w
  }

  /** A sample number of 5 drops straight to 0 instead of to 4. */
  lemma DecrementFromFive()
    ensures DecrementAsWritten(5) == 0 != 5 - 1
  {
  }

  /** `Math.max(0, v - 1)`: one step down, floored at 0, as the other capture screens do it. */
  function DecrementFloored(v: int): (r: int)
    requires Int32.InRange(v)
    ensures r >= 0 && Int32.InRange(r)
    ensures v >= 1 ==> r == v - 1
    ensures 0 <= v <= 1 ==> r == 0
  {
    var w := Int32.Wrap(v - 1);
    if 0 <= w then w else 0
  }

  /** Counted presses of the corrected decrement reach 0 and stay there, never below. */
  lemma {:induction false} DecrementFlooredRepeated(v: int, n: nat)
    requires 0 <= v <= Int32.MAX_VALUE
    ensures Repeat(v, n) == if n <= v then v - n else 0
  {
    if n > 0 {
      DecrementFlooredRepeated(v, n - 1);
    }
  }

  function Repeat(v: int, n: nat): (r: int)
    requires 0 <= v <= Int32.MAX_VALUE
    ensures 0 <= r <= v
  {
    if n == 0 then v else DecrementFloored(Repeat(v, n - 1))
  }

  class ImageViewModel {
    /** The integer entries of the saved-state handle. */
    var state: map<string, int>
    var nextCapture: int
    var sampleNumber: int
    var currentCapture: Option<ImageResult>
    /** The store calls made so far, in order. */
    var saves: seq<Save>

    /** Each counter's saved-state entry, once written, equals the counter. */
    predicate Mirrored()
      reads this
    {
      Int32.InRange(nextCapture) && Int32.InRange(sampleNumber) &&
      (NEXT_CAPTURE in state ==> state[NEXT_CAPTURE] == nextCapture) &&
      (SAMPLE_NUMBER in state ==> state[SAMPLE_NUMBER] == sampleNumber)
    }

    /** The counters come from the saved state when it holds them, else 0 and 1. */
    constructor (saved: map<string, int>)
      requires NEXT_CAPTURE in saved ==> Int32.InRange(saved[NEXT_CAPTURE])
      requires SAMPLE_NUMBER in saved ==> Int32.InRange(saved[SAMPLE_NUMBER])
      ensures state == saved && currentCapture == None && saves == []
      ensures nextCapture == if NEXT_CAPTURE in saved then saved[NEXT_CAPTURE] else 0
      ensures sampleNumber == if SAMPLE_NUMBER in saved then saved[SAMPLE_NUMBER] else 1
      ensures Mirrored()
    {
      state := saved;
      currentCapture := None;
      saves := [];
      nextCapture := if NEXT_CAPTURE in saved then saved[NEXT_CAPTURE] else 0;
      sampleNumber := if SAMPLE_NUMBER in saved then saved[SAMPLE_NUMBER] else 1;
    }

    /** `incrementSampleNumber`: one more, in Java int arithmetic, mirrored into the state. */
    method IncrementSampleNumber()
      requires Mirrored()
      modifies this
      ensures sampleNumber == Int32.Wrap(old(sampleNumber) + 1)
      ensures old(sampleNumber) < Int32.MAX_VALUE ==> sampleNumber == old(sampleNumber) + 1
      ensures state == old(state)[SAMPLE_NUMBER := sampleNumber] && Mirrored()
      ensures nextCapture == old(nextCapture) && currentCapture == old(currentCapture) && saves == old(saves)
    {
      sampleNumber := Int32.Wrap(sampleNumber + 1);
      state := state[SAMPLE_NUMBER := sampleNumber];
    }

    /** `decrementSampleNumber` as written: the sample number becomes `Math.min(0, v - 1)`. */
    method DecrementSampleNumber()
      requires Mirrored()
      modifies this
      ensures sampleNumber == DecrementAsWritten(old(sampleNumber)) && sampleNumber <= 0
      ensures state == old(state)[SAMPLE_NUMBER := sampleNumber] && Mirrored()
      ensures nextCapture == old(nextCapture) && currentCapture == old(currentCapture) && saves == old(saves)
    {
      var v := Int32.Wrap(sampleNumber - 1);
      sampleNumber := if 0 <= v then 0 else v;
      state := state[SAMPLE_NUMBER := sampleNumber];
    }

    /** The decrement with `Math.max` in place of `Math.min`: one step down, never below 0. */
    method DecrementSampleNumberFloored()
      requires Mirrored()
      modifies this
      ensures sampleNumber == DecrementFloored(old(sampleNumber)) && sampleNumber >= 0
      ensures state == old(state)[SAMPLE_NUMBER := sampleNumber] && Mirrored()
      ensures nextCapture == old(nextCapture) && currentCapture == old(currentCapture) && saves == old(saves)
    {
      var v := Int32.Wrap(sampleNumber - 1);
      sampleNumber := if 0 <= v then v else 0;
      state := state[SAMPLE_NUMBER := sampleNumber];
    }

    /** `captureImage`: the processor's result becomes the current capture; no counter moves. */
    method CaptureImage(result: ImageResult)
      modifies this
      ensures currentCapture == Some(result)
      ensures state == old(state) && nextCapture == old(nextCapture) && sampleNumber == old(sampleNumber)
      ensures saves == old(saves)
    {
      currentCapture := Some(result);
    }

    /**
     * `storeCapture`: the three store calls under one (sample, capture) pair. `failing` is the
     * index of the call that throws `IOException` (3 or more when none does); the calls after it
     * are skipped, and nextCapture moves on either way. A missing current capture makes the Java
     * code throw before any of this, so it is required.
     */
    method StoreCapture(failing: nat)
      requires Mirrored() && currentCapture.Some?
      modifies this
      ensures saves == old(saves) + SaveCalls(old(sampleNumber), old(nextCapture), Attempted(failing))
      ensures nextCapture == Int32.Wrap(old(nextCapture) + 1)
      ensures state == old(state)[NEXT_CAPTURE := nextCapture] && Mirrored()
      ensures sampleNumber == old(sampleNumber) && currentCapture == old(currentCapture)
    {
      var s := sampleNumber;
      saves := saves + [Save(RGB, s, nextCapture)];
      if failing != 0 {
        saves := saves + [Save(TOF, s, nextCapture)];
        if failing != 1 {
          saves := saves + [Save(RESULTS, s, nextCapture)];
        }
      }
      assert SaveCalls(s, nextCapture, Attempted(failing)) == saves[|old(saves)|..];
      nextCapture := Int32.Wrap(nextCapture + 1);
      state := state[NEXT_CAPTURE := nextCapture];
    }
  }

  /** How many store calls run when call `failing` throws: up to and including it. */
  function Attempted(failing: nat): (made: nat)
    ensures made <= 3
    ensures failing < 3 ==> made == failing + 1
    ensures failing >= 3 ==> made == 3
  {
    if failing < 3 then failing + 1 else 3
  }

  /** The first `made` store calls of one `storeCapture`. */
  function SaveCalls(sample: int, capture: int, made: nat): (calls: seq<Save>)
    requires made <= 3
    ensures |calls| == made
    ensures forall i :: 0 <= i < made ==> calls[i] == Save(SAVE_ORDER[i], sample, capture)
  {
    seq(made, k requires 0 <= k < made => Save(SAVE_ORDER[k], sample, capture))
  }

  /** Whatever fails, every call of one `storeCapture` names the same capture, the one before the bump. */
  lemma StoreCaptureOnePair(sample: int, capture: int, failing: nat)
    ensures var saves := SaveCalls(sample, capture, Attempted(failing));
      (forall i :: 0 <= i < |saves| ==> saves[i].sample == sample && saves[i].capture == capture) &&
      (forall i, j :: 0 <= i < j < |saves| ==> saves[i].kind != saves[j].kind)
  {
  }
}

/**
 * The sample and capture counters that the capture screens keep in their preferences file,
 * together with the screen's delete-all button. Every capture activity repeats the same
 * `getSharedPreferencesVar` / `setSharedPreferencesVar` helpers, `onCreate` defaults and
 * `onSamplePlus` / `onSampleMinus` handlers; `Counters` models them once.
 */
module SampleCounter {
  import Int32

  datatype Option<T> = None | Some(value: T)

  const NUM_CAPTURES: string := "numCaptures"
  const CURRENT_SAMPLE: string := "currentSample"
  /** What `getInt` answers for a key that was never written: `Integer.MIN_VALUE`. */
  const UNSET: int := Int32.MIN_VALUE

  /** `preferences.getInt(name, Integer.MIN_VALUE)`. */
  function Lookup(prefs: map<string, int>, key: string): (v: int)
    ensures key in prefs ==> v == prefs[key]
    ensures key !in prefs ==> v == UNSET
  {
    if key in prefs then prefs[key] else UNSET
  }

  /** Every stored value is a Java int. */
  predicate IntValues(prefs: map<string, int>) {
    forall key :: key in prefs ==> Int32.InRange(prefs[key])
  }

  /** The preferences after `onCreate`: an unset capture count becomes 0 and an unset sample 1. */
  function Defaults(prefs: map<string, int>): (q: map<string, int>)
    ensures Lookup(q, NUM_CAPTURES) == (if Lookup(prefs, NUM_CAPTURES) == UNSET then 0 else Lookup(prefs, NUM_CAPTURES))
    ensures Lookup(q, CURRENT_SAMPLE) == (if Lookup(prefs, CURRENT_SAMPLE) == UNSET then 1 else Lookup(prefs, CURRENT_SAMPLE))
    ensures forall key :: key != NUM_CAPTURES && key != CURRENT_SAMPLE ==> Lookup(q, key) == Lookup(prefs, key)
  {
    var p1 := if Lookup(prefs, NUM_CAPTURES) == UNSET then prefs[NUM_CAPTURES := 0] else prefs;
    if Lookup(p1, CURRENT_SAMPLE) == UNSET then p1[CURRENT_SAMPLE := 1] else p1
  }

  /** After `onCreate` both counters are set, and a second `onCreate` changes nothing. */
  lemma DefaultsSettle(prefs: map<string, int>)
    ensures Lookup(Defaults(prefs), NUM_CAPTURES) != UNSET
    ensures Lookup(Defaults(prefs), CURRENT_SAMPLE) != UNSET
    ensures Defaults(Defaults(prefs)) == Defaults(prefs)
  {
  }

  /**
   * `onSamplePlus` on the current sample: the Java test `currentSample + 1 == Integer.MAX_VALUE`
   * refuses the step into MAX_VALUE; None means the handler returned without writing.
   */
  function PlusStep(current: int): (r: Option<int>)
    requires Int32.InRange(current)
    ensures current < Int32.MAX_VALUE - 1 ==> r == Some(current + 1)
    ensures current == Int32.MAX_VALUE - 1 ==> r == None
    ensures current == Int32.MAX_VALUE ==> r == Some(Int32.MIN_VALUE)
  {
    var next := Int32.Wrap(current + 1);
    if next == Int32.MAX_VALUE then None else Some(next)
  }

  /**
   * `onSampleMinus` on the current sample: the step is taken when `currentSample - 1` is 0 or
   * more; None means the handler returned without writing.
   */
  function MinusStep(current: int): (r: Option<int>)
    requires Int32.InRange(current)
    ensures current >= 1 ==> r == Some(current - 1)
    ensures Int32.MIN_VALUE < current <= 0 ==> r == None
    ensures current == Int32.MIN_VALUE ==> r == Some(Int32.MAX_VALUE)
  {
    var next := Int32.Wrap(current - 1);
    if next >= 0 then Some(next) else None
  }

  /** The two buttons that move the current sample. */
  datatype Press = Plus | Minus

  /** The current sample after a run of presses; a refused press leaves it as it was. */
  function Run(current: int, presses: seq<Press>): (r: int)
    requires Int32.InRange(current)
    ensures Int32.InRange(r)
    decreases |presses|
  {
    if |presses| == 0 then current
    else
      var step := if presses[0] == Plus then PlusStep(current) else MinusStep(current);
      Run(if step.Some? then step.value else current, presses[1..])
  }

  /** From any sample in [0, MAX_VALUE - 1], no run of presses leaves that range. */
  lemma {:induction false} RunStaysInRange(current: int, presses: seq<Press>)
    requires 0 <= current <= Int32.MAX_VALUE - 1
    ensures 0 <= Run(current, presses) <= Int32.MAX_VALUE - 1
    decreases |presses|
  {
    if |presses| > 0 {
      var step := if presses[0] == Plus then PlusStep(current) else MinusStep(current);
      var next := if step.Some? then step.value else current;
      assert 0 <= next <= Int32.MAX_VALUE - 1;
      RunStaysInRange(next, presses[1..]);
    }
  }

  /** The range above is the whole story: a sample stored as MAX_VALUE wraps to MIN_VALUE on Plus. */
  lemma PlusAtMaxWraps()
    ensures Run(Int32.MAX_VALUE, [Plus]) == Int32.MIN_VALUE
  {
    assert PlusStep(Int32.MAX_VALUE) == Some(Int32.MIN_VALUE);
  }

  /** The preferences file and the delete-all button of one capture screen. */
  class Counters {
    var prefs: map<string, int>
    /** Whether the delete-all button is visible and enabled. */
    var deleteEnabled: bool

    predicate Valid()
      reads this
    {
      IntValues(prefs)
    }

    constructor (saved: map<string, int>)
      requires IntValues(saved)
      ensures prefs == saved && !deleteEnabled && Valid()
    {
      prefs := saved;
      deleteEnabled := false;
    }

    /** `getSharedPreferencesVar`. */
    function Get(key: string): (v: int)
      reads this
      requires Valid()
      ensures v == Lookup(prefs, key) && Int32.InRange(v)
    {
      Lookup(prefs, key)
    }

    /** `setSharedPreferencesVar`. */
    method Set(key: string, v: int)
      requires Valid() && Int32.InRange(v)
      modifies this
      ensures prefs == old(prefs)[key := v] && deleteEnabled == old(deleteEnabled) && Valid()
    {
      prefs := prefs[key := v];
    }

    /** The counter part of `onCreate`: fill in unset counters; a saved sample of 0 enables delete. */
    method OnCreate()
      requires Valid()
      modifies this
      ensures prefs == Defaults(old(prefs)) && Valid()
      ensures deleteEnabled == (old(deleteEnabled) || Lookup(old(prefs), CURRENT_SAMPLE) == 0)
    {
      var savedNumCaptures := Get(NUM_CAPTURES);
      var savedCurrentSample := Get(CURRENT_SAMPLE);
      if savedNumCaptures == UNSET {
        savedNumCaptures := 0;
        Set(NUM_CAPTURES, savedNumCaptures);
      }
      if savedCurrentSample == UNSET {
        savedCurrentSample := 1;
        Set(CURRENT_SAMPLE, savedCurrentSample);
      } else if savedCurrentSample == 0 {
        deleteEnabled := true;
      }
    }

    /** `onSamplePlus`: hide the delete button, then take the guarded step up. */
    method OnSamplePlus()
      requires Valid()
      modifies this
      ensures !deleteEnabled && Valid()
      ensures var step := PlusStep(old(Get(CURRENT_SAMPLE)));
        prefs == if step.Some? then old(prefs)[CURRENT_SAMPLE := step.value] else old(prefs)
    {
      deleteEnabled := false;
      var currentSample := Get(CURRENT_SAMPLE);
      if Int32.Wrap(currentSample + 1) == Int32.MAX_VALUE {
        return;
      } else {
        currentSample := Int32.Wrap(currentSample + 1);
      }
      Set(CURRENT_SAMPLE, currentSample);
    }

    /** `onSampleMinus`: step down while the result stays at least 0; reaching 0 shows the delete button. */
    method OnSampleMinus()
      requires Valid()
      modifies this
      ensures Valid()
      ensures var step := MinusStep(old(Get(CURRENT_SAMPLE)));
        prefs == if step.Some? then old(prefs)[CURRENT_SAMPLE := step.value] else old(prefs)
      ensures deleteEnabled == (old(deleteEnabled) || old(Get(CURRENT_SAMPLE)) == 1)
    {
      var currentSample := Get(CURRENT_SAMPLE);
      if Int32.Wrap(currentSample - 1) == 0 {
        currentSample := Int32.Wrap(currentSample - 1);
        deleteEnabled := true;
      } else if Int32.Wrap(currentSample - 1) > 0 {
        currentSample := Int32.Wrap(currentSample - 1);
      } else {
        return;
      }
      Set(CURRENT_SAMPLE, currentSample);
    }

    /** `set(NUM_CAPTURES, get(NUM_CAPTURES) + 1)` in Java int arithmetic. */
    method IncrementCaptures()
      requires Valid()
      modifies this
      ensures prefs == old(prefs)[NUM_CAPTURES := Int32.Wrap(old(Get(NUM_CAPTURES)) + 1)]
      ensures deleteEnabled == old(deleteEnabled) && Valid()
    {
      Set(NUM_CAPTURES, Int32.Wrap(Get(NUM_CAPTURES) + 1));
    }
  }
}

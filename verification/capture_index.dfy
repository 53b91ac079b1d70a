/**
 * How the offline scripts `RGBD.py` and `RGBD_testing.py` index a capture directory: the names
 * that are depth captures, the sample and capture numbers read back from the last two
 * '_'-separated fields of each name, and the captures of each sample in listing order.
 */
module CaptureIndex {
  import opened Text
  import Decimal

  datatype Option<T> = None | Some(value: T)

  const SAMPLE_PREFIX := "Capture_Sample_"

  /** A depth capture: the prefix, and neither the ".txt" nor the ".jpeg" ending. */
  predicate IsDepthCapture(name: string) {
    StartsWith(name, SAMPLE_PREFIX) && !(EndsWith(name, ".txt") || EndsWith(name, ".jpeg"))
  }

  /** The list comprehension over the directory listing: the depth captures, in listing order. */
  function DepthCaptures(names: seq<string>): (kept: seq<string>)
    ensures |kept| <= |names|
    ensures forall k :: 0 <= k < |kept| ==> IsDepthCapture(kept[k]) && kept[k] in names
    ensures forall n :: n in names && IsDepthCapture(n) ==> n in kept
  {
    if names == [] then []
    else
      var init, last := names[..|names| - 1], names[|names| - 1];
      assert names == init + [last];
      DepthCaptures(init) + (if IsDepthCapture(last) then [last] else [])
  }

  /**
   * `int(name.split('_')[-2])` and `int(name.split('_')[-1])`: the sample and the capture. None
   * stands for the ValueError (or, for a name without '_', the IndexError) that stops the script.
   */
  function ParseName(name: string): Option<(int, int)> {
    var parts := Split(name, '_');
    if |parts| < 2 then None
    else
      match (Decimal.ParseInt(parts[|parts| - 2]), Decimal.ParseInt(parts[|parts| - 1]))
      case (Some(sample), Some(capture)) => Some((sample, capture))
      case _ => None
  }

  /** Every name read on its own. */
  function Parsed(names: seq<string>): (parsed: seq<Option<(int, int)>>)
    ensures |parsed| == |names|
  {
    seq(|names|, k requires 0 <= k < |names| => ParseName(names[k]))
  }

  /** The numbers read, in order, or None from the first that failed on. */
  function Collect(parsed: seq<Option<(int, int)>>): Option<seq<(int, int)>> {
    if parsed == [] then Some([])
    else
      match Collect(parsed[..|parsed| - 1])
      case None => None
      case Some(pairs) =>
        match parsed[|parsed| - 1]
        case None => None
        case Some(pair) => Some(pairs + [pair])
  }

  /** The numbers of every name, in order, or None when one of them does not parse. */
  function Numbers(names: seq<string>): Option<seq<(int, int)>> {
    Collect(Parsed(names))
  }

  /** Reading a prefix of the names reads a prefix of the listing. */
  lemma ParsedPrefix(names: seq<string>, i: nat)
    requires i <= |names|
    ensures Parsed(names[..i]) == Parsed(names)[..i]
  {
  }

  /** The captures listed for one sample, in listing order. */
  function CapturesOf(pairs: seq<(int, int)>, sample: int): seq<int> {
    if pairs == [] then []
    else
      var last := pairs[|pairs| - 1];
      CapturesOf(pairs[..|pairs| - 1], sample) + (if last.0 == sample then [last.1] else [])
  }

  function Samples(pairs: seq<(int, int)>): set<int> {
    set k | 0 <= k < |pairs| :: pairs[k].0
  }

  /** `sample_num_to_capture_num`: each listed sample with its captures. */
  function Group(pairs: seq<(int, int)>): map<int, seq<int>> {
    map sample | sample in Samples(pairs) :: CapturesOf(pairs, sample)
  }

  /** One more name only extends the list of its own sample, creating it if needed. */
  lemma GroupSnoc(pairs: seq<(int, int)>, sample: int, capture: int)
    ensures Group(pairs + [(sample, capture)]) ==
      Group(pairs)[sample := (if sample in Group(pairs) then Group(pairs)[sample] else []) + [capture]]
  {
    var longer := pairs + [(sample, capture)];
    assert longer[..|pairs|] == pairs;
    assert Samples(longer) == Samples(pairs) + {sample} by {
      forall t | t in Samples(longer)
        ensures t in Samples(pairs) + {sample}
      {
        var k :| 0 <= k < |longer| && longer[k].0 == t;
        if k < |pairs| {
          assert pairs[k].0 == t;
        }
      }
      forall t | t in Samples(pairs)
        ensures t in Samples(longer)
      {
        var k :| 0 <= k < |pairs| && pairs[k].0 == t;
        assert longer[k].0 == t;
      }
      assert longer[|pairs|].0 == sample;
    }
    if sample !in Group(pairs) {
      CapturesAbsent(pairs, sample);
    }
    var lhs := Group(longer);
    var rhs := Group(pairs)[sample := (if sample in Group(pairs) then Group(pairs)[sample] else []) + [capture]];
    assert lhs.Keys == rhs.Keys;
    forall t | t in lhs.Keys
      ensures lhs[t] == rhs[t]
    {
      assert CapturesOf(longer, t) == CapturesOf(pairs, t) + (if t == sample then [capture] else []);
    }
  }

  /** A sample that was never listed has no captures. */
  lemma {:induction false} CapturesAbsent(pairs: seq<(int, int)>, sample: int)
    requires sample !in Samples(pairs)
    ensures CapturesOf(pairs, sample) == []
  {
    if pairs != [] {
      var init := pairs[..|pairs| - 1];
      assert Samples(init) <= Samples(pairs) by {
        forall t | t in Samples(init)
          ensures t in Samples(pairs)
        {
          var k :| 0 <= k < |init| && init[k].0 == t;
          assert pairs[k].0 == t;
        }
      }
      CapturesAbsent(init, sample);
      assert pairs[|pairs| - 1].0 in Samples(pairs);
    }
  }

  /**
   * Every listed name adds its capture to the list of its own sample, and every capture in a
   * sample's list comes from a name carrying that sample and capture.
   */
  lemma {:induction false} GroupComplete(pairs: seq<(int, int)>, sample: int, capture: int)
    ensures (exists k :: 0 <= k < |pairs| && pairs[k] == (sample, capture)) <==>
      sample in Group(pairs) && capture in Group(pairs)[sample]
  {
    if pairs != [] {
      var init, last := pairs[..|pairs| - 1], pairs[|pairs| - 1];
      assert pairs == init + [last];
      GroupComplete(init, sample, capture);
      GroupSnoc(init, last.0, last.1);
      if exists k :: 0 <= k < |pairs| && pairs[k] == (sample, capture) {
        var k :| 0 <= k < |pairs| && pairs[k] == (sample, capture);
        if k < |init| {
          assert init[k] == (sample, capture);
        }
      }
      if sample in Group(pairs) && capture in Group(pairs)[sample] {
        if !(last == (sample, capture)) {
          assert sample in Group(init) && capture in Group(init)[sample];
          var k :| 0 <= k < |init| && init[k] == (sample, capture);
          assert pairs[k] == (sample, capture);
        } else {
          assert pairs[|pairs| - 1] == (sample, capture);
        }
      }
    }
  }

  /** Once a name fails to parse, the whole listing fails. */
  lemma NumbersFailFrom(names: seq<string>, i: nat)
    requires i <= |names| && Numbers(names[..i]).None?
    ensures Numbers(names).None?
  {
    ParsedPrefix(names, i);
    CollectFailFrom(Parsed(names), i);
  }

  lemma {:induction false} CollectFailFrom(parsed: seq<Option<(int, int)>>, i: nat)
    requires i <= |parsed| && Collect(parsed[..i]).None?
    ensures Collect(parsed).None?
    decreases |parsed| - i
  {
    if i < |parsed| {
      assert parsed[..i + 1][..i] == parsed[..i];
      CollectFailFrom(parsed, i + 1);
    } else {
      assert parsed[..i] == parsed;
    }
  }

  /** One more name: its numbers extend the listing, or the listing fails. */
  lemma NumbersSnoc(names: seq<string>, i: nat, pairs: seq<(int, int)>)
    requires i < |names| && Numbers(names[..i]) == Some(pairs)
    ensures ParseName(names[i]).None? ==> Numbers(names[..i + 1]).None?
    ensures ParseName(names[i]).Some? ==> Numbers(names[..i + 1]) == Some(pairs + [ParseName(names[i]).value])
  {
    var parsed := Parsed(names[..i + 1]);
    assert parsed[..i] == Parsed(names[..i]);
    assert parsed[i] == ParseName(names[i]);
  }

  /** Names that each parse give the listing of their numbers, in order. */
  lemma NumbersOfParsed(names: seq<string>, pairs: seq<(int, int)>)
    requires |names| == |pairs|
    requires forall k :: 0 <= k < |names| ==> ParseName(names[k]) == Some(pairs[k])
    ensures Numbers(names) == Some(pairs)
  {
    CollectAll(Parsed(names), pairs);
  }

  lemma {:induction false} CollectAll(parsed: seq<Option<(int, int)>>, pairs: seq<(int, int)>)
    requires |parsed| == |pairs| && forall k :: 0 <= k < |parsed| ==> parsed[k] == Some(pairs[k])
    ensures Collect(parsed) == Some(pairs)
  {
    if parsed != [] {
      var n := |parsed| - 1;
      CollectAll(parsed[..n], pairs[..n]);
      assert pairs == pairs[..n] + [pairs[n]];
    }
  }

  /** `sample_num_to_capture_num[sample].append(capture)`, the list created first if needed. */
  method AddCapture(groups: map<int, seq<int>>, ghost pairs: seq<(int, int)>, sample: int, capture: int)
    returns (added: map<int, seq<int>>)
    requires groups == Group(pairs)
    ensures added == Group(pairs + [(sample, capture)])
  {
    added := groups;
    if sample !in added {
      added := added[sample := []];
    }
    GroupSnoc(pairs, sample, capture);
    added := added[sample := added[sample] + [capture]];
  }

  /**
   * The `for name in file_names` loop: each name's sample gets an empty list the first time it
   * is seen, then the capture is appended. A name that does not parse stops the loop.
   */
  method IndexCaptures(names: seq<string>) returns (index: Option<map<int, seq<int>>>)
    ensures index.None? <==> Numbers(names).None?
    ensures index.Some? ==> index.value == Group(Numbers(names).value)
  {
    var groups: map<int, seq<int>> := map[];
    ghost var pairs: seq<(int, int)> := [];
    for i := 0 to |names|
      invariant Numbers(names[..i]) == Some(pairs)
      invariant groups == Group(pairs)
    {
      var parsed := ParseName(names[i]);
      NumbersSnoc(names, i, pairs);
      if parsed.None? {
        NumbersFailFrom(names, i + 1);
        return None;
      }
      groups := AddCapture(groups, pairs, parsed.value.0, parsed.value.1);
      pairs := pairs + [parsed.value];
    }
    assert names[..|names|] == names;
    index := Some(groups);
  }
}

module Resume {
  /** The resume position as it is computed: a running fold over the files, clamped by the recorded floor. */

  import opened Keys
  import opened Version
  import opened Recovery

  lemma {:induction false} MaxHighSnoc(files: seq<File>, f: File)
    ensures MaxHigh(files + [f]) ==
            var before := MaxHigh(files);
            var high := f.watermark.high;
            if high.None? then before else if before.None? then high else Some(Max(before.value, high.value))
  {
    if files == [] {
      assert [] + [f] == [f];
    } else {
      assert (files + [f])[1..] == files[1..] + [f];
      MaxHighSnoc(files[1..], f);
    }
  }

  lemma {:induction false} MinLowSnoc(files: seq<File>, f: File)
    requires files != []
    ensures MinLow(files + [f]) == LowerTo(MinLow(files), f.watermark.low)
  {
    assert (files + [f])[1..] == files[1..] + [f];
    if |files| == 1 {
      assert files[1..] + [f] == [f];
    } else {
      MinLowSnoc(files[1..], f);
    }
  }

  /** The least lower bound among the files that have one. */
  function LeastLow(files: seq<File>): Option<nat> {
    if files == [] then None
    else
      var before := LeastLow(files[..|files| - 1]);
      var low := files[|files| - 1].watermark.low;
      if low.None? then before else if before.None? then low else Some(Min(before.value, low.value))
  }

  lemma {:induction false} LeastLowIsMinLow(files: seq<File>)
    requires files != []
    ensures MinLow(files) == if forall f :: f in files ==> f.watermark.low.Some? then LeastLow(files) else None
  {
    var front, last := files[..|files| - 1], files[|files| - 1];
    assert files == front + [last];
    assert forall f :: f in files <==> f in front || f == last;
    if front != [] {
      LeastLowIsMinLow(front);
      MinLowSnoc(front, last);
    } else {
      assert LeastLow(front) == None;
    }
  }

  class RecoveryWatermark {
    var anythingDiscarded: bool
    var lowerBoundAbsent: bool
    var lowerBound: Option<nat>
    var upperBound: Option<nat>
    ghost var discarded: seq<File>
    ghost var survivors: seq<File>

    ghost predicate Valid()
      reads this
    {
      && (anythingDiscarded <==> discarded != [])
      && (lowerBoundAbsent <==> exists f :: f in discarded && f.watermark.low.None?)
      && lowerBound == LeastLow(discarded)
      && upperBound == MaxHigh(survivors)
    }

    constructor ()
      ensures Valid() && discarded == [] && survivors == []
    {
      anythingDiscarded, lowerBoundAbsent, lowerBound, upperBound := false, false, None, None;
      discarded, survivors := [], [];
    }

    method ObserveDiscarded(f: File)
      requires Valid()
      modifies this
      ensures Valid() && discarded == old(discarded) + [f] && survivors == old(survivors)
    {
      assert (discarded + [f])[..|discarded|] == discarded;
      discarded := discarded + [f];
      anythingDiscarded := true;
      assert f in discarded;
      if f.watermark.low.None? {
        lowerBoundAbsent := true;
      } else {
        lowerBound := if lowerBound.Some? then Some(Min(lowerBound.value, f.watermark.low.value)) else f.watermark.low;
        assert forall g :: g in old(discarded) ==> g in discarded;
      }
    }

    method ObserveSurvivor(f: File)
      requires Valid()
      modifies this
      ensures Valid() && survivors == old(survivors) + [f] && discarded == old(discarded)
    {
      MaxHighSnoc(survivors, f);
      survivors := survivors + [f];
      if f.watermark.high.Some? {
        upperBound := if upperBound.Some? then Some(Max(upperBound.value, f.watermark.high.value))
          else f.watermark.high;
      }
    }

    /** Branches on whether anything was discarded, never on which bound happens to be present. */
    function Position(): (position: Option<nat>)
      reads this
      requires Valid()
      ensures position == ResumeAfter(discarded, survivors, None)
    {
      assert discarded != [] ==> MinLow(discarded) == (if lowerBoundAbsent then None else lowerBound) by {
        if discarded != [] { LeastLowIsMinLow(discarded); }
      }
      if anythingDiscarded then (if lowerBoundAbsent then None else lowerBound) else upperBound
    }
  }

  /** What recovery reports: the rule over what was dropped and what is left, bounded by the floor. */
  method AdoptRecoveredWatermark(lost: seq<File>, left: seq<File>, floor: Option<Option<nat>>)
    returns (position: Option<nat>)
    ensures position == ResumeAfter(lost, left, floor)
  {
    var rule := new RecoveryWatermark();
    for i := 0 to |lost|
      invariant fresh(rule) && rule.Valid() && rule.discarded == lost[..i] && rule.survivors == []
    {
      rule.ObserveDiscarded(lost[i]);
      assert lost[..i + 1] == lost[..i] + [lost[i]];
    }
    for i := 0 to |left|
      invariant fresh(rule) && rule.Valid() && rule.discarded == lost[..|lost|] && rule.survivors == left[..i]
    {
      rule.ObserveSurvivor(left[i]);
      assert left[..i + 1] == left[..i] + [left[i]];
    }
    assert lost[..|lost|] == lost && left[..|left|] == left;
    position := rule.Position();
    if floor.Some? {
      if floor.value.None? {
        position := None;
      } else if position.Some? {
        position := Some(Min(position.value, floor.value.value));
      } else {
        position := floor.value;
      }
    }
  }
}

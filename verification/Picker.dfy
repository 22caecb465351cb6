module Picker {
  /**
   Choosing a compaction: which files to read, which to leave, and what may be let go.

   Level choice, scores and the sweep pointer decide when and where to compact and are left arbitrary.
   What is modelled is everything soundness rests on: the overlap fixpoint, the age-ordered budget
   trim, the expansion back into the source level, the hull, and the bottommost test.
   */

  import opened Keys
  import opened Version
  import opened Installation

  // ---------- the hull ----------

  function LowestKey(files: seq<File>): Key
    requires files != []
  {
    var low := EffectiveSmallest(files[0]);
    if |files| == 1 then low else if low < LowestKey(files[1..]) then low else LowestKey(files[1..])
  }

  function HighestKey(files: seq<File>): Key
    requires files != []
  {
    var high := EffectiveLargest(files[0]);
    if |files| == 1 then high else if high > HighestKey(files[1..]) then high else HighestKey(files[1..])
  }

  lemma {:induction false} HullContains(files: seq<File>, f: File)
    requires f in files
    ensures LowestKey(files) <= EffectiveSmallest(f) && EffectiveLargest(f) <= HighestKey(files)
  {
    if f != files[0] {
      HullContains(files[1..], f);
    }
  }

  /** `widen` on the lower bound, with the empty string standing for "not set yet". */
  function WidenedLow(lower: Key, files: seq<File>): Key
    decreases files
  {
    if files == [] then lower
    else
      var low := EffectiveSmallest(files[0]);
      WidenedLow(if lower == EMPTY_KEY || low < lower then low else lower, files[1..])
  }

  function WidenedHigh(upper: Key, files: seq<File>): Key
    decreases files
  {
    if files == [] then upper
    else
      var high := EffectiveLargest(files[0]);
      WidenedHigh(if upper == EMPTY_KEY || high > upper then high else upper, files[1..])
  }

  method Widen(files: seq<File>, low: Key, high: Key) returns (lower: Key, upper: Key)
    ensures lower == WidenedLow(low, files)
    ensures upper == WidenedHigh(high, files)
  {
    lower, upper := low, high;
    for i := 0 to |files|
      invariant WidenedLow(low, files) == WidenedLow(lower, files[i..])
      invariant WidenedHigh(high, files) == WidenedHigh(upper, files[i..])
    {
      var fileLow := EffectiveSmallest(files[i]);
      var fileHigh := EffectiveLargest(files[i]);
      assert files[i..][0] == files[i] && files[i..][1..] == files[i + 1..];
      if lower == EMPTY_KEY || fileLow < lower { lower := fileLow; }
      if upper == EMPTY_KEY || fileHigh > upper { upper := fileHigh; }
    }
  }

  /** No file starts at the empty key, which `widen` cannot tell from an unset bound. */
  predicate NoEmptyLow(files: seq<File>) {
    forall f :: f in files ==> EffectiveSmallest(f) != EMPTY_KEY
  }

  /** Whether the lower bound comes out right: the last file to start at the empty key is the last file. */
  predicate EmptyLowOnlyLast(files: seq<File>) {
    NoEmptyLow(files) || (files != [] && EffectiveSmallest(files[|files| - 1]) == EMPTY_KEY)
  }

  lemma {:induction false} WidenedFrom(lower: Key, files: seq<File>)
    requires files != [] && lower != EMPTY_KEY && NoEmptyLow(files)
    ensures WidenedLow(lower, files) == if lower < LowestKey(files) then lower else LowestKey(files)
    decreases files
  {
    var low := EffectiveSmallest(files[0]);
    assert files[0] in files;
    if |files| > 1 {
      assert NoEmptyLow(files[1..]);
      WidenedFrom(if low < lower then low else lower, files[1..]);
    } else {
      assert files[1..] == [];
    }
  }

  lemma {:induction false} WidenedNeverEmpty(lower: Key, files: seq<File>)
    requires files != [] && EffectiveSmallest(files[|files| - 1]) != EMPTY_KEY
    ensures WidenedLow(lower, files) != EMPTY_KEY
    decreases files
  {
    if |files| > 1 {
      var low := EffectiveSmallest(files[0]);
      assert files[1..][|files| - 2] == files[|files| - 1];
      WidenedNeverEmpty(if lower == EMPTY_KEY || low < lower then low else lower, files[1..]);
    } else {
      assert files[1..] == [];
    }
  }

  lemma {:induction false} WidenedLast(lower: Key, files: seq<File>)
    requires files != []
    ensures EffectiveSmallest(files[|files| - 1]) == EMPTY_KEY ==> WidenedLow(lower, files) == EMPTY_KEY
    decreases files
  {
    var low := EffectiveSmallest(files[0]);
    if |files| > 1 {
      assert files[1..][|files| - 2] == files[|files| - 1];
      WidenedLast(if lower == EMPTY_KEY || low < lower then low else lower, files[1..]);
    } else {
      assert files[1..] == [];
    }
  }

  lemma {:induction false} LowestIsEmpty(files: seq<File>)
    requires files != []
    ensures LowestKey(files) == EMPTY_KEY <==> !NoEmptyLow(files)
  {
    assert files[0] in files;
    if |files| > 1 {
      LowestIsEmpty(files[1..]);
      assert forall f :: f in files <==> f == files[0] || f in files[1..];
    } else {
      assert forall f :: f in files <==> f == files[0];
    }
  }

  /**
   `effective_hull` finds the true lower end exactly when no file starts at the empty key, or the last
   one listed does. A file that starts there and is not last is forgotten.
   */
  lemma HullLowExactly(files: seq<File>)
    requires files != []
    ensures WidenedLow(EMPTY_KEY, files) == LowestKey(files) <==> EmptyLowOnlyLast(files)
  {
    LowestIsEmpty(files);
    var low := EffectiveSmallest(files[0]);
    if NoEmptyLow(files) {
      assert files[0] in files;
      if |files| == 1 {
        assert files[1..] == [];
      } else {
        assert NoEmptyLow(files[1..]);
        WidenedFrom(low, files[1..]);
      }
    } else if EffectiveSmallest(files[|files| - 1]) == EMPTY_KEY {
      WidenedLast(EMPTY_KEY, files);
    } else {
      WidenedNeverEmpty(EMPTY_KEY, files);
    }
  }

  /** The upper bound is always right: nothing sorts below the empty key. */
  lemma {:induction false} WidenedHighIsMax(upper: Key, files: seq<File>)
    requires files != []
    ensures WidenedHigh(upper, files) == if upper > HighestKey(files) then upper else HighestKey(files)
    decreases files
  {
    var high := EffectiveLargest(files[0]);
    if |files| > 1 {
      WidenedHighIsMax(if upper == EMPTY_KEY || high > upper then high else upper, files[1..]);
    } else {
      assert files[1..] == [];
    }
  }

  /** Widening from a span's own bound contains the span and every file widened over. */
  lemma WidenContains(low: Key, high: Key, files: seq<File>)
    requires files != [] && NoEmptyLow(files)
    ensures Inside(files, WidenedLow(low, files), WidenedHigh(high, files))
    ensures low != EMPTY_KEY ==> WidenedLow(low, files) <= low
    ensures high <= WidenedHigh(high, files)
    ensures WidenedLow(low, files) != EMPTY_KEY
  {
    WidenedHighIsMax(high, files);
    assert files[|files| - 1] in files;
    WidenedNeverEmpty(low, files);
    if low == EMPTY_KEY {
      HullLowExactly(files);
    } else {
      WidenedFrom(low, files);
    }
    forall f | f in files
      ensures WidenedLow(low, files) <= EffectiveSmallest(f) && EffectiveLargest(f) <= WidenedHigh(high, files)
    {
      HullContains(files, f);
    }
  }

  // ---------- the overlap fixpoint ----------

  function LastFile(files: seq<File>): File
    requires files != []
  {
    files[|files| - 1]
  }

  /**
   A level and a lower bound that `widen` gets right whatever is selected: no file starts at the empty key; or
   the last one does, which puts it last in every selection it is in, and it is in all of them or is the only one.
   */
  predicate Widenable(files: seq<File>, low: Key) {
    || (NoEmptyLow(files) && low != EMPTY_KEY)
    || (files != [] && EffectiveSmallest(LastFile(files)) == EMPTY_KEY
        && (low == EMPTY_KEY || NoEmptyLow(files[..|files| - 1])))
  }

  lemma {:induction false} OverlapLast(files: seq<File>, low: Key, high: Key)
    requires files != [] && Meets(LastFile(files), low, high)
    ensures Overlapping(files, low, high) != [] && LastFile(Overlapping(files, low, high)) == LastFile(files)
  {
    if |files| > 1 {
      assert LastFile(files[1..]) == LastFile(files);
      OverlapLast(files[1..], low, high);
    }
  }

  /** Widening over files the last of which starts at the empty key reaches down to it. */
  lemma WidenReachesEmpty(low: Key, high: Key, files: seq<File>)
    requires files != [] && EffectiveSmallest(LastFile(files)) == EMPTY_KEY
    ensures Inside(files, WidenedLow(low, files), WidenedHigh(high, files))
    ensures WidenedLow(low, files) == EMPTY_KEY && high <= WidenedHigh(high, files)
  {
    WidenedLast(low, files);
    WidenedHighIsMax(high, files);
    forall f | f in files
      ensures EffectiveLargest(f) <= WidenedHigh(high, files)
    {
      HullContains(files, f);
    }
  }

  lemma AllButLast(files: seq<File>, f: File)
    requires files != [] && f in files && f != LastFile(files)
    ensures f in files[..|files| - 1]
  {
    var i :| 0 <= i < |files| && files[i] == f;
    assert files[..|files| - 1][i] == f;
  }

  /** One turn of the loop: the widened bounds hold all that was found, and can be widened again. */
  lemma WidenFound(files: seq<File>, low: Key, high: Key)
    requires Widenable(files, low) && Overlapping(files, low, high) != []
    ensures var found := Overlapping(files, low, high);
            && Inside(found, WidenedLow(low, found), WidenedHigh(high, found))
            && WidenedLow(low, found) <= low && high <= WidenedHigh(high, found)
            && Widenable(files, WidenedLow(low, found))
  {
    var found := Overlapping(files, low, high);
    OverlappingMembers(files, low, high);
    if NoEmptyLow(files) && low != EMPTY_KEY {
      WidenContains(low, high, found);
    } else if Meets(LastFile(files), low, high) {
      OverlapLast(files, low, high);
      WidenReachesEmpty(low, high, found);
    } else {
      forall f | f in found
        ensures EffectiveSmallest(f) != EMPTY_KEY
      {
        AllButLast(files, f);
      }
      WidenContains(low, high, found);
    }
  }

  lemma {:induction false} OverlapGrows(files: seq<File>, low: Key, high: Key, lower: Key, upper: Key)
    requires lower <= low && high <= upper
    ensures |Overlapping(files, low, high)| <= |Overlapping(files, lower, upper)|
    ensures |Overlapping(files, low, high)| == |Overlapping(files, lower, upper)| ==>
              Overlapping(files, low, high) == Overlapping(files, lower, upper)
  {
    if files != [] {
      OverlapGrows(files[1..], low, high, lower, upper);
    }
  }

  /** Everything meeting bounds that hold it all: closed under meeting, so nothing outside meets anything inside. */
  predicate ClosedIn(selected: seq<File>, files: seq<File>) {
    forall f, g :: f in selected && g in files && SpansMeet(f, g) ==> g in selected
  }

  lemma OverlapCloses(files: seq<File>, low: Key, high: Key, lower: Key, upper: Key)
    requires lower <= low && high <= upper && Inside(Overlapping(files, lower, upper), lower, upper)
    ensures ClosedIn(Overlapping(files, lower, upper), files)
    ensures forall f :: f in files && Meets(f, low, high) ==> f in Overlapping(files, lower, upper)
  {
    OverlappingMembers(files, lower, upper);
  }

  /** A set that holds what meets the span, and whatever meets one it holds. */
  predicate Closing(s: seq<File>, files: seq<File>, low: Key, high: Key) {
    ClosedIn(s, files) && forall f :: f in files && Meets(f, low, high) ==> f in s
  }

  /** Every such set holds these. */
  ghost predicate Needed(selected: seq<File>, files: seq<File>, low: Key, high: Key) {
    forall s: seq<File>, f :: Closing(s, files, low, high) && f in selected ==> f in s
  }

  predicate SpanHolds(f: File, k: Key) {
    EffectiveSmallest(f) <= k <= EffectiveLargest(f)
  }

  /** The widened bounds have no gap: every key between them is in the first span or in a file's. */
  ghost predicate Filled(selected: seq<File>, low: Key, high: Key, lower: Key, upper: Key) {
    forall k: Key :: lower <= k <= upper ==> FilledAt(selected, low, high, k)
  }

  predicate FilledAt(selected: seq<File>, low: Key, high: Key, k: Key) {
    low <= k <= high || exists f :: f in selected && SpanHolds(f, k)
  }

  /** So whatever meets them meets the first span or a file that is needed. */
  lemma FoundNeeded(files: seq<File>, selected: seq<File>, low: Key, high: Key, lower: Key, upper: Key)
    requires ValidFiles(files) && lower <= low <= high <= upper
    requires (forall f :: f in selected ==> f in files) && Needed(selected, files, low, high)
    requires Filled(selected, low, high, lower, upper)
    ensures Needed(Overlapping(files, lower, upper), files, low, high)
  {
    OverlappingMembers(files, lower, upper);
    forall s: seq<File>, f | Closing(s, files, low, high) && f in Overlapping(files, lower, upper)
      ensures f in s
    {
      SmallestIsTouched(f);
      var k := if EffectiveSmallest(f) < lower then lower else EffectiveSmallest(f);
      assert FilledAt(selected, low, high, k);
      if !(low <= k <= high) {
        var g :| g in selected && SpanHolds(g, k);
        assert SpansMeet(g, f) && g in s;
      }
    }
  }

  lemma {:induction false} WidenedTo(low: Key, high: Key, files: seq<File>)
    ensures WidenedLow(low, files) == low || exists f :: f in files && EffectiveSmallest(f) == WidenedLow(low, files)
    ensures WidenedHigh(high, files) == high
            || exists f :: f in files && EffectiveLargest(f) == WidenedHigh(high, files)
    decreases files
  {
    if files != [] {
      var f := files[0];
      assert f in files && forall g :: g in files[1..] ==> g in files;
      WidenedTo(if low == EMPTY_KEY || EffectiveSmallest(f) < low then EffectiveSmallest(f) else low,
                if high == EMPTY_KEY || EffectiveLargest(f) > high then EffectiveLargest(f) else high, files[1..]);
    }
  }

  /** Widening over files that meet the bounds leaves no gap either. */
  lemma WidenFills(found: seq<File>, selected: seq<File>, low: Key, high: Key, lower: Key, upper: Key)
    requires Filled(selected, low, high, lower, upper)
    requires (forall f :: f in selected ==> f in found) && forall f :: f in found ==> Meets(f, lower, upper)
    ensures Filled(found, low, high, WidenedLow(lower, found), WidenedHigh(upper, found))
  {
    WidenedTo(lower, upper, found);
    forall k: Key | WidenedLow(lower, found) <= k <= WidenedHigh(upper, found)
      ensures FilledAt(found, low, high, k)
    {
      if k < lower {
        var f :| f in found && EffectiveSmallest(f) == WidenedLow(lower, found);
        assert SpanHolds(f, k);
      } else if k > upper {
        var f :| f in found && EffectiveLargest(f) == WidenedHigh(upper, found);
        assert SpanHolds(f, k);
      } else {
        assert FilledAt(selected, low, high, k);
      }
    }
  }

  /**
   Every file overlapping the span, to a fixpoint: the result is closed, so a file it leaves out does
   not meet the span of the files it holds, and it is the least such set.
   */
  method TransitiveOverlap(files: seq<File>, low: Key, high: Key)
    returns (selected: seq<File>, ghost lower: Key, ghost upper: Key)
    requires Widenable(files, low)
    ensures lower <= low && high <= upper
    ensures selected == Overlapping(files, lower, upper)
    ensures Inside(selected, lower, upper)
    ensures Closing(selected, files, low, high)
    ensures ValidFiles(files) && low <= high ==> Needed(selected, files, low, high)
  {
    var l: Key, u: Key := low, high;
    selected := [];
    ghost var pl: Key, pu: Key := low, high;
    while true
      invariant Widenable(files, l) && l <= low && high <= u
      invariant |selected| <= |Overlapping(files, l, u)|
      invariant selected != [] ==> l <= pl && pu <= u && Inside(selected, l, u)
      invariant selected != [] ==> selected == Overlapping(files, pl, pu)
      invariant ValidFiles(files) && low <= high ==> Needed(selected, files, low, high)
      invariant Filled(selected, low, high, l, u) && forall f :: f in selected ==> f in files && Meets(f, l, u)
      decreases |files| + 1 - |selected|
    {
      var found := Overlapping(files, l, u);
      OverlappingMembers(files, l, u);
      if ValidFiles(files) && low <= high {
        FoundNeeded(files, selected, low, high, l, u);
      }
      if |found| == |selected| {
        if selected != [] {
          OverlapGrows(files, pl, pu, l, u);
        }
        OverlapCloses(files, low, high, l, u);
        return found, l, u;
      }
      WidenFills(found, selected, low, high, l, u);
      selected := found;
      WidenFound(files, l, u);
      var widenedLower, widenedUpper := Widen(selected, l, u);
      if widenedLower == l && widenedUpper == u {
        OverlapCloses(files, low, high, l, u);
        return selected, l, u;
      }
      OverlapGrows(files, l, u, widenedLower, widenedUpper);
      pl, pu := l, u;
      l, u := widenedLower, widenedUpper;
    }
  }

  // ---------- the budget trim ----------

  function TotalBytes(files: seq<File>): nat {
    if files == [] then 0 else files[0].bytes + TotalBytes(files[1..])
  }

  predicate Ascending(ns: seq<nat>) {
    forall i, j :: 0 <= i < j < |ns| ==> ns[i] <= ns[j]
  }

  lemma InsertedInOrder(ns: seq<nat>, at: nat, n: nat)
    requires Ascending(ns) && at <= |ns|
    requires (forall i :: 0 <= i < at ==> ns[i] <= n) && (at < |ns| ==> n <= ns[at])
    ensures Ascending(ns[..at] + [n] + ns[at..])
    ensures forall x :: x in ns[..at] + [n] + ns[at..] <==> x == n || x in ns
  {
    var out := ns[..at] + [n] + ns[at..];
    forall i, j | 0 <= i < j < |out|
      ensures out[i] <= out[j]
    {
      assert out[i] == if i < at then ns[i] else if i == at then n else ns[i - 1];
      assert out[j] == if j < at then ns[j] else if j == at then n else ns[j - 1];
    }
    InsertedMembers(ns[..at], ns[at..], n);
    assert ns == ns[..at] + ns[at..];
  }

  lemma InsertedMembers(before: seq<nat>, after: seq<nat>, n: nat)
    ensures forall x :: x in before + [n] + after <==> x == n || x in before + after
  {
  }

  method SortNumbers(numbers: seq<nat>) returns (out: seq<nat>)
    ensures Ascending(out) && forall n :: n in out <==> n in numbers
  {
    out := [];
    for n := 0 to |numbers|
      invariant Ascending(out) && forall x :: x in out <==> x in numbers[..n]
    {
      var at := 0;
      while at < |out| && out[at] <= numbers[n]
        invariant 0 <= at <= |out|
        invariant forall i :: 0 <= i < at ==> out[i] <= numbers[n]
      {
        at := at + 1;
      }
      InsertedInOrder(out, at, numbers[n]);
      assert numbers[..n + 1] == numbers[..n] + [numbers[n]];
      out := out[..at] + [numbers[n]] + out[at..];
    }
    assert numbers[..|numbers|] == numbers;
  }

  lemma {:induction false} BytesConcat(a: seq<File>, b: seq<File>)
    ensures TotalBytes(a + b) == TotalBytes(a) + TotalBytes(b)
  {
    if a == [] {
      assert a + b == b;
    } else {
      assert (a + b)[1..] == a[1..] + b;
      BytesConcat(a[1..], b);
    }
  }

  /** Taking one more file adds its bytes. */
  lemma {:induction false} BytesAdd(files: seq<File>, numbers: set<nat>, at: nat)
    requires DistinctNumbers(files) && at < |files| && files[at].number !in numbers
    ensures TotalBytes(Select(files, numbers + {files[at].number})) ==
            TotalBytes(Select(files, numbers)) + files[at].bytes
  {
    var more := numbers + {files[at].number};
    var rest := files[1..];
    BytesConcat(if files[0].number in more then [files[0]] else [], Select(rest, more));
    BytesConcat(if files[0].number in numbers then [files[0]] else [], Select(rest, numbers));
    assert TotalBytes([files[0]]) == files[0].bytes;
    if at == 0 {
      forall f | f in rest
        ensures f.number in more <==> f.number in numbers
      {
        var i :| 0 <= i < |rest| && rest[i] == f;
        assert files[i + 1] == f;
      }
      SelectAgree(rest, more, numbers);
    } else {
      assert files[0].number != files[at].number;
      assert rest[at - 1] == files[at];
      BytesAdd(rest, numbers, at - 1);
    }
  }

  method NumbersByAge(inputs: seq<File>) returns (byAge: seq<nat>)
    ensures Ascending(byAge) && forall n :: n in byAge <==> n in Numbers(inputs)
  {
    var numbers := seq(|inputs|, i requires 0 <= i < |inputs| => inputs[i].number);
    byAge := SortNumbers(numbers);
    assert forall i :: 0 <= i < |inputs| ==> numbers[i] == inputs[i].number && inputs[i] in inputs;
  }

  function Front(numbers: seq<nat>, stop: nat): set<nat>
    requires stop <= |numbers|
  {
    set i | 0 <= i < stop :: numbers[i]
  }

  lemma FrontGrows(numbers: seq<nat>, stop: nat)
    requires stop < |numbers|
    ensures Front(numbers, stop + 1) == Front(numbers, stop) + {numbers[stop]}
  {
  }

  /** A front of the numbers in order is downward closed. */
  lemma FrontIsOldest(numbers: seq<nat>, stop: nat, m: nat, n: nat)
    requires Ascending(numbers) && stop <= |numbers|
    requires n in Front(numbers, stop) && m in numbers && m !in Front(numbers, stop)
    ensures m > n
  {
    var j :| 0 <= j < |numbers| && numbers[j] == m;
    assert stop <= j;
  }

  /** The oldest of those left out would not fit beside what is kept. */
  predicate Full(inputs: seq<File>, keep: set<nat>, kept: nat, budget: nat) {
    exists g :: g in inputs && g.number !in keep && kept + g.bytes > budget
                && forall h :: h in inputs && h.number !in keep ==> g.number <= h.number
  }

  /** The numbers of the oldest files that fit, taken in age order until one does not fit. */
  method ChooseOldest(inputs: seq<File>, budget: nat) returns (keep: set<nat>)
    requires inputs != [] && DistinctNumbers(inputs)
    ensures keep != {} && keep <= Numbers(inputs)
    ensures forall m, n :: n in keep && m in Numbers(inputs) && m !in keep ==> m > n
    ensures TotalBytes(Select(inputs, keep)) <= budget || exists n :: keep == {n}
    ensures keep == Numbers(inputs) || Full(inputs, keep, TotalBytes(Select(inputs, keep)), budget)
  {
    var byAge := NumbersByAge(inputs);
    assert inputs[0] in inputs && inputs[0].number in byAge;
    keep := {};
    var bytes := 0;
    var stop := 0;
    SelectEmpty(inputs);
    while stop < |byAge|
      invariant 0 <= stop <= |byAge| && keep == Front(byAge, stop) && (stop > 0 ==> byAge[0] in keep)
      invariant bytes == TotalBytes(Select(inputs, keep))
      invariant bytes <= budget || keep == {byAge[0]}
    {
      var n := byAge[stop];
      assert n in byAge;
      var at := FindNumber(inputs, n);
      FrontGrows(byAge, stop);
      if n in keep {
        assert keep + {n} == keep;
      } else {
        if keep != {} && bytes + inputs[at].bytes > budget {
          NextIsOldest(inputs, byAge, stop, at);
          break;
        }
        BytesAdd(inputs, keep, at);
        bytes := bytes + inputs[at].bytes;
        keep := keep + {n};
      }
      stop := stop + 1;
    }
    forall m, n | n in keep && m in Numbers(inputs) && m !in keep
      ensures m > n
    {
      FrontIsOldest(byAge, stop, m, n);
    }
    assert stop == |byAge| ==> keep == Numbers(inputs);
  }

  lemma NextIsOldest(inputs: seq<File>, byAge: seq<nat>, stop: nat, at: nat)
    requires Ascending(byAge) && forall n :: n in byAge <==> n in Numbers(inputs)
    requires stop < |byAge| && at < |inputs| && inputs[at].number == byAge[stop]
    ensures forall h :: h in inputs && h.number !in Front(byAge, stop) ==> inputs[at].number <= h.number
  {
    forall h | h in inputs && h.number !in Front(byAge, stop)
      ensures inputs[at].number <= h.number
    {
      assert h.number in byAge;
      var j :| 0 <= j < |byAge| && byAge[j] == h.number;
      assert stop <= j;
    }
  }

  lemma {:induction false} SelectEmpty(files: seq<File>)
    ensures Select(files, {}) == []
  {
    if files != [] {
      SelectEmpty(files[1..]);
    }
  }

  /**
   The oldest that fit, in the level's own order, and always the oldest one: everything left out is newer, and the
   oldest of it would not fit. A budget of zero is none.
   */
  predicate Trimmed(kept: seq<File>, inputs: seq<File>, budget: nat) {
    && kept != [] && TakenFrom(kept, inputs)
    && (forall f, g :: f in kept && g in inputs && g !in kept ==> g.number > f.number)
    && (budget == 0 || TotalBytes(kept) <= budget || |kept| == 1)
    && (kept != inputs ==> budget != 0 && Full(inputs, Numbers(kept), TotalBytes(kept), budget))
  }

  /**
   Keeps the oldest inputs that fit the budget, and always the oldest one. What is kept is downward
   closed in age and stays in the level's own order.
   */
  method TrimToBudget(inputs: seq<File>, budget: nat) returns (kept: seq<File>, trimmed: bool)
    requires inputs != [] && DistinctNumbers(inputs)
    ensures Trimmed(kept, inputs, budget)
    ensures trimmed <==> budget != 0 && TotalBytes(inputs) > budget
  {
    if budget == 0 || TotalBytes(inputs) <= budget {
      AllTaken(inputs);
      return inputs, false;
    }
    var keep := ChooseOldest(inputs, budget);
    TrimmedTo(inputs, keep, budget);
    return Select(inputs, keep), true;
  }

  lemma TrimmedTo(inputs: seq<File>, keep: set<nat>, budget: nat)
    requires DistinctNumbers(inputs) && budget != 0 && keep != {} && keep <= Numbers(inputs)
    requires forall m, n :: n in keep && m in Numbers(inputs) && m !in keep ==> m > n
    requires TotalBytes(Select(inputs, keep)) <= budget || exists n :: keep == {n}
    requires keep == Numbers(inputs) || Full(inputs, keep, TotalBytes(Select(inputs, keep)), budget)
    ensures Trimmed(Select(inputs, keep), inputs, budget)
  {
    var kept := Select(inputs, keep);
    SelectMembers(inputs, keep);
    ReselectTaken(inputs, keep);
    KeptNumbers(inputs, keep);
    assert kept == inputs || keep != Numbers(inputs) by {
      if keep == Numbers(inputs) { AllTaken(inputs); }
    }
    KeptSome(inputs, keep);
    forall f, g | f in kept && g in inputs && g !in kept
      ensures g.number > f.number
    {
      assert g.number in Numbers(inputs) && g.number !in keep && f.number in keep;
    }
  }

  lemma KeptSome(inputs: seq<File>, keep: set<nat>)
    requires DistinctNumbers(inputs) && keep != {} && keep <= Numbers(inputs)
    ensures Select(inputs, keep) != []
    ensures (exists n :: keep == {n}) ==> |Select(inputs, keep)| == 1
  {
    SelectMembers(inputs, keep);
    var n :| n in keep;
    var f :| f in inputs && f.number == n;
    assert f in Select(inputs, keep);
    if keep == {n} {
      SingleTaken(inputs, f);
      assert Numbers([f]) == {n};
    }
  }

  lemma KeptNumbers(inputs: seq<File>, keep: set<nat>)
    requires keep <= Numbers(inputs)
    ensures Numbers(Select(inputs, keep)) == keep
  {
    SelectMembers(inputs, keep);
    forall n | n in keep
      ensures n in Numbers(Select(inputs, keep))
    {
      var f :| f in inputs && f.number == n;
      assert f in Select(inputs, keep);
    }
  }

  method FindNumber(files: seq<File>, number: nat) returns (at: nat)
    requires exists i :: 0 <= i < |files| && files[i].number == number
    ensures at < |files| && files[at].number == number
  {
    at := 0;
    while files[at].number != number
      invariant 0 <= at < |files|
      invariant exists i :: at <= i < |files| && files[i].number == number
      decreases |files| - at
    {
      at := at + 1;
    }
  }

  /** Selecting by any set of numbers is selecting by the numbers selected. */
  lemma ReselectTaken(files: seq<File>, numbers: set<nat>)
    ensures TakenFrom(Select(files, numbers), files)
  {
    SelectMembers(files, numbers);
    var kept := Select(files, numbers);
    forall f | f in files
      ensures f.number in numbers <==> f.number in Numbers(kept)
    {
      if f.number in numbers {
        assert f in kept;
      }
    }
    SelectAgree(files, numbers, Numbers(kept));
  }

  lemma {:induction false} SelectAgree(files: seq<File>, a: set<nat>, b: set<nat>)
    requires forall f :: f in files ==> (f.number in a <==> f.number in b)
    ensures Select(files, a) == Select(files, b)
  {
    if files != [] {
      assert files[0] in files;
      SelectAgree(files[1..], a, b);
    }
  }

  lemma AllTaken(files: seq<File>)
    ensures TakenFrom(files, files)
  {
    SelectAll(files, Numbers(files));
  }

  lemma {:induction false} SelectAll(files: seq<File>, numbers: set<nat>)
    requires forall f :: f in files ==> f.number in numbers
    ensures Select(files, numbers) == files
  {
    if files != [] {
      assert files[0] in files;
      SelectAll(files[1..], numbers);
    }
  }

  /** A selection of a selection is a selection. */
  lemma TakenTransitively(a: seq<File>, b: seq<File>, files: seq<File>)
    requires TakenFrom(a, b) && TakenFrom(b, files)
    ensures TakenFrom(a, files)
  {
    SelectMembers(b, Numbers(a));
    SelectMembers(files, Numbers(b));
    SelectTwice(files, Numbers(b), Numbers(a));
    assert Numbers(a) * Numbers(b) == Numbers(a) by {
      forall n | n in Numbers(a) ensures n in Numbers(b) {
        var f :| f in a && f.number == n;
        assert f in b;
      }
    }
  }

  lemma {:induction false} SelectTwice(files: seq<File>, a: set<nat>, b: set<nat>)
    ensures Select(Select(files, a), b) == Select(files, b * a)
  {
    if files != [] {
      SelectTwice(files[1..], a, b);
      SelectConcat(if files[0].number in a then [files[0]] else [], Select(files[1..], a), b);
    }
  }

  lemma {:induction false} SelectConcat(a: seq<File>, b: seq<File>, numbers: set<nat>)
    ensures Select(a + b, numbers) == Select(a, numbers) + Select(b, numbers)
  {
    if a == [] {
      assert a + b == b;
    } else {
      SelectConcat(a[1..], b, numbers);
      assert (a + b)[0] == a[0] && (a + b)[1..] == a[1..] + b;
      var first := if a[0].number in numbers then [a[0]] else [];
      assert first + (Select(a[1..], numbers) + Select(b, numbers)) ==
        (first + Select(a[1..], numbers)) + Select(b, numbers);
    }
  }

  // ---------- what may be let go ----------

  /** Levels 0 to `last` are configured, and nothing lies deeper. */
  predicate WithinDepth(levels: Levels, last: nat) {
    last < |levels| && forall i :: last < i < |levels| ==> levels[i] == []
  }

  predicate NoEmptyKeys(levels: Levels) {
    forall i :: 0 <= i < |levels| ==> NoEmptyLow(levels[i])
  }

  /** No configured level deeper than `outputLevel` meets the span. */
  predicate ClearBelow(levels: Levels, outputLevel: nat, last: nat, low: Key, high: Key) {
    forall i :: outputLevel < i <= last && i < |levels| ==> Overlapping(levels[i], low, high) == []
  }

  method IsBottommost(levels: Levels, outputLevel: nat, last: nat, low: Key, high: Key) returns (bottommost: bool)
    requires last < |levels|
    ensures bottommost <==> ClearBelow(levels, outputLevel, last, low, high)
  {
    var level := outputLevel + 1;
    while level <= last
      invariant outputLevel < level
      invariant forall i :: outputLevel < i < level && i <= last ==> Overlapping(levels[i], low, high) == []
    {
      if Overlapping(levels[level], low, high) != [] {
        return false;
      }
      level := level + 1;
    }
    return true;
  }

  /** The span the compaction writes, over inputs and overlaps together. */
  method EffectiveHull(children: seq<File>) returns (low: Key, high: Key)
    requires children != []
    ensures low == LowestKey(children) <==> EmptyLowOnlyLast(children)
    ensures high == HighestKey(children)
  {
    low, high := Widen(children, EMPTY_KEY, EMPTY_KEY);
    HullLowExactly(children);
    WidenedHighIsMax(EMPTY_KEY, children);
  }

  lemma BottommostMeansNothingBelow(levels: Levels, last: nat, outputLevel: nat, children: seq<File>)
    requires WithinDepth(levels, last) && children != []
    requires ClearBelow(levels, outputLevel, last, LowestKey(children), HighestKey(children))
    ensures NothingBelow(levels, outputLevel, children)
  {
    forall i, f, g | outputLevel < i < |levels| && f in children && g in levels[i]
      ensures !SpansMeet(f, g)
    {
      assert i <= last;
      HullContains(children, f);
      OverlappingMembers(levels[i], LowestKey(children), HighestKey(children));
    }
  }

  /** Whatever is found clear may be let go: what the test is for. */
  ghost predicate ClearIsSafe(levels: Levels, last: nat) {
    forall outputLevel: nat, children: seq<File> ::
      outputLevel <= last && children != []
        && ClearBelow(levels, outputLevel, last, LowestKey(children), HighestKey(children))
      ==> NothingBelow(levels, outputLevel, children)
  }

  /** The test over the configured levels is safe exactly when no file lies deeper. */
  lemma DepthExactly(levels: Levels, last: nat)
    requires last < |levels| && ValidLevels(levels)
    ensures WithinDepth(levels, last) <==> ClearIsSafe(levels, last)
  {
    if WithinDepth(levels, last) {
      forall outputLevel: nat, children: seq<File> |
        outputLevel <= last && children != []
          && ClearBelow(levels, outputLevel, last, LowestKey(children), HighestKey(children))
        ensures NothingBelow(levels, outputLevel, children)
      {
        BottommostMeansNothingBelow(levels, last, outputLevel, children);
      }
    } else {
      var i :| last < i < |levels| && levels[i] != [];
      var g := levels[i][0];
      assert g in levels[i] && g in [g] && ValidLevel(i, levels[i]);
      SmallestIsTouched(g);
      assert SpansMeet(g, g);
      assert ClearBelow(levels, last, last, LowestKey([g]), HighestKey([g]));
      assert !NothingBelow(levels, last, [g]);
    }
  }

  /** The bottommost test over the span the compaction writes. */
  method MayLetGo(levels: Levels, last: nat, outputLevel: nat, children: seq<File>) returns (bottommost: bool)
    requires last < |levels| && children != []
    ensures EmptyLowOnlyLast(children) ==>
              (bottommost <==> ClearBelow(levels, outputLevel, last, LowestKey(children), HighestKey(children)))
    ensures EmptyLowOnlyLast(children) && WithinDepth(levels, last) && bottommost ==>
              NothingBelow(levels, outputLevel, children)
  {
    var hullLow, hullHigh := EffectiveHull(children);
    bottommost := IsBottommost(levels, outputLevel, last, hullLow, hullHigh);
    if bottommost && EmptyLowOnlyLast(children) && WithinDepth(levels, last) {
      BottommostMeansNothingBelow(levels, last, outputLevel, children);
    }
  }

  /** The overlaps are exactly what the inputs' own hull meets, and deletions go exactly when nothing deeper is met. */
  ghost predicate Complete(levels: Levels, last: nat, c: Pick)
    requires c.outputLevel < |levels| && last < |levels| && c.inputs != []
  {
    && c.overlaps == Overlapping(levels[c.outputLevel], LowestKey(c.inputs), HighestKey(c.inputs))
    && (EmptyLowOnlyLast(Children(c)) ==>
          (c.bottommost <==>
           ClearBelow(levels, c.outputLevel, last, LowestKey(Children(c)), HighestKey(Children(c)))))
  }

  /** Overlaps, hull and bottommost flag for inputs already chosen. */
  method CompletePick(levels: Levels, last: nat, level: nat, inputs: seq<File>, low: Key, high: Key) returns (c: Pick)
    requires level < last < |levels|
    requires inputs != [] && TakenFrom(inputs, levels[level]) && MeetsBelow(levels[level + 1], inputs, low, high)
    requires level == 0 ==> MayStayBehind(levels[0], inputs)
    ensures SoundSpan(levels, c) && c.level == level && c.inputs == inputs && c.low == low && c.high == high
    ensures Complete(levels, last, c)
    ensures WithinDepth(levels, last) && EmptyLowOnlyLast(Children(c)) ==> ValidPick(levels, c)
  {
    var overlaps := Overlapping(levels[level + 1], low, high);
    var children := inputs + overlaps;
    var bottommost := MayLetGo(levels, last, level + 1, children);
    c := Pick(level, level + 1, inputs, overlaps, low, high, bottommost);
  }

  /** Where no file of either level starts at the empty key, the hull is right. */
  lemma HullIsRight(levels: Levels, c: Pick)
    requires SoundSpan(levels, c) && NoEmptyLow(levels[c.level]) && NoEmptyLow(levels[c.outputLevel])
    ensures EmptyLowOnlyLast(Children(c))
  {
    SelectMembers(levels[c.level], Numbers(c.inputs));
    OverlappingMembers(levels[c.outputLevel], c.low, c.high);
  }

  // ---------- seeds ----------

  method OldestFile(files: seq<File>) returns (seed: File)
    requires files != []
    ensures seed in files && forall g :: g in files ==> seed.number <= g.number
  {
    seed := files[0];
    for i := 0 to |files|
      invariant seed in files && forall j :: 0 <= j < i ==> seed.number <= files[j].number
    {
      if files[i].number < seed.number { seed := files[i]; }
    }
  }

  /** What the sweep has not passed yet; with no pointer that is everything. */
  predicate Ahead(f: File, pointer: Key) {
    pointer == EMPTY_KEY || LargestKey(f) > pointer
  }

  /** The first file the sweep has not passed, or the first of all once it has passed every one. */
  predicate IsSeed(files: seq<File>, pointer: Key, seed: File)
    requires files != []
  {
    if pointer != EMPTY_KEY && exists f :: f in files && LargestKey(f) > pointer
    then exists i :: 0 <= i < |files| && seed == files[i] && LargestKey(files[i]) > pointer
                     && forall j :: 0 <= j < i ==> LargestKey(files[j]) <= pointer
    else seed == files[0]
  }

  /** The first file above the compaction pointer, wrapping at the end of the keyspace. */
  method SeedAfterPointer(files: seq<File>, pointer: Key) returns (seed: File)
    requires files != []
    ensures IsSeed(files, pointer, seed)
  {
    for i := 0 to |files|
      invariant forall j :: 0 <= j < i ==> !Ahead(files[j], pointer)
    {
      if Ahead(files[i], pointer) {
        return files[i];
      }
    }
    return files[0];
  }

  // ---------- picking ----------

  /** No file starts at the empty key; or the last one does, and is the oldest one or the only one. */
  predicate Seedable(files: seq<File>) {
    NoEmptyLow(files)
    || (files != [] && EffectiveSmallest(LastFile(files)) == EMPTY_KEY
        && ((forall g :: g in files ==> LastFile(files).number <= g.number) || NoEmptyLow(files[..|files| - 1])))
  }

  /** In level 0 the last file is the oldest, so it is enough that it starts at the empty key if any does. */
  lemma LevelZeroIsSeedable(files: seq<File>)
    requires ValidLevel(0, files) && EmptyLowOnlyLast(files)
    ensures Seedable(files)
  {
    if !NoEmptyLow(files) {
      forall g | g in files
        ensures LastFile(files).number <= g.number
      {
        var i :| 0 <= i < |files| && files[i] == g;
      }
    }
  }

  lemma SeedIsLast(files: seq<File>, seed: File)
    requires Seedable(files) && DistinctNumbers(files)
    requires seed in files && forall g :: g in files ==> seed.number <= g.number
    ensures Widenable(files, EffectiveSmallest(seed))
    ensures !NoEmptyLow(files) && !NoEmptyLow(files[..|files| - 1]) ==> seed == LastFile(files)
  {
    if !NoEmptyLow(files) && !NoEmptyLow(files[..|files| - 1]) {
      DistinctMembers(files, seed, LastFile(files));
    }
  }

  lemma TakenLast(taken: seq<File>, files: seq<File>)
    requires TakenFrom(taken, files) && files != [] && LastFile(files) in taken
    ensures LastFile(taken) == LastFile(files)
  {
    var front, last := files[..|files| - 1], LastFile(files);
    assert files == front + [last];
    SelectConcat(front, [last], Numbers(taken));
    assert Select([last], Numbers(taken)) == [last];
  }

  /** The bounds of what survives the trim come out right: the oldest file is always among it. */
  lemma InputsOnlyLast(files: seq<File>, inputs: seq<File>, seed: File)
    requires Seedable(files) && DistinctNumbers(files) && inputs != [] && TakenFrom(inputs, files) && seed in inputs
    requires forall g :: g in files ==> seed.number <= g.number
    ensures EmptyLowOnlyLast(inputs)
  {
    SelectMembers(files, Numbers(inputs));
    SeedIsLast(files, seed);
    if NoEmptyLow(files) {
    } else if LastFile(files) in inputs {
      TakenLast(inputs, files);
    } else {
      forall f | f in inputs
        ensures EffectiveSmallest(f) != EMPTY_KEY
      {
        AllButLast(files, f);
      }
    }
  }

  /** Widening from the first file's own bounds over all of them. */
  lemma WidenOwn(inputs: seq<File>)
    requires inputs != [] && EmptyLowOnlyLast(inputs)
    ensures WidenedLow(EffectiveSmallest(inputs[0]), inputs) == LowestKey(inputs)
    ensures WidenedHigh(EffectiveLargest(inputs[0]), inputs) == HighestKey(inputs)
  {
    var low, high := EffectiveSmallest(inputs[0]), EffectiveLargest(inputs[0]);
    HullContains(inputs, inputs[0]);
    WidenedHighIsMax(high, inputs);
    LowestIsEmpty(inputs);
    if NoEmptyLow(inputs) {
      WidenedFrom(low, inputs);
    } else {
      WidenedLast(low, inputs);
    }
  }

  /** All that the oldest file is linked to by files that meet, and nothing else. */
  ghost predicate IsClosure(closure: seq<File>, files: seq<File>) {
    && TakenFrom(closure, files)
    && exists seed :: seed in files && (forall g :: g in files ==> seed.number <= g.number)
                      && Closing(closure, files, EffectiveSmallest(seed), EffectiveLargest(seed))
                      && Needed(closure, files, EffectiveSmallest(seed), EffectiveLargest(seed))
  }

  /** The oldest file's closure, trimmed by age to the budget. */
  ghost predicate ByAge(inputs: seq<File>, files: seq<File>, budget: nat) {
    exists closure :: IsClosure(closure, files) && Trimmed(inputs, closure, budget)
  }

  method FindClosure(files: seq<File>) returns (closure: seq<File>, ghost seed: File)
    requires files != [] && ValidFiles(files) && DistinctNumbers(files) && Seedable(files)
    ensures IsClosure(closure, files) && ClosedIn(closure, files)
    ensures seed in closure && forall g :: g in files ==> seed.number <= g.number
  {
    var oldest := OldestFile(files);
    seed := oldest;
    SmallestIsTouched(oldest);
    SeedIsLast(files, oldest);
    ghost var lower, upper;
    closure, lower, upper := TransitiveOverlap(files, EffectiveSmallest(oldest), EffectiveLargest(oldest));
    OverlappingMembers(files, lower, upper);
    OverlappingIsSelection(files, lower, upper);
  }

  /** What is trimmed away is newer; what never was in the closure meets nothing in it. */
  lemma TrimmedStaysBehind(files: seq<File>, closure: seq<File>, inputs: seq<File>, seed: File, budget: nat)
    requires DistinctNumbers(files) && TakenFrom(closure, files) && ClosedIn(closure, files)
    requires Trimmed(inputs, closure, budget)
    requires seed in closure && forall g :: g in files ==> seed.number <= g.number
    ensures TakenFrom(inputs, files) && MayStayBehind(files, inputs) && seed in inputs
  {
    TakenTransitively(inputs, closure, files);
    SelectMembers(closure, Numbers(inputs));
    SelectMembers(files, Numbers(closure));
    assert inputs[0] in inputs && inputs[0] in files;
  }

  /** Inputs from a level whose files may overlap: the oldest file's closure, trimmed by age. */
  method OverlappingInputs(files: seq<File>, budget: nat) returns (inputs: seq<File>, low: Key, high: Key)
    requires files != [] && ValidFiles(files) && DistinctNumbers(files) && Seedable(files)
    ensures inputs != [] && TakenFrom(inputs, files) && low == LowestKey(inputs) && high == HighestKey(inputs)
    ensures MayStayBehind(files, inputs) && ByAge(inputs, files, budget)
    ensures budget == 0 || TotalBytes(inputs) <= budget || |inputs| == 1
  {
    var closure, seed := FindClosure(files);
    TakenDistinct(closure, files);
    var trimmed;
    inputs, trimmed := TrimToBudget(closure, budget);
    TrimmedStaysBehind(files, closure, inputs, seed, budget);
    InputsOnlyLast(files, inputs, seed);
    WidenOwn(inputs);
    low, high := EffectiveSmallest(inputs[0]), EffectiveLargest(inputs[0]);
    low, high := Widen(inputs, low, high);
  }

  lemma TakenDistinct(taken: seq<File>, files: seq<File>)
    requires TakenFrom(taken, files) && DistinctNumbers(files)
    ensures DistinctNumbers(taken)
  {
    SelectDistinct(files, Numbers(taken));
  }

  lemma {:induction false} SelectDistinct(files: seq<File>, numbers: set<nat>)
    requires DistinctNumbers(files)
    ensures DistinctNumbers(Select(files, numbers))
  {
    if files != [] {
      SelectDistinct(files[1..], numbers);
      SelectMembers(files[1..], numbers);
      var rest := Select(files[1..], numbers);
      forall i | 0 <= i < |rest|
        ensures files[0].number != rest[i].number
      {
        assert rest[i] in files[1..];
        var j :| 0 <= j < |files[1..]| && files[1..][j] == rest[i];
        assert files[j + 1] == rest[i];
      }
    }
  }

  /** What the seed and its overlaps span, grown back into the seed's own level. */
  function GrownBack(files: seq<File>, below: seq<File>, seed: File): seq<File> {
    var met := [seed] + Overlapping(below, EffectiveSmallest(seed), EffectiveLargest(seed));
    Overlapping(files, LowestKey(met), HighestKey(met))
  }

  /** Growing is worth while, fits, and pulls in nothing more from the level below. */
  predicate MayGrow(files: seq<File>, below: seq<File>, seed: File, budget: nat) {
    var overlaps := Overlapping(below, EffectiveSmallest(seed), EffectiveLargest(seed));
    var grown := GrownBack(files, below, seed);
    var all := [seed] + overlaps + grown;
    && overlaps != [] && |grown| > 1 && TotalBytes(grown) + TotalBytes(overlaps) <= budget
    && Overlapping(below, LowestKey(all), HighestKey(all)) == overlaps
  }

  lemma {:induction false} HullConcat(a: seq<File>, b: seq<File>)
    requires a != [] && b != []
    ensures LowestKey(a + b) == if LowestKey(a) < LowestKey(b) then LowestKey(a) else LowestKey(b)
    ensures HighestKey(a + b) == if HighestKey(a) > HighestKey(b) then HighestKey(a) else HighestKey(b)
    decreases a
  {
    assert (a + b)[1..] == a[1..] + b;
    if |a| == 1 {
      assert a[1..] + b == b;
    } else {
      HullConcat(a[1..], b);
    }
  }

  /** With no empty key about, widening over files is taking the hull with them. */
  lemma WidenIsHull(files: seq<File>, more: seq<File>)
    requires files != [] && more != [] && NoEmptyLow(files) && NoEmptyLow(more)
    ensures WidenedLow(LowestKey(files), more) == LowestKey(files + more)
    ensures WidenedHigh(HighestKey(files), more) == HighestKey(files + more)
    ensures NoEmptyLow(files + more)
  {
    LowestIsEmpty(files);
    WidenedFrom(LowestKey(files), more);
    WidenedHighIsMax(HighestKey(files), more);
    HullConcat(files, more);
  }

  lemma InsideHull(files: seq<File>)
    requires files != []
    ensures Inside(files, LowestKey(files), HighestKey(files))
  {
    forall f | f in files
      ensures LowestKey(files) <= EffectiveSmallest(f) && EffectiveLargest(f) <= HighestKey(files)
    {
      HullContains(files, f);
    }
  }

  /** What an input set meets below, as its own hull and as any wider one that meets no more. */
  ghost predicate MeetsBelow(below: seq<File>, inputs: seq<File>, low: Key, high: Key)
    requires inputs != []
  {
    && Inside(inputs, low, high)
    && Overlapping(below, low, high) == Overlapping(below, LowestKey(inputs), HighestKey(inputs))
  }

  lemma GrowthMeetsNoMore(files: seq<File>, below: seq<File>, seed: File)
    requires seed in files && ValidFiles(files)
    requires Overlapping(below, EffectiveSmallest(seed), EffectiveLargest(seed)) != []
    ensures var overlaps := Overlapping(below, EffectiveSmallest(seed), EffectiveLargest(seed));
            var grown := GrownBack(files, below, seed);
            var all := [seed] + overlaps + grown;
            && grown != [] && seed in grown && Inside(grown, LowestKey(all), HighestKey(all))
            && (|Overlapping(below, LowestKey(all), HighestKey(all))| == |overlaps| ==>
                  && Overlapping(below, LowestKey(all), HighestKey(all)) == overlaps
                  && MeetsBelow(below, grown, LowestKey(all), HighestKey(all)))
  {
    var overlaps := Overlapping(below, EffectiveSmallest(seed), EffectiveLargest(seed));
    var met := [seed] + overlaps;
    var grown := GrownBack(files, below, seed);
    var all := met + grown;
    SmallestIsTouched(seed);
    HullContains(met, seed);
    OverlappingMembers(files, LowestKey(met), HighestKey(met));
    assert seed in grown;
    HullContains(grown, seed);
    HullConcat(met, grown);
    InsideHull(all);
    OverlapGrows(below, EffectiveSmallest(seed), EffectiveLargest(seed), LowestKey(grown), HighestKey(grown));
    OverlapGrows(below, LowestKey(grown), HighestKey(grown), LowestKey(all), HighestKey(all));
  }

  /**
   One file below level 0, optionally grown back into its own level with the files inside the
   overlaps' span, provided that pulls in no further overlap.
   */
  method ExpandedInputs(files: seq<File>, below: seq<File>, seed: File, budget: nat)
    returns (inputs: seq<File>, low: Key, high: Key)
    requires ValidFiles(files) && DistinctNumbers(files) && seed in files
    requires NoEmptyLow(files) && NoEmptyLow(below)
    ensures inputs != [] && TakenFrom(inputs, files) && MeetsBelow(below, inputs, low, high)
    ensures inputs == if MayGrow(files, below, seed, budget) then GrownBack(files, below, seed) else [seed]
    ensures Overlapping(below, low, high) == Overlapping(below, EffectiveSmallest(seed), EffectiveLargest(seed))
  {
    inputs := [seed];
    low, high := EffectiveSmallest(seed), EffectiveLargest(seed);
    SingleTaken(files, seed);
    var overlaps := Overlapping(below, low, high);
    if overlaps != [] {
      OverlappingMembers(below, low, high);
      assert NoEmptyLow([seed]) && NoEmptyLow(overlaps);
      WidenIsHull([seed], overlaps);
      var expandedLow, expandedHigh := Widen(overlaps, low, high);
      var expanded := Overlapping(files, expandedLow, expandedHigh);
      OverlappingMembers(files, expandedLow, expandedHigh);
      GrowthMeetsNoMore(files, below, seed);
      if |expanded| > 1 && TotalBytes(expanded) + TotalBytes(overlaps) <= budget {
        WidenIsHull([seed] + overlaps, expanded);
        var checkLow, checkHigh := Widen(expanded, expandedLow, expandedHigh);
        var reoverlap := Overlapping(below, checkLow, checkHigh);
        if |reoverlap| == |overlaps| {
          OverlappingIsSelection(files, expandedLow, expandedHigh);
          inputs, low, high := expanded, checkLow, checkHigh;
        }
      }
    }
  }

  /** The next file of the sweep, grown back into its level where it may. */
  ghost predicate Swept(inputs: seq<File>, files: seq<File>, below: seq<File>, pointer: Key, budget: nat)
    requires files != []
  {
    exists seed :: seed in files && IsSeed(files, pointer, seed)
                   && inputs == if MayGrow(files, below, seed, budget) then GrownBack(files, below, seed) else [seed]
  }

  /** What the outputs would meet two levels down, when that level is configured. */
  function Grandparents(levels: Levels, last: nat, c: Pick): seq<File>
    requires last < |levels| && Children(c) != []
  {
    if c.outputLevel + 1 <= last
    then Overlapping(levels[c.outputLevel + 1], LowestKey(Children(c)), HighestKey(Children(c))) else []
  }

  /** One file that meets nothing below, holds nothing a rewrite would let go, and has few grandparents. */
  predicate MovesAsIs(levels: Levels, last: nat, c: Pick, grandparentLimit: nat)
    requires last < |levels| && c.inputs != []
  {
    && |c.inputs| == 1 && c.overlaps == []
    && (c.bottommost ==> c.inputs[0].ranges == [] && NumTombstones(c.inputs[0].entries) == 0)
    && TotalBytes(Grandparents(levels, last, c)) < grandparentLimit
  }

  /** Beyond one input, a compaction reads from its level no more than the budget; zero is no budget. */
  predicate WithinBudget(c: Pick, budget: nat) {
    budget == 0 || TotalBytes(c.inputs) <= budget || |c.inputs| == 1
  }

  /**
   Picks a compaction out of the chosen level. Whatever the scores, sweep pointer, budgets and
   per-level options, the pick is sound to run.
   */
  method PickCompaction(levels: Levels, last: nat, mayOverlap: seq<bool>, chosen: nat, pointer: Key, budget: nat,
                        grandparentLimit: nat)
    returns (c: Pick, trivialMove: bool)
    requires ValidLevels(levels) && chosen < last < |mayOverlap| && last < |levels| && levels[chosen] != []
    requires if chosen == 0 || mayOverlap[chosen] then Seedable(levels[chosen])
             else NoEmptyLow(levels[chosen]) && NoEmptyLow(levels[chosen + 1])
    ensures SoundSpan(levels, c) && c.level == chosen && Complete(levels, last, c)
    ensures WithinDepth(levels, last) && EmptyLowOnlyLast(Children(c)) ==> ValidPick(levels, c)
    ensures if chosen == 0 || mayOverlap[chosen] then ByAge(c.inputs, levels[chosen], budget)
            else Swept(c.inputs, levels[chosen], levels[chosen + 1], pointer, budget)
    ensures WithinBudget(c, budget)
    ensures EmptyLowOnlyLast(Children(c)) ==> (trivialMove <==> MovesAsIs(levels, last, c, grandparentLimit))
    ensures trivialMove ==>
              && |c.inputs| == 1 && c.overlaps == []
              && (c.bottommost ==> c.inputs[0].ranges == [] && NumTombstones(c.inputs[0].entries) == 0)
  {
    var inputs, low, high := ChooseInputs(levels, mayOverlap[chosen], chosen, pointer, budget);
    c := CompletePick(levels, last, chosen, inputs, low, high);
    trivialMove := IsTrivial(levels, last, c, grandparentLimit);
  }

  method IsTrivial(levels: Levels, last: nat, c: Pick, grandparentLimit: nat) returns (trivial: bool)
    requires last < |levels| && c.inputs != []
    ensures EmptyLowOnlyLast(Children(c)) ==> (trivial <==> MovesAsIs(levels, last, c, grandparentLimit))
    ensures trivial ==>
              && |c.inputs| == 1 && c.overlaps == []
              && (c.bottommost ==> c.inputs[0].ranges == [] && NumTombstones(c.inputs[0].entries) == 0)
  {
    var dropsNothing := !c.bottommost || (NumTombstones(c.inputs[0].entries) == 0 && c.inputs[0].ranges == []);
    var hullLow, hullHigh := EffectiveHull(Children(c));
    var grandparents :=
      if c.outputLevel + 1 <= last then Overlapping(levels[c.outputLevel + 1], hullLow, hullHigh) else [];
    trivial := |c.inputs| == 1 && c.overlaps == [] && dropsNothing && TotalBytes(grandparents) < grandparentLimit;
  }

  /** By age where files may overlap, by the sweep elsewhere. */
  method ChooseInputs(levels: Levels, mayOverlap: bool, chosen: nat, pointer: Key, budget: nat)
    returns (inputs: seq<File>, low: Key, high: Key)
    requires ValidLevels(levels) && chosen + 1 < |levels| && levels[chosen] != []
    requires if chosen == 0 || mayOverlap then Seedable(levels[chosen])
             else NoEmptyLow(levels[chosen]) && NoEmptyLow(levels[chosen + 1])
    ensures inputs != [] && TakenFrom(inputs, levels[chosen]) && MeetsBelow(levels[chosen + 1], inputs, low, high)
    ensures chosen == 0 ==> MayStayBehind(levels[0], inputs)
    ensures if chosen == 0 || mayOverlap then ByAge(inputs, levels[chosen], budget)
            else Swept(inputs, levels[chosen], levels[chosen + 1], pointer, budget)
    ensures budget == 0 || TotalBytes(inputs) <= budget || |inputs| == 1
  {
    var files := levels[chosen];
    assert ValidLevel(chosen, files);
    if chosen == 0 || mayOverlap {
      inputs, low, high := OverlappingInputs(files, budget);
      InsideHull(inputs);
    } else {
      var seed := SeedAfterPointer(files, pointer);
      inputs, low, high := ExpandedInputs(files, levels[chosen + 1], seed, budget);
      assert Swept(inputs, files, levels[chosen + 1], pointer, budget);
    }
  }

  /** One file and what its effective span meets below: the step `compact_level` repeats. */
  method PickOneFile(levels: Levels, last: nat, level: nat, file: File) returns (c: Pick)
    requires ValidLevels(levels) && level < last < |levels| && file in levels[level]
    requires level == 0 ==> forall g :: g in levels[0] ==> file.number <= g.number
    ensures SoundSpan(levels, c) && c.level == level && c.inputs == [file] && Complete(levels, last, c)
    ensures WithinDepth(levels, last) && EmptyLowOnlyLast(Children(c)) ==> ValidPick(levels, c)
  {
    assert ValidLevel(level, levels[level]);
    SingleTaken(levels[level], file);
    forall f, g | f in [file] && g in levels[level] && g !in [file]
      ensures level == 0 ==> g.number > f.number
    {
      if g.number == file.number { DistinctMembers(levels[level], g, file); }
    }
    c := CompletePick(levels, last, level, [file], EffectiveSmallest(file), EffectiveLargest(file));
  }

  predicate OldestAlone(inputs: seq<File>, files: seq<File>) {
    |inputs| == 1 && inputs[0] in files && forall g :: g in files ==> inputs[0].number <= g.number
  }

  /** The level-0 escape: the lowest-numbered file, when any file there must leave its tier. */
  method PickEscape(levels: Levels, last: nat, mustLeave: set<nat>) returns (picked: Option<Pick>)
    requires ValidLevels(levels) && last < |levels|
    ensures picked.Some? ==> SoundSpan(levels, picked.value) && picked.value.level == 0
    ensures picked.Some? ==> Complete(levels, last, picked.value) && OldestAlone(picked.value.inputs, levels[0])
    ensures picked.Some? && WithinDepth(levels, last) && EmptyLowOnlyLast(Children(picked.value)) ==>
              ValidPick(levels, picked.value)
    ensures picked.Some? <==> last >= 1 && exists f :: f in levels[0] && f.number in mustLeave
  {
    if last < 1 || levels[0] == [] {
      return None;
    }
    var leaving := false;
    for i := 0 to |levels[0]|
      invariant leaving <==> exists j :: 0 <= j < i && levels[0][j].number in mustLeave
    {
      if levels[0][i].number in mustLeave { leaving := true; }
    }
    if !leaving {
      return None;
    }
    var seed := OldestFile(levels[0]);
    var around := Overlapping(levels[0], EffectiveSmallest(seed), EffectiveLargest(seed));
    OverlappingMembers(levels[0], EffectiveSmallest(seed), EffectiveLargest(seed));
    for i := 0 to |around| {
      assert around[i] in around;
      if around[i].number < seed.number {
        return None;
      }
    }
    var c := PickOneFile(levels, last, 0, seed);
    return Some(c);
  }
}

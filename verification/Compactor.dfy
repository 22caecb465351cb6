module Compactor {
  /**
   The background tasks as they run: each picks from the current version, writes what it writes, and
   applies one edit.

   Every method ends in a `Task` on the levels it started from, so what `Tasks` and `Recovery` prove of
   tasks holds of each of them. A whole pass over a level is any number of tasks, one after another.
   */

  import opened Keys
  import opened Records
  import opened Version
  import opened Compaction
  import opened Installation
  import opened Picker
  import opened Tasks

  // ---------- write times ----------

  /** `min_write_time_ms` as it folds: zero stands for "none yet", and is forgotten by the next file. */
  function OldestFold(files: seq<File>): nat {
    if files == [] then 0
    else
      var so := OldestFold(files[..|files| - 1]);
      var time := files[|files| - 1].minTime;
      if so == 0 || time < so then time else so
  }

  method OldestWrite(files: seq<File>) returns (oldest: nat)
    ensures oldest == OldestFold(files)
  {
    oldest := 0;
    for i := 0 to |files|
      invariant oldest == OldestFold(files[..i])
    {
      assert files[..i + 1][..i] == files[..i];
      if oldest == 0 || files[i].minTime < oldest { oldest := files[i].minTime; }
    }
    assert files[..|files|] == files;
  }

  predicate NoZeroTime(files: seq<File>) {
    forall i :: 0 <= i < |files| ==> files[i].minTime != 0
  }

  predicate Oldest(files: seq<File>, time: nat) {
    (exists i :: 0 <= i < |files| && files[i].minTime == time)
    && forall i :: 0 <= i < |files| ==> time <= files[i].minTime
  }

  lemma {:induction false} OldestFoldIs(files: seq<File>)
    requires files != []
    ensures exists i :: 0 <= i < |files| && files[i].minTime == OldestFold(files)
    ensures OldestFold(files) == 0 <==> files[|files| - 1].minTime == 0
    ensures NoZeroTime(files) ==> Oldest(files, OldestFold(files))
  {
    var init, last := files[..|files| - 1], files[|files| - 1];
    if init != [] {
      OldestFoldIs(init);
      var i :| 0 <= i < |init| && init[i].minTime == OldestFold(init);
      assert files[i].minTime == OldestFold(init);
    }
  }

  /** It is the oldest write time exactly when no write time is zero, or the last one is. */
  lemma OldestExactly(files: seq<File>)
    requires files != []
    ensures Oldest(files, OldestFold(files)) <==> NoZeroTime(files) || files[|files| - 1].minTime == 0
  {
    OldestFoldIs(files);
  }

  method NewestWrite(files: seq<File>) returns (newest: nat)
    ensures if files == [] then newest == 0 else exists f :: f in files && f.maxTime == newest
    ensures forall f :: f in files ==> f.maxTime <= newest
  {
    newest := 0;
    for i := 0 to |files|
      invariant i == 0 ==> newest == 0
      invariant i > 0 ==> exists j :: 0 <= j < i && files[j].maxTime == newest
      invariant forall j :: 0 <= j < i ==> files[j].maxTime <= newest
    {
      if files[i].maxTime > newest { newest := files[i].maxTime; }
    }
  }

  // ---------- emptying a level ----------

  lemma {:induction false} RejectLength(files: seq<File>, numbers: set<nat>)
    ensures |Reject(files, numbers)| + |Select(files, numbers)| == |files|
  {
    if files != [] {
      RejectLength(files[1..], numbers);
    }
  }

  lemma RejectShrinks(files: seq<File>, inputs: seq<File>)
    requires inputs != [] && TakenFrom(inputs, files)
    ensures |Reject(files, Numbers(inputs))| < |files|
  {
    RejectLength(files, Numbers(inputs));
  }

  lemma {:induction false} InsertMembers(f: File, files: seq<File>)
    ensures forall g :: g in InsertByKey(f, files) <==> g == f || g in files
  {
    if files != [] {
      InsertMembers(f, files[1..]);
      assert forall g :: g in files <==> g == files[0] || g in files[1..];
    }
  }

  lemma {:induction false} InstallMembers(added: seq<File>, files: seq<File>)
    ensures forall g :: g in Install(added, files) <==> g in added || g in files
  {
    if added != [] {
      InstallMembers(added[1..], files);
      InsertMembers(added[0], Install(added[1..], files));
      assert forall g :: g in added <==> g == added[0] || g in added[1..];
    }
  }

  function AfterPass(level: nat, files: seq<File>): seq<File>
    requires files != []
  {
    if level == 0 then files[..|files| - 1] else files[1..]
  }

  /** What is left of a pass after `i` files of it. */
  function ToCome(level: nat, pass: seq<File>, i: nat): seq<File>
    requires i <= |pass|
  {
    if level == 0 then pass[..|pass| - i] else pass[i..]
  }

  lemma OneFewerToCome(level: nat, pass: seq<File>, i: nat)
    requires i < |pass|
    ensures ToCome(level, pass, i) != [] && AfterPass(level, ToCome(level, pass, i)) == ToCome(level, pass, i + 1)
    ensures var files := ToCome(level, pass, i);
            files[if level == 0 then |files| - 1 else 0] == if level == 0 then pass[|pass| - 1 - i] else pass[i]
  {
  }

  /** The pass takes the oldest file of level 0, and the first file of any other level. */
  lemma NextOfPass(level: nat, files: seq<File>)
    requires ValidLevel(level, files) && files != []
    ensures level == 0 ==> forall g :: g in files ==> files[|files| - 1].number <= g.number
    ensures Reject(files, {files[if level == 0 then |files| - 1 else 0].number}) == AfterPass(level, files)
  {
    RejectOne(files, |files| - 1);
    RejectOne(files, 0);
  }

  // ---------- letting deletions go ----------

  lemma RewrittenHoldsNone(files: seq<File>, f: File, p: Plan, outs: seq<File>, next: nat, stamp: Stamp)
    requires DistinctNumbers(files) && f in files && ValidPlan(p) && p.drop && Tiled(p, outs)
    requires Stamped(outs, next, stamp) && stamp == Stamp(stamp.store, f.minTime, f.maxTime, f.watermark)
    ensures var after := Install(outs, Reject(files, {f.number}));
            && (forall g :: g in files && g != f ==> g in after)
            && (forall g :: g in after ==> (g in files && g != f) || Succeeds(g, f, stamp.store))
  {
    InstallMembers(outs, Reject(files, {f.number}));
    SelectMembers(files, {f.number});
    forall g | g in outs
      ensures Succeeds(g, f, stamp.store)
    {
      DroppedOutputsHoldNone(p, outs, g);
    }
    forall g | g in files && g.number == f.number
      ensures g == f
    {
      DistinctMembers(files, g, f);
    }
  }

  /** One file written again without its deletions, for the place it has. */
  method RewriteFile(levels: Levels, level: nat, f: File, truncation: Key, next: nat, store: nat)
    returns (outs: seq<File>, ghost p: Plan)
    requires ValidLevels(levels) && Numbered(levels, next) && level < |levels| && f in levels[level]
    ensures ValidPlan(p) && p.children == [f] && p.drop && p.truncation == truncation
    ensures Rewrites(levels, Rewritten(levels, level, f, outs), next + |outs|, level, f, p, outs)
    ensures forall g :: g in levels[level] && g != f ==> g in Rewritten(levels, level, f, outs)[level]
    ensures forall g :: g in Rewritten(levels, level, f, outs)[level] ==>
              (g in levels[level] && g != f) || Succeeds(g, f, store)
  {
    assert ValidLevel(level, levels[level]);
    var stamp := Stamp(store, f.minTime, f.maxTime, f.watermark);
    outs, p := WriteOutputs([f], true, truncation, next, stamp);
    StampedIsFresh(levels, outs, next, stamp);
    RewrittenHoldsNone(levels[level], f, p, outs, next, stamp);
  }

  /** Partway through a pass over the last level: what is still to come is there, what has been is clean. */
  predicate Settling(files: seq<File>, pass: seq<File>, i: nat, settled: set<nat>, store: nat)
    requires i <= |pass|
  {
    && (forall j :: 0 <= j < |pass| && (i <= j || AtRest(pass[j], settled)) ==> pass[j] in files)
    && (forall f :: f in files ==> f in pass[i..] || (f in pass && AtRest(f, settled)) || IsRewritten(f, pass, store))
  }

  /** As it should be, with no point deletion to let go. */
  predicate AtRest(f: File, settled: set<nat>) {
    f.number in settled && NumTombstones(f.entries) == 0
  }

  predicate IsRewritten(g: File, pass: seq<File>, store: nat) {
    exists f :: f in pass && Succeeds(g, f, store)
  }

  /** The next file is clean already, or gives way to files that are. */
  lemma SettledOne(files: seq<File>, files': seq<File>, pass: seq<File>, i: nat, settled: set<nat>, store: nat)
    requires i < |pass| && Settling(files, pass, i, settled, store) && DistinctNumbers(pass)
    requires if AtRest(pass[i], settled) then files' == files
             else (forall g :: g in files && g != pass[i] ==> g in files')
                  && forall g :: g in files' ==> (g in files && g != pass[i]) || Succeeds(g, pass[i], store)
    ensures Settling(files', pass, i + 1, settled, store)
  {
    assert pass[i..] == [pass[i]] + pass[i + 1..];
    assert pass[i] in pass;
  }

  lemma AllSettled(files: seq<File>, pass: seq<File>, settled: set<nat>, store: nat)
    requires Settling(files, pass, |pass|, settled, store)
    ensures forall f :: f in files ==> NumTombstones(f.entries) == 0
    ensures forall f :: f in pass && AtRest(f, settled) ==> f in files
    ensures forall g :: g in files ==> (g in pass && AtRest(g, settled)) || IsRewritten(g, pass, store)
  {
  }

  // ---------- the tasks ----------

  /** The tasks keep out the one key the picker's bounds cannot represent. */
  lemma NoEmptyKeysKept(before: Levels, after: Levels, truncation: Key, next: nat, next': nat)
    requires ValidLevels(before) && NoEmptyKeys(before) && Rearranged(before, after, truncation, next, next')
    ensures NoEmptyKeys(after)
  {
    forall i, f | 0 <= i < |after| && f in after[i]
      ensures EffectiveSmallest(f) != EMPTY_KEY
    {
      assert ValidLevel(i, after[i]) && Holding(after, f) && Inherits(f, before);
      SmallestIsTouched(f);
      var g :| Holding(before, g) && Touches(g, EffectiveSmallest(f));
      var j :| 0 <= j < |before| && g in before[j];
      assert ValidLevel(j, before[j]) && NoEmptyLow(before[j]);
      TouchSpan(g, EffectiveSmallest(f));
    }
  }

  lemma BoundsKept(before: Levels, after: Levels, truncation: Key, next: nat, next': nat)
    requires Rearranged(before, after, truncation, next, next')
    ensures OrderedBounds(after)
  {
    forall f | Holding(after, f)
      ensures Inherits(f, before)
    {
    }
  }

  // ---------- files that are already dead ----------

  predicate StrictlyNewer(j: nat, c: File, i: nat, f: File) {
    j < i || (j == i && c.number > f.number)
  }

  /** The hull of `c`'s tombstones contains `f`'s data span: necessary for a cover, never sufficient. */
  predicate HullAdmits(c: File, f: File) {
    c.ranges != [] && SmallestRangeKey(c) <= SmallestKey(f) && LargestKey(f) < LargestRangeKey(c)
  }

  predicate Admitting(levels: Levels, i: nat, f: File, j: nat, t: nat) {
    j < |levels| && t < |levels[j]| && StrictlyNewer(j, levels[j][t], i, f) && HullAdmits(levels[j][t], f)
  }

  /** The first file, in the order of the walk, that the shortlist takes. */
  ghost predicate FirstAdmitting(levels: Levels, i: nat, f: File, j: nat, t: nat) {
    && Admitting(levels, i, f, j, t)
    && forall h: nat, s: nat :: h < j || (h == j && s < t) ==> !Admitting(levels, i, f, h, s)
  }

  /** The manifest's shortlist: the first newer file whose hull admits this one. */
  method FindCover(levels: Levels, i: nat, f: File) returns (cover: Option<(nat, nat)>)
    ensures cover.Some? ==> FirstAdmitting(levels, i, f, cover.value.0, cover.value.1)
    ensures cover.None? ==> forall j: nat, t: nat :: !Admitting(levels, i, f, j, t)
  {
    for j := 0 to |levels|
      invariant forall h: nat, s: nat :: h < j ==> !Admitting(levels, i, f, h, s)
    {
      for t := 0 to |levels[j]|
        invariant forall h: nat, s: nat :: h < j || (h == j && s < t) ==> !Admitting(levels, i, f, h, s)
      {
        if StrictlyNewer(j, levels[j][t], i, f) && HullAdmits(levels[j][t], f) {
          return Some((j, t));
        }
      }
    }
    return None;
  }

  predicate ContainsSpan(ranges: seq<Range>, f: File) {
    exists r :: r in ranges && r.lower <= SmallestKey(f) && LargestKey(f) < r.upper
  }

  /** What the tombstones themselves decide. One range always suffices: see `OneRangeCoversSpan`. */
  method RangesContain(ranges: seq<Range>, f: File) returns (contained: bool)
    ensures contained <==> ContainsSpan(ranges, f)
  {
    contained := false;
    for i := 0 to |ranges|
      invariant !contained
      invariant forall j :: 0 <= j < i ==> !(ranges[j].lower <= SmallestKey(f) && LargestKey(f) < ranges[j].upper)
    {
      if ranges[i].lower <= SmallestKey(f) && LargestKey(f) < ranges[i].upper {
        assert ranges[i] in ranges;
        return true;
      }
    }
  }

  /** The first newer file whose hull admits `f` has one tombstone that contains all of it. */
  ghost predicate FoundCovered(levels: Levels, i: nat, f: File) {
    && f.ranges == [] && f.entries != []
    && exists j: nat, t: nat :: FirstAdmitting(levels, i, f, j, t) && ContainsSpan(levels[j][t].ranges, f)
  }

  /** The shortlist turns away no file that covers: what a hull rejects, its tombstones cannot contain. */
  lemma CoverIsAdmitted(levels: Levels, i: nat, f: File, j: nat, t: nat)
    requires ValidLevels(levels) && j < |levels| && t < |levels[j]| && CoveredBy(levels, i, f, j, levels[j][t])
    ensures Admitting(levels, i, f, j, t)
  {
    var c := levels[j][t];
    assert ValidLevel(j, levels[j]) && c in levels[j];
    var r :| r in c.ranges && r.lower <= SmallestKey(f) && LargestKey(f) < r.upper;
    var m :| 0 <= m < |c.ranges| && c.ranges[m] == r;
    RangesAscend(c.ranges, 0, m);
    RangesAscend(c.ranges, m, |c.ranges| - 1);
  }

  lemma RangesAscend(rs: seq<Range>, m: nat, n: nat)
    requires Disjoint(rs) && m <= n < |rs|
    ensures rs[m].lower <= rs[n].lower && rs[m].upper <= rs[n].upper
  {
  }

  /** So a file that is covered, with no newer file to be taken for its cover instead, is found. */
  lemma CoveredIsFound(levels: Levels, i: nat, f: File, j: nat, t: nat)
    requires ValidLevels(levels) && j < |levels| && t < |levels[j]| && CoveredBy(levels, i, f, j, levels[j][t])
    requires forall h: nat, s: nat :: h < j || (h == j && s < t) ==> !Admitting(levels, i, f, h, s)
    ensures FoundCovered(levels, i, f)
  {
    CoverIsAdmitted(levels, i, f, j, t);
    assert FirstAdmitting(levels, i, f, j, t);
  }

  /** Whether the first newer file whose hull admits `f` covers it; a single tombstone is its own hull. */
  method IsCoveredWhole(levels: Levels, i: nat, f: File) returns (covered: bool)
    requires i < |levels| && f in levels[i]
    ensures covered <==> FoundCovered(levels, i, f)
    ensures covered ==> exists j: nat, c :: CoveredBy(levels, i, f, j, c)
  {
    if f.ranges != [] || f.entries == [] {
      return false;
    }
    var cover := FindCover(levels, i, f);
    if cover.None? {
      return false;
    }
    var (j, t) := cover.value;
    var c := levels[j][t];
    covered := true;
    if |c.ranges| == 1 {
      assert c.ranges[0] in c.ranges;
    } else {
      covered := RangesContain(c.ranges, f);
    }
    assert covered ==> CoveredBy(levels, i, f, j, c);
  }

  predicate WhollyTruncated(f: File, truncation: Key) {
    EffectiveLargest(f) < truncation
  }

  /** Nothing it holds or deletes reaches the truncation point; a tombstone that ends there does not count. */
  lemma TruncatedExactly(f: File, truncation: Key)
    requires ValidFile(f)
    ensures WhollyTruncated(f, truncation) <==>
              && (forall e :: e in f.entries ==> e.key < truncation)
              && (forall r :: r in f.ranges ==> r.upper < truncation)
  {
    assert f.entries != [] ==> f.entries[|f.entries| - 1] in f.entries;
    assert f.ranges != [] ==> f.ranges[|f.ranges| - 1] in f.ranges;
  }

  ghost predicate MayGo(levels: Levels, truncation: Key, number: nat) {
    exists i: nat, f :: i < |levels| && f in levels[i] && f.number == number
      && (WhollyTruncated(f, truncation) || exists j: nat, c :: CoveredBy(levels, i, f, j, c))
  }

  ghost predicate IsDead(levels: Levels, truncation: Key, i: nat, f: File) {
    WhollyTruncated(f, truncation) || FoundCovered(levels, i, f)
  }

  ghost predicate DeadNumber(levels: Levels, truncation: Key, n: nat) {
    exists i: nat, f :: i < |levels| && f in levels[i] && f.number == n && IsDead(levels, truncation, i, f)
  }

  /** Every file below the truncation point, every file a newer tombstone is found to cover, and no other. */
  method DeadFiles(levels: Levels, truncation: Key) returns (dead: set<nat>)
    ensures forall n :: n in dead ==> DeadNumber(levels, truncation, n)
    ensures forall i, f :: 0 <= i < |levels| && f in levels[i] && IsDead(levels, truncation, i, f) ==> f.number in dead
    ensures forall n :: n in dead ==> MayGo(levels, truncation, n)
  {
    dead := {};
    for i := 0 to |levels|
      invariant forall n :: n in dead ==> MayGo(levels, truncation, n) && DeadNumber(levels, truncation, n)
      invariant forall h, f :: 0 <= h < i && f in levels[h] && IsDead(levels, truncation, h, f) ==> f.number in dead
    {
      for t := 0 to |levels[i]|
        invariant forall n :: n in dead ==> MayGo(levels, truncation, n) && DeadNumber(levels, truncation, n)
        invariant forall h, f :: 0 <= h < i && f in levels[h] && IsDead(levels, truncation, h, f) ==> f.number in dead
        invariant forall s :: 0 <= s < t && IsDead(levels, truncation, i, levels[i][s]) ==> levels[i][s].number in dead
      {
        var f := levels[i][t];
        assert f in levels[i];
        var covered := IsCoveredWhole(levels, i, f);
        if EffectiveLargest(f) < truncation || covered {
          assert IsDead(levels, truncation, i, f) && DeadNumber(levels, truncation, f.number);
          assert MayGo(levels, truncation, f.number);
          dead := dead + {f.number};
        }
      }
    }
  }

  lemma {:induction false} NothingDead(files: seq<File>)
    ensures Reject(files, {}) == files
  {
    if files != [] {
      NothingDead(files[1..]);
    }
  }

  lemma DeadIsReclaimable(levels: Levels, truncation: Key, next: nat, dead: set<nat>)
    requires Numbered(levels, next) && forall n :: n in dead ==> MayGo(levels, truncation, n)
    ensures ReadyToReclaim(levels, truncation, dead)
  {
    forall n | n in dead
      ensures exists f :: Holding(levels, f) && f.number == n
    {
      assert MayGo(levels, truncation, n);
    }
    forall i, f | 0 <= i < |levels| && f in levels[i] && f.number in dead
      ensures WhollyTruncated(f, truncation) || exists j: nat, c :: CoveredBy(levels, i, f, j, c)
    {
      assert MayGo(levels, truncation, f.number);
      var h: nat, g :| h < |levels| && g in levels[h] && g.number == f.number
        && (WhollyTruncated(g, truncation) || exists j: nat, c :: CoveredBy(levels, h, g, j, c));
      assert Holding(levels, f) && Holding(levels, g);
    }
  }

  /** What a file written from `children` says of itself: the oldest and newest of their writes, and their bounds. */
  predicate Carries(o: File, children: seq<File>, store: nat)
    requires children != []
  {
    && o.store == store && o.watermark == MergedBounds(children) && o.minTime == OldestFold(children)
    && (NoZeroTime(children) ==> Oldest(children, o.minTime))
    && (exists i :: 0 <= i < |children| && children[i].maxTime == o.maxTime)
    && forall i :: 0 <= i < |children| ==> children[i].maxTime <= o.maxTime
  }

  predicate AllCarry(outs: seq<File>, children: seq<File>, store: nat)
    requires children != []
  {
    forall o :: o in outs ==> Carries(o, children, store)
  }

  /** What running a pick comes to: the one file re-pointed, or outputs that carry what their inputs did. */
  ghost predicate Ran(levels: Levels, levels': Levels, c: Pick, trivialMove: bool, store: nat) {
    && c.level < c.outputLevel < |levels| && Children(c) != []
    && if trivialMove then levels' == Applied(levels, c, c.inputs)
       else exists outs :: levels' == Applied(levels, c, outs) && AllCarry(outs, Children(c), store)
  }

  /** Nothing outside the pick's two levels changes, and whatever is new in them is an output. */
  lemma RanChanges(levels: Levels, levels': Levels, c: Pick, trivialMove: bool, store: nat)
    requires Ran(levels, levels', c, trivialMove, store)
    ensures levels'[c.level] == Reject(levels[c.level], Numbers(c.inputs))
    ensures forall i :: 0 <= i < |levels| && i != c.level && i != c.outputLevel ==> levels'[i] == levels[i]
    ensures forall g :: g in levels'[c.outputLevel] && g !in levels[c.outputLevel] ==>
              if trivialMove then g in c.inputs else Carries(g, Children(c), store)
  {
    var outs := c.inputs;
    if !trivialMove {
      outs :| levels' == Applied(levels, c, outs) && AllCarry(outs, Children(c), store);
    }
    InstallMembers(outs, Reject(levels[c.outputLevel], Numbers(c.overlaps)));
    SelectMembers(levels[c.outputLevel], Numbers(c.overlaps));
  }

  /** Whatever is new has been written to this store. */
  ghost predicate OnlyOn(before: Levels, after: Levels, store: nat) {
    forall f :: Holding(after, f) ==> Holding(before, f) || f.store == store
  }

  lemma OnlyOnTwice(a: Levels, b: Levels, c: Levels, store: nat)
    requires OnlyOn(a, b, store) && OnlyOn(b, c, store)
    ensures OnlyOn(a, c, store)
  {
  }

  lemma RanOnto(levels: Levels, levels': Levels, c: Pick, store: nat)
    requires Ran(levels, levels', c, false, store)
    ensures OnlyOn(levels, levels', store)
  {
    RanChanges(levels, levels', c, false, store);
    SelectMembers(levels[c.level], Numbers(c.inputs));
    forall f | Holding(levels', f)
      ensures Holding(levels, f) || f.store == store
    {
      var i :| 0 <= i < |levels'| && f in levels'[i];
      if f in levels[i] {
        assert Holding(levels, f);
      }
    }
  }

  /** The outputs of a compaction: the merge of its inputs under the metadata they share. */
  method WriteMerged(levels: Levels, c: Pick, truncation: Key, next: nat, store: nat)
    returns (outs: seq<File>, ghost p: Plan, ghost stamp: Stamp)
    requires ValidLevels(levels) && ValidPick(levels, c)
    ensures ValidPlan(p) && p.children == Children(c) && p.drop == c.bottommost && p.truncation == truncation
    ensures Tiled(p, outs) && Stamped(outs, next, stamp) && stamp.watermark == MergedBounds(Children(c))
    ensures Children(c) != [] && AllCarry(outs, Children(c), store)
  {
    PickedFiles(levels, c);
    var children := Children(c);
    var bounds := MergeWatermarks(children);
    var oldest := OldestWrite(children);
    var newest := NewestWrite(children);
    var shared := Stamp(store, oldest, newest, bounds);
    outs, p := WriteOutputs(children, c.bottommost, truncation, next, shared);
    stamp := shared;
    OldestExactly(children);
  }

  // ---------- the engine ----------

  /** What the picker relies on: nothing deeper than the configured levels, and no span from the empty key. */
  predicate Pickable(levels: Levels, last: nat) {
    WithinDepth(levels, last) && NoEmptyKeys(levels)
  }

  lemma PickableKept(before: Levels, after: Levels, truncation: Key, next: nat, next': nat, last: nat)
    requires ValidLevels(before) && Pickable(before, last) && Rearranged(before, after, truncation, next, next')
    requires forall i :: last < i < |before| && before[i] == [] ==> after[i] == []
    ensures Pickable(after, last)
  {
    NoEmptyKeysKept(before, after, truncation, next, next');
  }

  /** The pick met below exactly what it had to, and let deletions go exactly when it might. */
  ghost predicate Picked(levels: Levels, last: nat, c: Pick) {
    c.outputLevel < |levels| && last < |levels| && c.inputs != [] && Complete(levels, last, c)
  }

  /** The pick of the chosen level: within the budget, by age or by the sweep, moved as it is exactly when it may be. */
  ghost predicate Chose(levels: Levels, last: nat, mayOverlap: bool, chosen: nat, pointer: Key, budget: nat,
                        grandparentLimit: nat, ran: (Pick, bool))
  {
    var (c, trivialMove) := ran;
    && Picked(levels, last, c) && c.level == chosen && chosen + 1 < |levels| && levels[chosen] != []
    && WithinBudget(c, budget)
    && (trivialMove <==> MovesAsIs(levels, last, c, grandparentLimit))
    && if chosen == 0 || mayOverlap then ByAge(c.inputs, levels[chosen], budget)
       else Swept(c.inputs, levels[chosen], levels[chosen + 1], pointer, budget)
  }

  lemma PickIsValid(levels: Levels, last: nat, c: Pick)
    requires Pickable(levels, last) && SoundSpan(levels, c)
    ensures EmptyLowOnlyLast(Children(c))
  {
    assert NoEmptyLow(levels[c.level]) && NoEmptyLow(levels[c.outputLevel]);
    HullIsRight(levels, c);
  }

  /** Dropping what may go is a task, and leaves exactly the rest. */
  lemma DroppingIsATask(levels: Levels, truncation: Key, next: nat, dead: set<nat>, last: nat)
    requires Numbered(levels, next) && forall n :: n in dead ==> MayGo(levels, truncation, n)
    ensures Task(levels, RejectAll(levels, dead), truncation, next, next, last)
    ensures forall i, f :: 0 <= i < |levels| ==>
              (f in RejectAll(levels, dead)[i] <==> f in levels[i] && f.number !in dead)
    ensures dead == {} ==> RejectAll(levels, dead) == levels
  {
    DeadIsReclaimable(levels, truncation, next, dead);
    assert Installs(levels, RejectAll(levels, dead), next, next, Reclaiming(dead))
           && JobWithin(Reclaiming(dead), last);
    forall i | 0 <= i < |levels|
      ensures forall f :: f in RejectAll(levels, dead)[i] <==> f in levels[i] && f.number !in dead
      ensures dead == {} ==> RejectAll(levels, dead)[i] == levels[i]
    {
      SelectMembers(levels[i], dead);
      if dead == {} { NothingDead(levels[i]); }
    }
  }

  /** Exactly the live files are left, each where it was. */
  ghost predicate OnlyLive(before: Levels, after: Levels, truncation: Key) {
    && |after| == |before|
    && forall i: nat, f :: i < |before| ==> (f in after[i] <==> f in before[i] && !IsDead(before, truncation, i, f))
  }

  /** Numbers are unique, so a file whose number is a dead file's is that file. */
  lemma DeadByNumber(levels: Levels, truncation: Key, next: nat, i: nat, f: File)
    requires Numbered(levels, next) && i < |levels| && f in levels[i] && DeadNumber(levels, truncation, f.number)
    ensures IsDead(levels, truncation, i, f)
  {
    var h: nat, g :| h < |levels| && g in levels[h] && g.number == f.number && IsDead(levels, truncation, h, g);
    assert Holding(levels, f) && Holding(levels, g);
    assert h == i;
  }

  method DropDead(levels: Levels, truncation: Key, ghost next: nat, ghost last: nat)
    returns (levels': Levels, worked: bool)
    requires Numbered(levels, next)
    ensures Task(levels, levels', truncation, next, next, last) && OnlyLive(levels, levels', truncation)
    ensures worked <==> SomeDead(levels, truncation)
    ensures !worked ==> levels' == levels
  {
    var dead := DeadFiles(levels, truncation);
    worked := dead != {};
    levels' := RejectAll(levels, dead);
    DroppingIsATask(levels, truncation, next, dead, last);
    DeadAreDropped(levels, truncation, next, dead);
  }

  ghost predicate SomeDead(levels: Levels, truncation: Key) {
    exists i: nat, f :: i < |levels| && f in levels[i] && IsDead(levels, truncation, i, f)
  }

  lemma DeadAreDropped(levels: Levels, truncation: Key, next: nat, dead: set<nat>)
    requires Numbered(levels, next) && forall n :: n in dead ==> DeadNumber(levels, truncation, n)
    requires forall i, f :: 0 <= i < |levels| && f in levels[i] && IsDead(levels, truncation, i, f) ==> f.number in dead
    ensures OnlyLive(levels, RejectAll(levels, dead), truncation) && (dead != {} <==> SomeDead(levels, truncation))
  {
    forall i: nat, f | i < |levels|
      ensures f in RejectAll(levels, dead)[i] <==> f in levels[i] && !IsDead(levels, truncation, i, f)
    {
      SelectMembers(levels[i], dead);
      if f in levels[i] && f.number in dead {
        DeadByNumber(levels, truncation, next, i, f);
      }
    }
    if dead != {} {
      var n :| n in dead;
      assert DeadNumber(levels, truncation, n);
    }
  }

  class Engine {
    const last: nat
    var levels: Levels
    var next: nat
    var truncation: Key

    ghost predicate Valid()
      reads this
    {
      ValidLevels(levels) && Numbered(levels, next) && OrderedBounds(levels) && last < |levels|
    }

    ghost function At(): Point
      reads this
    {
      Point(levels, next)
    }

    constructor (last: nat)
      ensures Valid() && Pickable(levels, last) && this.last == last && next == 0 && truncation == EMPTY_KEY
      ensures |levels| == last + 1 && forall i :: 0 <= i < |levels| ==> levels[i] == []
    {
      this.last := last;
      levels := seq(last + 1, i => []);
      next := 0;
      truncation := EMPTY_KEY;
    }

    /** What every task leaves behind is again a valid engine. */
    lemma TaskKeepsValid(levels': Levels, next': nat)
      requires Valid() && Task(levels, levels', truncation, next, next', last)
      ensures Rearranged(levels, levels', truncation, next, next') && OrderedBounds(levels')
      ensures Pickable(levels, last) ==> Pickable(levels', last)
    {
      TaskRearranges(levels, levels', truncation, next, next', last);
      BoundsKept(levels, levels', truncation, next, next');
      if Pickable(levels, last) {
        PickableKept(levels, levels', truncation, next, next', last);
      }
    }

    /** One edit: what the job came to replaces what was there. */
    method Apply(ghost job: Job, levels': Levels, next': nat)
      requires Valid() && JobWithin(job, last)
      requires Ready(levels, truncation, job) && Installs(levels, levels', next, next', job)
      modifies this`levels, this`next
      ensures Valid() && levels == levels' && next == next'
      ensures Task(old(levels), levels, truncation, old(next), next, last)
      ensures Rearranged(old(levels), levels, truncation, old(next), next)
      ensures Pickable(old(levels), last) ==> Pickable(levels, last)
    {
      TaskKeepsValid(levels', next');
      levels, next := levels', next';
    }

    /** A trivial move: the file is re-pointed, nothing is read or written. */
    method MoveDown(c: Pick)
      requires Valid() && ValidPick(levels, c) && c.outputLevel <= last && |c.inputs| == 1 && c.overlaps == []
      modifies this`levels, this`next
      ensures Valid() && Task(old(levels), levels, truncation, old(next), next, last)
      ensures Rearranged(old(levels), levels, truncation, old(next), next)
      ensures Pickable(old(levels), last) ==> Pickable(levels, last)
      ensures Ran(old(levels), levels, c, true, 0) && next == old(next)
    {
      Apply(Moving(c), Applied(levels, c, c.inputs), next);
    }

    /** Merges the inputs with their overlaps and puts the outputs in their place. */
    method MergeDown(c: Pick, store: nat)
      requires Valid() && ValidPick(levels, c) && c.outputLevel <= last
      modifies this`levels, this`next
      ensures Valid() && Task(old(levels), levels, truncation, old(next), next, last)
      ensures Rearranged(old(levels), levels, truncation, old(next), next)
      ensures Pickable(old(levels), last) ==> Pickable(levels, last)
      ensures Ran(old(levels), levels, c, false, store)
    {
      var outs, p, stamp := WriteMerged(levels, c, truncation, next, store);
      StampedIsFresh(levels, outs, next, stamp);
      assert Merges(levels, Applied(levels, c, outs), next + |outs|, c, p, outs);
      Apply(Merging(c, p), Applied(levels, c, outs), next + |outs|);
    }

    /** Runs a pick: the inputs leave their level, and only the two levels of the pick change. */
    method RunCompaction(c: Pick, trivialMove: bool, store: nat)
      requires Valid() && ValidPick(levels, c) && c.outputLevel <= last
      requires trivialMove ==> |c.inputs| == 1 && c.overlaps == []
      modifies this`levels, this`next
      ensures Valid() && Task(old(levels), levels, truncation, old(next), next, last)
      ensures Rearranged(old(levels), levels, truncation, old(next), next)
      ensures Pickable(old(levels), last) ==> Pickable(levels, last)
      ensures Ran(old(levels), levels, c, trivialMove, store) && (trivialMove ==> next == old(next))
      ensures levels[c.level] == Reject(old(levels)[c.level], Numbers(c.inputs))
      ensures forall i :: 0 <= i < |levels| && i != c.level && i != c.outputLevel ==> levels[i] == old(levels)[i]
      ensures forall g :: g in levels[c.outputLevel] && g !in old(levels)[c.outputLevel] ==>
                if trivialMove then g in c.inputs else Carries(g, Children(c), store)
    {
      if trivialMove {
        MoveDown(c);
      } else {
        MergeDown(c, store);
      }
      RanChanges(old(levels), levels, c, trivialMove, store);
    }

    /** One automatic compaction out of the chosen level, if it holds anything. */
    method RunOneCompaction(mayOverlap: seq<bool>, chosen: nat, pointer: Key, budget: nat, grandparentLimit: nat,
                            store: nat)
      returns (worked: bool, ghost ran: Option<(Pick, bool)>)
      requires Valid() && Pickable(levels, last) && chosen < last < |mayOverlap|
      modifies this`levels, this`next
      ensures Valid() && Pickable(levels, last) && worked == (old(levels)[chosen] != []) && worked == ran.Some?
      ensures worked ==> Task(old(levels), levels, truncation, old(next), next, last)
      ensures worked ==> |levels[chosen]| < |old(levels)[chosen]|
      ensures worked ==> Ran(old(levels), levels, ran.value.0, ran.value.1, store)
      ensures worked ==>
                Chose(old(levels), last, mayOverlap[chosen], chosen, pointer, budget, grandparentLimit, ran.value)
      ensures !worked ==> levels == old(levels) && next == old(next)
    {
      worked, ran := levels[chosen] != [], None;
      if worked {
        assert NoEmptyLow(levels[chosen]) && NoEmptyLow(levels[chosen + 1]);
        var c, trivialMove := PickCompaction(levels, last, mayOverlap, chosen, pointer, budget, grandparentLimit);
        ran := Some((c, trivialMove));
        PickIsValid(levels, last, c);
        RejectShrinks(levels[chosen], c.inputs);
        RunCompaction(c, trivialMove, store);
      }
    }

    /** The level-0 escape: rewrites the oldest file down when any must leave its tier. */
    method CompactOffTier(mustLeave: set<nat>, store: nat) returns (worked: bool, ghost ran: Option<Pick>)
      requires Valid() && Pickable(levels, last)
      modifies this`levels, this`next
      ensures Valid() && Pickable(levels, last) && worked == ran.Some?
      ensures worked ==> Ran(old(levels), levels, ran.value, false, store) && Picked(old(levels), last, ran.value)
      ensures worked ==> ran.value.level == 0 && OldestAlone(ran.value.inputs, old(levels)[0])
      ensures worked <==> last >= 1 && exists f :: f in old(levels)[0] && f.number in mustLeave
      ensures worked ==> Task(old(levels), levels, truncation, old(next), next, last)
      ensures worked ==> |levels[0]| < |old(levels)[0]|
      ensures !worked ==> levels == old(levels) && next == old(next)
    {
      var picked := PickEscape(levels, last, mustLeave);
      worked, ran := picked.Some?, picked;
      if worked {
        PickIsValid(levels, last, picked.value);
        RejectShrinks(levels[0], picked.value.inputs);
        RunCompaction(picked.value, false, store);
      }
    }

    /** Rewrites one file of the last level where it is, letting its deletions go. */
    method RewriteInPlace(f: File, store: nat)
      requires Valid() && WithinDepth(levels, last) && last >= 1 && f in levels[last]
      modifies this`levels, this`next
      ensures Valid() && Task(old(levels), levels, truncation, old(next), next, last)
      ensures Rearranged(old(levels), levels, truncation, old(next), next)
      ensures WithinDepth(levels, last) && (Pickable(old(levels), last) ==> Pickable(levels, last))
      ensures forall g :: g in old(levels)[last] && g != f ==> g in levels[last]
      ensures forall g :: g in levels[last] ==> (g in old(levels)[last] && g != f) || Succeeds(g, f, store)
      ensures forall i :: 0 <= i < |levels| && i != last ==> levels[i] == old(levels)[i]
    {
      var outs, p := RewriteFile(levels, last, f, truncation, next, store);
      var levels' := Rewritten(levels, last, f, outs);
      assert Rewrites(levels, levels', next + |outs|, last, f, p, outs);
      Apply(Rewriting(last, f, p), levels', next + |outs|);
    }

    /** One step of the pass: the file leaves its level, merged into what its span meets below. */
    method CompactOneFile(level: nat, file: File, store: nat, ghost first: Levels, ghost path: seq<Point>)
      returns (ghost longer: seq<Point>)
      requires OnlyOn(first, levels, store)
      requires Valid() && Pickable(levels, last) && level < last && levels[level] != []
      requires file == levels[level][if level == 0 then |levels[0]| - 1 else 0]
      requires Passed(path, truncation, last) && path[|path| - 1] == At()
      modifies this`levels, this`next
      ensures Valid() && Pickable(levels, last) && levels[level] == AfterPass(level, old(levels)[level])
      ensures Passed(longer, truncation, last) && longer == path + [At()]
      ensures OnlyOn(first, levels, store)
    {
      assert ValidLevel(level, levels[level]);
      NextOfPass(level, levels[level]);
      var c := PickOneFile(levels, last, level, file);
      PickIsValid(levels, last, c);
      assert Numbers([file]) == {file.number};
      RunCompaction(c, false, store);
      RanOnto(old(levels), levels, c, store);
      OnlyOnTwice(first, old(levels), levels, store);
      longer := path + [At()];
      OneMoreTask(path, At(), truncation, last);
    }

    /**
     `compact_level` above the last level: one file per compaction, oldest first at level 0, each
     rewritten into the level below before the next is considered. The level ends empty.
     */
    method CompactLevel(level: nat, store: nat) returns (ghost path: seq<Point>)
      requires Valid() && Pickable(levels, last) && level < last
      modifies this`levels, this`next
      ensures Valid() && Pickable(levels, last) && levels[level] == []
      ensures Passed(path, truncation, last) && path[0] == old(At()) && path[|path| - 1] == At()
      ensures OnlyOn(old(levels), levels, store)
    {
      var pass := levels[level];
      NoTaskYet(At(), truncation, last);
      path := [At()];
      for i := 0 to |pass|
        invariant Valid() && Pickable(levels, last)
        invariant Passed(path, truncation, last) && path[0] == old(At()) && path[|path| - 1] == At()
        invariant levels[level] == ToCome(level, pass, i)
        invariant OnlyOn(old(levels), levels, store)
      {
        var file := if level == 0 then pass[|pass| - 1 - i] else pass[i];
        OneFewerToCome(level, pass, i);
        path := CompactOneFile(level, file, store, old(levels), path);
      }
    }

    /**
     `compact_level` at the last level: files already as they should be and holding no deletion are
     left alone, and afterwards no file there holds one, so a second pass finds nothing to do.
     */
    method CompactLastLevel(settled: set<nat>, store: nat) returns (ghost path: seq<Point>)
      requires Valid() && WithinDepth(levels, last) && last >= 1
      modifies this`levels, this`next
      ensures Valid() && WithinDepth(levels, last) && (Pickable(old(levels), last) ==> Pickable(levels, last))
      ensures forall f :: f in levels[last] ==> NumTombstones(f.entries) == 0
      ensures forall f :: f in old(levels)[last] && AtRest(f, settled) ==> f in levels[last]
      ensures forall g :: g in levels[last] ==>
                (g in old(levels)[last] && AtRest(g, settled)) || IsRewritten(g, old(levels)[last], store)
      ensures |levels| == |old(levels)| && forall j :: 0 <= j < |levels| && j != last ==> levels[j] == old(levels)[j]
      ensures (forall f :: f in old(levels)[last] ==> AtRest(f, settled)) ==>
                levels == old(levels) && next == old(next)
      ensures Passed(path, truncation, last) && path[0] == old(At()) && path[|path| - 1] == At()
    {
      var pass := levels[last];
      assert ValidLevel(last, pass);
      NoTaskYet(At(), truncation, last);
      ghost var quiet := forall f :: f in pass ==> AtRest(f, settled);
      path := [At()];
      for i := 0 to |pass|
        invariant Valid() && |levels| == |old(levels)|
        invariant WithinDepth(levels, last) && (Pickable(old(levels), last) ==> Pickable(levels, last))
        invariant Passed(path, truncation, last) && path[0] == old(At()) && path[|path| - 1] == At()
        invariant Settling(levels[last], pass, i, settled, store)
        invariant forall j :: 0 <= j < |levels| && j != last ==> levels[j] == old(levels)[j]
        invariant quiet ==> levels == old(levels) && next == old(next)
      {
        path := SettleOne(pass, i, settled, store, path);
      }
      AllSettled(levels[last], pass, settled, store);
    }

    /** One turn of the pass: the next file is rewritten unless it is as it should be. */
    method SettleOne(pass: seq<File>, i: nat, settled: set<nat>, store: nat, ghost path: seq<Point>)
      returns (ghost longer: seq<Point>)
      requires Valid() && WithinDepth(levels, last) && last >= 1
      requires i < |pass| && DistinctNumbers(pass) && Settling(levels[last], pass, i, settled, store)
      requires Passed(path, truncation, last) && path[|path| - 1] == At()
      modifies this`levels, this`next
      ensures Valid() && WithinDepth(levels, last) && (Pickable(old(levels), last) ==> Pickable(levels, last))
      ensures |levels| == |old(levels)| && Settling(levels[last], pass, i + 1, settled, store)
      ensures Passed(longer, truncation, last) && longer[0] == path[0] && longer[|longer| - 1] == At()
      ensures AtRest(pass[i], settled) ==> levels == old(levels) && next == old(next)
      ensures forall j :: 0 <= j < |levels| && j != last ==> levels[j] == old(levels)[j]
    {
      longer := path;
      ghost var before := levels[last];
      if pass[i].number !in settled || NumTombstones(pass[i].entries) != 0 {
        RewriteInPlace(pass[i], store);
        longer := path + [At()];
        OneMoreTask(path, At(), truncation, last);
      }
      SettledOne(before, levels[last], pass, i, settled, store);
    }

    /** Migration: the same bytes on another store under a fresh number, at the level it was. */
    method RunMigration(level: nat, f: File, target: nat)
      requires Valid() && 0 < level < |levels| && f in levels[level]
      modifies this`levels, this`next
      ensures Valid() && (Pickable(old(levels), last) ==> Pickable(levels, last))
      ensures target == f.store ==> levels == old(levels) && next == old(next)
      ensures target != f.store ==> Task(old(levels), levels, truncation, old(next), next, last)
      ensures target != f.store ==> next == old(next) + 1
      ensures target != f.store ==>
                levels == Rewritten(old(levels), level, f, [f.(number := old(next), store := target)])
    {
      if target != f.store {
        Reissue(level, f, target);
      }
    }

    method Reissue(level: nat, f: File, target: nat)
      requires Valid() && 0 < level < |levels| && f in levels[level]
      modifies this`levels, this`next
      ensures Valid() && Task(old(levels), levels, truncation, old(next), next, last)
      ensures Pickable(old(levels), last) ==> Pickable(levels, last)
      ensures next == old(next) + 1
      ensures levels == Rewritten(old(levels), level, f, [f.(number := old(next), store := target)])
    {
      var f' := f.(number := next, store := target);
      StampedIsFresh(levels, [f'], next, Stamp(target, f.minTime, f.maxTime, f.watermark));
      assert Reissues(levels, Rewritten(levels, level, f, [f']), next + 1, level, f, target, next);
      Apply(Reissuing(level, f, target), Rewritten(levels, level, f, [f']), next + 1);
    }

    /** Re-encryption: the first stale file below level 0 is resealed where it is. */
    method RunReencryption(stale: set<nat>) returns (worked: bool)
      requires Valid()
      modifies this`levels, this`next
      ensures Valid() && (Pickable(old(levels), last) ==> Pickable(levels, last))
      ensures worked <==> exists i, f :: 0 < i < |old(levels)| && f in old(levels)[i] && f.number in stale
      ensures worked ==> Task(old(levels), levels, truncation, old(next), next, last)
      ensures worked ==> exists i, f :: 0 < i < |old(levels)| && f in old(levels)[i] && f.number in stale
                                        && levels == Rewritten(old(levels), i, f, [f.(number := old(next))])
      ensures !worked ==> levels == old(levels) && next == old(next)
    {
      worked := false;
      for i := 1 to |levels|
        invariant levels == old(levels) && next == old(next)
        invariant forall j, f :: 0 < j < i && f in levels[j] ==> f.number !in stale
      {
        for t := 0 to |levels[i]|
          invariant levels == old(levels) && next == old(next)
          invariant forall s :: 0 <= s < t ==> levels[i][s].number !in stale
        {
          if levels[i][t].number in stale {
            assert levels[i][t] in levels[i];
            Reissue(i, levels[i][t], levels[i][t].store);
            return true;
          }
        }
      }
    }

    /** Drops, by one edit and no rewrite, every file nobody can read any more. */
    method ReclaimDeadFiles() returns (worked: bool)
      requires Valid()
      modifies this`levels
      ensures Valid() && Task(old(levels), levels, truncation, next, next, last)
      ensures Pickable(old(levels), last) ==> Pickable(levels, last)
      ensures OnlyLive(old(levels), levels, truncation)
      ensures worked <==> SomeDead(old(levels), truncation)
      ensures !worked ==> levels == old(levels)
    {
      var levels';
      levels', worked := DropDead(levels, truncation, next, last);
      TaskKeepsValid(levels', next);
      levels := levels';
    }
  }
}

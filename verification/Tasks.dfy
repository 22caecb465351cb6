module Tasks {
  /**
   Background tasks as steps on the levels, and the one thing every one of them keeps.

   Compaction, trivial moves, rewrites in place, migration between tiers, re-encryption and the
   reclaiming of dead files all take a version to the next one. `Rearranged` is what a reader and a
   recovery may rely on across any of them.
   */

  import opened Keys
  import opened Records
  import opened Version
  import opened Compaction
  import opened Installation

  predicate Holding(levels: Levels, f: File) {
    exists i :: 0 <= i < |levels| && f in levels[i]
  }

  /** A position every write in the file lies strictly above; nothing is claimed when it is absent. */
  function LowBound(w: Watermark): nat {
    if w.low.Some? then w.low.value else 0
  }

  /** Numbers are handed out once: unique across levels and below the counter. */
  ghost predicate Numbered(levels: Levels, next: nat) {
    && (forall f :: Holding(levels, f) ==> f.number < next)
    && (forall f, g :: Holding(levels, f) && Holding(levels, g) && f.number == g.number ==> f == g)
    && (forall i, j, f :: 0 <= i < j < |levels| && f in levels[i] ==> f !in levels[j])
  }

  /** `f` says nothing that an older file bounded at least as tightly did not say. */
  ghost predicate Inherits(f: File, before: Levels) {
    && (forall k: Key :: Touches(f, k) ==>
          exists g :: Holding(before, g) && Touches(g, k) && LowBound(f.watermark) <= LowBound(g.watermark))
    && (f.watermark.high.Some? ==>
          exists g :: Holding(before, g) && g.watermark.high.Some? && f.watermark.high.value <= g.watermark.high.value)
    && (f.watermark.low.Some? ==> f.watermark.high.Some? && f.watermark.low.value <= f.watermark.high.value)
  }

  /**
   The levels may change in any way that keeps every read at or above the truncation point, keeps the
   structure, and lets no file claim a tighter or a later position than its lineage supports.
   */
  ghost predicate Rearranged(before: Levels, after: Levels, truncation: Key, next: nat, next': nat) {
    && |after| == |before| && next <= next'
    && ValidLevels(after) && Numbered(after, next')
    && (forall k: Key :: k >= truncation ==> Resolve(WalkLevels(after, k)) == Resolve(WalkLevels(before, k)))
    && (forall f :: Holding(after, f) ==> Inherits(f, before))
  }

  /** Every file's bounds are ordered: an established low is an earlier established high. */
  ghost predicate OrderedBounds(levels: Levels) {
    forall f :: Holding(levels, f) && f.watermark.low.Some? ==>
      f.watermark.high.Some? && f.watermark.low.value <= f.watermark.high.value
  }

  lemma InheritsItself(levels: Levels, f: File)
    requires Holding(levels, f) && OrderedBounds(levels)
    ensures Inherits(f, levels)
  {
  }

  // ---------- watermark of a compaction output ----------

  /** `min` of the lows with absent lowest, `max` of the highs with absent ignored. */
  function MergeBounds(a: Watermark, b: Watermark): Watermark {
    Watermark(
      if a.low.None? || b.low.None? then None else Some(Min(a.low.value, b.low.value)),
      if b.high.None? then a.high else if a.high.None? then b.high else Some(Max(a.high.value, b.high.value)))
  }

  function MergedBounds(files: seq<File>): Watermark
    requires files != []
  {
    if |files| == 1 then files[0].watermark
    else MergeBounds(MergedBounds(files[..|files| - 1]), files[|files| - 1].watermark)
  }

  method MergeWatermarks(files: seq<File>) returns (merged: Watermark)
    requires files != []
    ensures merged == MergedBounds(files)
  {
    merged := Watermark(None, None);
    var first := true;
    for i := 0 to |files|
      invariant first <==> i == 0
      invariant i > 0 ==> merged == MergedBounds(files[..i])
    {
      assert i > 0 ==> files[..i + 1][..i] == files[..i];
      if first {
        merged := files[i].watermark;
        first := false;
      } else {
        merged := MergeBounds(merged, files[i].watermark);
      }
    }
    assert files[..|files|] == files;
  }

  lemma {:induction false} MergedLow(files: seq<File>)
    requires files != []
    ensures forall f :: f in files ==> LowBound(MergedBounds(files)) <= LowBound(f.watermark)
    ensures MergedBounds(files).low.Some? <==> forall f :: f in files ==> f.watermark.low.Some?
    ensures MergedBounds(files).low.Some? ==> exists f :: f in files && f.watermark.low == MergedBounds(files).low
  {
    if |files| == 1 {
      assert files == [files[0]] && files[0] in files;
    } else {
      var init, last := files[..|files| - 1], files[|files| - 1];
      MergedLow(init);
      assert files == init + [last] && last in files;
      assert forall f :: f in files <==> f in init || f == last;
    }
  }

  lemma {:induction false} MergedHigh(files: seq<File>)
    requires files != []
    ensures MergedBounds(files).high.Some? ==> exists f :: f in files && f.watermark.high == MergedBounds(files).high
    ensures forall f :: f in files && f.watermark.high.Some? ==>
              MergedBounds(files).high.Some? && f.watermark.high.value <= MergedBounds(files).high.value
  {
    if |files| == 1 {
      assert files == [files[0]] && files[0] in files;
    } else {
      var init, last := files[..|files| - 1], files[|files| - 1];
      MergedHigh(init);
      assert files == init + [last] && last in files;
      assert forall f :: f in files <==> f in init || f == last;
    }
  }

  /**
   The output inherits the weakest lower bound and the strongest upper one, and the two halves may come
   from different inputs.
   */
  lemma MergedBoundsAre(files: seq<File>)
    requires files != []
    ensures forall f :: f in files ==> LowBound(MergedBounds(files)) <= LowBound(f.watermark)
    ensures MergedBounds(files).low.Some? <==> forall f :: f in files ==> f.watermark.low.Some?
    ensures MergedBounds(files).low.Some? ==> exists f :: f in files && f.watermark.low == MergedBounds(files).low
    ensures MergedBounds(files).high.Some? ==> exists f :: f in files && f.watermark.high == MergedBounds(files).high
    ensures forall f :: f in files && f.watermark.high.Some? ==>
              MergedBounds(files).high.Some? && f.watermark.high.value <= MergedBounds(files).high.value
  {
    MergedLow(files);
    MergedHigh(files);
  }

  lemma OutputsInherit(children: seq<File>, before: Levels, o: File)
    requires children != [] && OrderedBounds(before)
    requires forall f :: f in children ==> Holding(before, f)
    requires o.watermark == MergedBounds(children)
    requires forall k: Key :: Touches(o, k) ==> Walk(children, k).Some?
    ensures Inherits(o, before)
  {
    MergedBoundsAre(children);
    forall k: Key | Touches(o, k)
      ensures exists g :: Holding(before, g) && Touches(g, k) && LowBound(o.watermark) <= LowBound(g.watermark)
    {
      var g := WalkWitness(children, k);
    }
  }

  // ---------- the tasks ----------

  /** What a task has decided on, from the version it looked at, before it changes anything. */
  datatype Job =
    | Merging(pick: Pick, plan: Plan)
    | Moving(pick: Pick)
    | Rewriting(level: nat, file: File, plan: Plan)
    | Reissuing(level: nat, file: File, store: nat)
    | Reclaiming(dead: set<nat>)

  /** A compaction that rewrites its inputs; the truncation point it filters by may have moved on since. */
  ghost predicate ReadyToMerge(levels: Levels, truncation: Key, c: Pick, p: Plan) {
    && ValidPick(levels, c) && ValidPlan(p)
    && p.children == Children(c) && p.drop == c.bottommost && p.truncation <= truncation
  }

  /** A trivial move: the file keeps its number and its bytes and changes level. */
  predicate ReadyToMove(levels: Levels, c: Pick) {
    ValidPick(levels, c) && |c.inputs| == 1 && c.overlaps == []
  }

  /** A rewrite that lands back in the bottommost level, letting deletions go. */
  ghost predicate ReadyToRewrite(levels: Levels, truncation: Key, level: nat, f: File, p: Plan) {
    && 0 < level < |levels| && f in levels[level] && NothingBelow(levels, level, [f])
    && ValidPlan(p) && p.children == [f] && p.drop && p.truncation <= truncation
  }

  /** Migration and re-encryption: the same contents under a fresh number, never at level 0. */
  predicate ReadyToReissue(levels: Levels, level: nat, f: File) {
    0 < level < |levels| && f in levels[level]
  }

  /** `c` is strictly newer than `f` and one of its tombstones contains the whole of `f`'s data span. */
  predicate CoveredBy(levels: Levels, i: nat, f: File, j: nat, c: File) {
    && i < |levels| && j < |levels| && f in levels[i] && c in levels[j]
    && f.ranges == [] && f.entries != []
    && (j < i || (j == i && c.number > f.number))
    && exists r :: r in c.ranges && r.lower <= SmallestKey(f) && LargestKey(f) < r.upper
  }

  /** Every file dropped is wholly below the truncation point, or wholly under a newer tombstone. */
  ghost predicate ReclaimableFiles(levels: Levels, truncation: Key, dead: set<nat>) {
    forall i, f :: 0 <= i < |levels| && f in levels[i] && f.number in dead ==>
      || EffectiveLargest(f) < truncation
      || exists j: nat, c :: CoveredBy(levels, i, f, j, c)
  }

  /** The files to drop are files there are. */
  ghost predicate ReadyToReclaim(levels: Levels, truncation: Key, dead: set<nat>) {
    ReclaimableFiles(levels, truncation, dead)
    && forall n :: n in dead ==> exists f :: Holding(levels, f) && f.number == n
  }

  ghost predicate Ready(levels: Levels, truncation: Key, job: Job) {
    match job
    case Merging(c, p) => ReadyToMerge(levels, truncation, c, p)
    case Moving(c) => ReadyToMove(levels, c)
    case Rewriting(level, f, p) => ReadyToRewrite(levels, truncation, level, f, p)
    case Reissuing(level, f, _) => ReadyToReissue(levels, level, f)
    case Reclaiming(dead) => ReadyToReclaim(levels, truncation, dead)
  }

  /** No task adds a file deeper than `last`. */
  predicate JobWithin(job: Job, last: nat) {
    match job
    case Merging(c, _) => c.outputLevel <= last
    case Moving(c) => c.outputLevel <= last
    case Rewriting(level, _, _) => level <= last
    case Reissuing(_, _, _) => true
    case Reclaiming(_) => true
  }

  /** Numbers are taken one at a time while flushes take theirs, so they are fresh and nothing more. */
  ghost predicate Fresh(levels: Levels, outs: seq<File>, next: nat) {
    && DistinctNumbers(outs)
    && forall o :: o in outs ==> o.number < next && forall g :: Holding(levels, g) ==> g.number != o.number
  }

  ghost predicate Merges(levels: Levels, levels': Levels, next: nat, c: Pick, p: Plan, outs: seq<File>) {
    && c.level < c.outputLevel < |levels| && Children(c) != []
    && Tiled(p, outs) && Fresh(levels, outs, next)
    && (forall o :: o in outs ==> o.watermark == MergedBounds(Children(c)))
    && levels' == Applied(levels, c, outs)
  }

  ghost predicate Rewrites(levels: Levels, levels': Levels, next: nat, level: nat, f: File, p: Plan, outs: seq<File>) {
    && level < |levels|
    && Tiled(p, outs) && Fresh(levels, outs, next)
    && (forall o :: o in outs ==> o.watermark == f.watermark)
    && levels' == Rewritten(levels, level, f, outs)
  }

  ghost predicate Reissues(levels: Levels, levels': Levels, next: nat, level: nat, f: File, store: nat, number: nat) {
    && level < |levels|
    && Fresh(levels, [f.(number := number, store := store)], next)
    && levels' == Rewritten(levels, level, f, [f.(number := number, store := store)])
  }

  /** The one edit a job ends in; `next'` is the counter by then. */
  ghost predicate Installs(levels: Levels, levels': Levels, next: nat, next': nat, job: Job) {
    && next <= next'
    && match job
       case Merging(c, p) => exists outs :: Merges(levels, levels', next', c, p, outs)
       case Moving(c) => c.level < c.outputLevel < |levels| && levels' == Applied(levels, c, c.inputs)
       case Rewriting(level, f, p) => exists outs :: Rewrites(levels, levels', next', level, f, p, outs)
       case Reissuing(level, f, store) => exists number :: Reissues(levels, levels', next', level, f, store, number)
       case Reclaiming(dead) => levels' == RejectAll(levels, dead)
  }

  function RejectAll(levels: Levels, dead: set<nat>): Levels {
    seq(|levels|, i requires 0 <= i < |levels| => Reject(levels[i], dead))
  }

  // ---------- each task rearranges ----------

  /** Outputs numbered one after the other from the counter are fresh. */
  lemma StampedIsFresh(levels: Levels, outs: seq<File>, next: nat, stamp: Stamp)
    requires Numbered(levels, next) && Stamped(outs, next, stamp)
    ensures Fresh(levels, outs, next + |outs|)
    ensures forall o :: o in outs ==> o.watermark == stamp.watermark
  {
    forall o | o in outs
      ensures next <= o.number < next + |outs| && o.watermark == stamp.watermark
    {
      var i :| 0 <= i < |outs| && outs[i] == o;
    }
  }

  lemma FreshBeside(levels: Levels, outs: seq<File>, next: nat, kept: seq<File>)
    requires Fresh(levels, outs, next) && DistinctNumbers(kept)
    requires forall f :: f in kept ==> Holding(levels, f)
    ensures DistinctNumbers(outs + kept)
  {
    var all := outs + kept;
    forall i, j | 0 <= i < j < |all|
      ensures all[i].number != all[j].number
    {
      if j < |outs| {
      } else if i >= |outs| {
        assert all[i] == kept[i - |outs|] && all[j] == kept[j - |outs|];
      } else {
        assert all[j] in kept && all[i] in outs;
      }
    }
  }

  lemma OutputsTouch(p: Plan, outs: seq<File>, o: File)
    requires ValidPlan(p) && Tiled(p, outs) && o in outs
    ensures forall k: Key :: Touches(o, k) ==> Walk(p.children, k).Some?
  {
    forall k: Key | Touches(o, k)
      ensures Walk(p.children, k).Some?
    {
      WalkSilent(outs, k);
      WantIsWalk(p, k);
    }
  }

  /** After the edit, each file is a new output at level `o` or was already at its level. */
  predicate NewOnlyAt(levels: Levels, levels': Levels, o: nat, outs: seq<File>) {
    |levels'| == |levels|
    && forall i, f :: 0 <= i < |levels'| && f in levels'[i] ==> f in levels[i] || (i == o && f in outs)
  }

  lemma FreshOutputsNumbered(levels: Levels, levels': Levels, o: nat, outs: seq<File>, next: nat, next': nat)
    requires Numbered(levels, next) && next <= next' && Fresh(levels, outs, next')
             && NewOnlyAt(levels, levels', o, outs)
    ensures Numbered(levels', next')
  {
    forall f, g | f in outs && g in outs && f.number == g.number
      ensures f == g
    {
      DistinctMembers(outs, f, g);
    }
    forall f | Holding(levels', f)
      ensures f in outs || Holding(levels, f)
    {
    }
    forall i, j, f | 0 <= i < j < |levels'| && f in levels'[i]
      ensures f !in levels'[j]
    {
      assert f in levels[i] || f in outs;
      assert f in outs ==> !Holding(levels, f);
    }
  }

  /** Outputs inherit from what they were made of; everything else inherits from itself. */
  lemma AllInherit(levels: Levels, levels': Levels, o: nat, p: Plan, outs: seq<File>)
    requires OrderedBounds(levels) && NewOnlyAt(levels, levels', o, outs)
    requires ValidPlan(p) && Tiled(p, outs) && p.children != []
    requires forall f :: f in p.children ==> Holding(levels, f)
    requires forall f :: f in outs ==> f.watermark == MergedBounds(p.children)
    ensures forall f :: Holding(levels', f) ==> Inherits(f, levels)
  {
    forall f | Holding(levels', f)
      ensures Inherits(f, levels)
    {
      if f in outs {
        OutputsTouch(p, outs, f);
        OutputsInherit(p.children, levels, f);
      } else {
        InheritsItself(levels, f);
      }
    }
  }

  lemma CompactionRearranges(levels: Levels, levels': Levels, truncation: Key, next: nat, next': nat,
                             c: Pick, p: Plan, outs: seq<File>)
    requires ValidLevels(levels) && Numbered(levels, next) && OrderedBounds(levels) && next <= next'
    requires ReadyToMerge(levels, truncation, c, p) && Merges(levels, levels', next', c, p, outs)
    ensures Rearranged(levels, levels', truncation, next, next')
  {
    var o := c.outputLevel;
    SelectMembers(levels[o], Numbers(c.overlaps));
    assert ValidLevel(o, levels[o]);
    ValidLevelReject(o, levels[o], Numbers(c.overlaps));
    FreshBeside(levels, outs, next', Reject(levels[o], Numbers(c.overlaps)));
    TiledIsFaithful(p, outs);
    CompactionKeepsLevels(levels, c, outs, p.drop, p.truncation);
    forall k: Key | k >= truncation
      ensures Resolve(WalkLevels(levels', k)) == Resolve(WalkLevels(levels, k))
    {
      CompactionPreservesReads(levels, c, outs, p.drop, p.truncation, k);
    }
    AppliedMembers(levels, c, outs);
    FreshOutputsNumbered(levels, levels', o, outs, next, next');
    AllInherit(levels, levels', o, p, outs);
  }

  /** After an edit each file is an output at the output level, or was already where it is. */
  lemma AppliedMembers(levels: Levels, c: Pick, outs: seq<File>)
    requires ValidLevels(levels) && ValidPick(levels, c)
    requires forall g :: g in Applied(levels, c, outs)[c.outputLevel]
                    <==> g in outs || g in Reject(levels[c.outputLevel], Numbers(c.overlaps))
    ensures NewOnlyAt(levels, Applied(levels, c, outs), c.outputLevel, outs)
    ensures forall f :: f in Children(c) ==> Holding(levels, f)
  {
    SelectMembers(levels[c.level], Numbers(c.inputs));
    SelectMembers(levels[c.outputLevel], Numbers(c.overlaps));
    OverlappingMembers(levels[c.outputLevel], c.low, c.high);
  }

  lemma MovedBeside(levels: Levels, next: nat, c: Pick, f: File)
    requires ValidLevels(levels) && Numbered(levels, next) && ReadyToMove(levels, c) && c.inputs == [f]
    ensures f in levels[c.level] && ValidFile(f)
    ensures DistinctNumbers(c.inputs + Reject(levels[c.outputLevel], Numbers(c.overlaps)))
  {
    var n, o := c.level, c.outputLevel;
    SelectMembers(levels[n], Numbers(c.inputs));
    assert f in c.inputs && f in levels[n] && f !in levels[o];
    assert ValidLevel(n, levels[n]) && ValidLevel(o, levels[o]);
    var kept := Reject(levels[o], Numbers(c.overlaps));
    SelectMembers(levels[o], Numbers(c.overlaps));
    ValidLevelReject(o, levels[o], Numbers(c.overlaps));
    forall g | g in kept
      ensures g.number != f.number
    {
      assert Holding(levels, g) && Holding(levels, f);
    }
    BesideDistinct(f, kept);
  }

  lemma MoveRearranges(levels: Levels, levels': Levels, truncation: Key, next: nat, next': nat, c: Pick)
    requires ValidLevels(levels) && Numbered(levels, next) && OrderedBounds(levels) && next <= next'
    requires ReadyToMove(levels, c) && levels' == Applied(levels, c, c.inputs)
    ensures Rearranged(levels, levels', truncation, next, next')
  {
    var f := c.inputs[0];
    assert c.inputs == [f] && Children(c) == [f] + [];
    MovedBeside(levels, next, c, f);
    MoveIsFaithful(f, truncation);
    CompactionKeepsLevels(levels, c, c.inputs, false, truncation);
    forall k: Key | k >= truncation
      ensures Resolve(WalkLevels(levels', k)) == Resolve(WalkLevels(levels, k))
    {
      CompactionPreservesReads(levels, c, c.inputs, false, truncation, k);
    }
    AppliedMembers(levels, c, c.inputs);
    SameFilesInherit(levels, levels');
    MovedNumbered(levels, levels', c, f, next);
  }

  lemma BesideDistinct(f: File, kept: seq<File>)
    requires DistinctNumbers(kept) && forall g :: g in kept ==> g.number != f.number
    ensures DistinctNumbers([f] + kept)
  {
    var all := [f] + kept;
    forall i, j | 0 <= i < j < |all|
      ensures all[i].number != all[j].number
    {
      assert all[j] == kept[j - 1] && all[j] in kept;
      assert i > 0 ==> all[i] == kept[i - 1];
    }
  }

  lemma SameFilesInherit(levels: Levels, levels': Levels)
    requires OrderedBounds(levels) && forall f :: Holding(levels', f) ==> Holding(levels, f)
    ensures forall f :: Holding(levels', f) ==> Inherits(f, levels)
  {
    forall f | Holding(levels', f)
      ensures Inherits(f, levels)
    {
      InheritsItself(levels, f);
    }
  }

  lemma MovedNumbered(levels: Levels, levels': Levels, c: Pick, f: File, next: nat)
    requires Numbered(levels, next) && ValidPick(levels, c) && c.inputs == [f]
    requires levels' == Applied(levels, c, c.inputs)
    requires NewOnlyAt(levels, levels', c.outputLevel, [f]) && f in levels[c.level]
    ensures Numbered(levels', next)
  {
    SelectMembers(levels[c.level], Numbers(c.inputs));
    assert f.number in Numbers(c.inputs) by { assert f in c.inputs; }
    assert f !in levels'[c.level];
    forall g | Holding(levels', g)
      ensures Holding(levels, g)
    {
    }
    forall i, j, g | 0 <= i < j < |levels'| && g in levels'[i]
      ensures g !in levels'[j]
    {
      assert g in levels[i] || g == f;
      assert g == f ==> i != c.level;
    }
  }

  lemma RewriteRearranges(levels: Levels, levels': Levels, truncation: Key, next: nat, next': nat,
                          level: nat, f: File, p: Plan, outs: seq<File>)
    requires ValidLevels(levels) && Numbered(levels, next) && OrderedBounds(levels) && next <= next'
    requires ReadyToRewrite(levels, truncation, level, f, p) && Rewrites(levels, levels', next', level, f, p, outs)
    ensures Rearranged(levels, levels', truncation, next, next')
  {
    SelectMembers(levels[level], {f.number});
    assert ValidLevel(level, levels[level]);
    ValidLevelReject(level, levels[level], {f.number});
    FreshBeside(levels, outs, next', Reject(levels[level], {f.number}));
    TiledIsFaithful(p, outs);
    RewriteKeepsLevels(levels, level, f, outs, true, p.truncation);
    forall k: Key | k >= truncation
      ensures Resolve(WalkLevels(levels', k)) == Resolve(WalkLevels(levels, k))
    {
      RewritePreservesReads(levels, level, f, outs, true, p.truncation, k);
    }
    assert NewOnlyAt(levels, levels', level, outs);
    FreshOutputsNumbered(levels, levels', level, outs, next, next');
    assert f in p.children;
    AllInherit(levels, levels', level, p, outs);
  }

  /** A copy under another number and on another store says the same about every key. */
  lemma CopyIsFaithful(f: File, g: File, truncation: Key)
    requires ValidFile(f) && g == f.(number := g.number, store := g.store)
    ensures Faithful([f], [g], false, truncation)
  {
    forall k: Key
      ensures Walk([g], k) == Walk([f], k)
    {
      assert View(g, k) == View(f, k);
      assert [f][1..] == [] && [g][1..] == [];
    }
  }

  lemma RenumberRearranges(levels: Levels, levels': Levels, truncation: Key, next: nat, next': nat,
                           level: nat, f: File, store: nat, number: nat)
    requires ValidLevels(levels) && Numbered(levels, next) && OrderedBounds(levels) && next <= next'
    requires ReadyToReissue(levels, level, f) && Reissues(levels, levels', next', level, f, store, number)
    ensures Rearranged(levels, levels', truncation, next, next')
  {
    var f' := f.(number := number, store := store);
    assert ValidLevel(level, levels[level]);
    assert Holding(levels, f);
    SelectMembers(levels[level], {f.number});
    ValidLevelReject(level, levels[level], {f.number});
    FreshBeside(levels, [f'], next', Reject(levels[level], {f.number}));
    CopyIsFaithful(f, f', truncation);
    RewriteKeepsLevels(levels, level, f, [f'], false, truncation);
    forall k: Key | k >= truncation
      ensures Resolve(WalkLevels(levels', k)) == Resolve(WalkLevels(levels, k))
    {
      RewritePreservesReads(levels, level, f, [f'], false, truncation, k);
    }
    assert NewOnlyAt(levels, levels', level, [f']);
    FreshOutputsNumbered(levels, levels', level, [f'], next, next');
    forall g | Holding(levels', g)
      ensures Inherits(g, levels)
    {
      if Holding(levels, g) {
        InheritsItself(levels, g);
      } else {
        assert g == f';
        InheritsItself(levels, f);
      }
    }
  }

  // ---------- reclaiming ----------

  function Flat(levels: Levels): seq<File> {
    if levels == [] then [] else levels[0] + Flat(levels[1..])
  }

  lemma {:induction false} WalkFlat(levels: Levels, k: Key)
    ensures Walk(Flat(levels), k) == WalkLevels(levels, k)
  {
    if levels != [] {
      WalkFlat(levels[1..], k);
      WalkConcat(levels[0], Flat(levels[1..]), k);
    }
  }

  lemma {:induction false} RejectFlat(levels: Levels, dead: set<nat>)
    ensures Flat(RejectAll(levels, dead)) == Reject(Flat(levels), dead)
  {
    if levels != [] {
      RejectFlat(levels[1..], dead);
      assert RejectAll(levels, dead)[1..] == RejectAll(levels[1..], dead);
      RejectConcat(levels[0], Flat(levels[1..]), dead);
    }
  }

  lemma {:induction false} RejectConcat(a: seq<File>, b: seq<File>, dead: set<nat>)
    ensures Reject(a + b, dead) == Reject(a, dead) + Reject(b, dead)
  {
    if a == [] {
      assert a + b == b;
    } else {
      assert (a + b)[1..] == a[1..] + b;
      RejectConcat(a[1..], b, dead);
    }
  }

  /** Where in the walk file `files[t]` of level `i` stands. */
  function Offset(levels: Levels, i: nat): nat
    requires i <= |levels|
  {
    if i == 0 then 0 else |levels[0]| + Offset(levels[1..], i - 1)
  }

  lemma {:induction false} FlatAt(levels: Levels, i: nat, t: nat)
    requires i < |levels| && t < |levels[i]|
    ensures Offset(levels, i) + t < |Flat(levels)| && Flat(levels)[Offset(levels, i) + t] == levels[i][t]
  {
    if i > 0 {
      FlatAt(levels[1..], i - 1, t);
    }
  }

  lemma {:induction false} OffsetGrows(levels: Levels, i: nat, j: nat)
    requires i < j <= |levels|
    ensures Offset(levels, i) + |levels[i]| <= Offset(levels, j)
  {
    if i == 0 {
      if j > 1 {
        assert Offset(levels[1..], j - 1) >= 0;
      }
    } else {
      OffsetGrows(levels[1..], i - 1, j - 1);
    }
  }

  lemma {:induction false} FlatPosition(levels: Levels, p: nat) returns (i: nat, t: nat)
    requires p < |Flat(levels)|
    ensures i < |levels| && t < |levels[i]| && p == Offset(levels, i) + t
  {
    if p < |levels[0]| {
      i, t := 0, p;
    } else {
      i, t := FlatPosition(levels[1..], p - |levels[0]|);
      i := i + 1;
    }
  }

  /** Dropping a file that a surviving earlier file answers for changes nothing. */
  lemma {:induction false} DropShadowed(files: seq<File>, dead: set<nat>, k: Key)
    requires forall i :: 0 <= i < |files| && files[i].number in dead && Touches(files[i], k) ==>
               exists j :: 0 <= j < i && files[j].number !in dead && Touches(files[j], k)
    ensures Walk(Reject(files, dead), k) == Walk(files, k)
  {
    if files != [] {
      var rest := files[1..];
      WalkConcat(if files[0].number in dead then [] else [files[0]], Reject(rest, dead), k);
      assert Walk([files[0]], k) == View(files[0], k);
      if !Touches(files[0], k) {
        forall i | 0 <= i < |rest| && rest[i].number in dead && Touches(rest[i], k)
          ensures exists j :: 0 <= j < i && rest[j].number !in dead && Touches(rest[j], k)
        {
          assert files[i + 1] == rest[i];
          var j :| 0 <= j < i + 1 && files[j].number !in dead && Touches(files[j], k);
          assert rest[j - 1] == files[j];
        }
        DropShadowed(rest, dead, k);
      }
    }
  }

  /** A cover speaks about every key of the file it covers, and stands before it in the walk. */
  lemma CoverTouches(levels: Levels, i: nat, f: File, j: nat, c: File, k: Key)
    requires ValidLevels(levels) && CoveredBy(levels, i, f, j, c) && Touches(f, k)
    ensures Touches(c, k) && c.ranges != []
    ensures j < i || (i == j == 0 && c.number > f.number)
  {
    assert ValidLevel(i, levels[i]) && ValidLevel(j, levels[j]);
    TouchSpan(f, k);
    var r :| r in c.ranges && r.lower <= SmallestKey(f) && LargestKey(f) < r.upper;
    var ri :| 0 <= ri < |c.ranges| && c.ranges[ri] == r;
    assert InRange(c.ranges[ri], k);
    if i == j && i > 0 {
      assert f != c && Separated(f, c);
      if Before(f, c) { BeforeOrders(f, c, k, k); } else { BeforeOrders(c, f, k, k); }
    }
  }

  /** A covered file's cover is not itself dropped while it still speaks about a readable key. */
  lemma LiveCover(levels: Levels, truncation: Key, dead: set<nat>, i: nat, t: nat, k: Key) returns (j: nat, s: nat)
    requires ValidLevels(levels) && ReclaimableFiles(levels, truncation, dead) && k >= truncation
    requires i < |levels| && t < |levels[i]| && levels[i][t].number in dead && Touches(levels[i][t], k)
    ensures j < |levels| && s < |levels[j]| && (j < i || (j == i && s < t))
    ensures levels[j][s].number !in dead && Touches(levels[j][s], k)
  {
    var f := levels[i][t];
    assert f in levels[i] && ValidLevel(i, levels[i]);
    TouchSpan(f, k);
    var h: nat, c :| CoveredBy(levels, i, f, h, c);
    CoverTouches(levels, i, f, h, c, k);
    assert ValidLevel(h, levels[h]);
    TouchSpan(c, k);
    assert c.number in dead ==> EffectiveLargest(c) < truncation;
    j := h;
    s :| 0 <= s < |levels[j]| && levels[j][s] == c;
  }

  /** The cover a dropped file relied on still stands, earlier in the walk. */
  lemma CoverStands(levels: Levels, truncation: Key, dead: set<nat>, i: nat, t: nat, k: Key) returns (p: nat)
    requires ValidLevels(levels) && ReclaimableFiles(levels, truncation, dead) && k >= truncation
    requires i < |levels| && t < |levels[i]| && levels[i][t].number in dead && Touches(levels[i][t], k)
    ensures p < Offset(levels, i) + t && p < |Flat(levels)|
    ensures Flat(levels)[p].number !in dead && Touches(Flat(levels)[p], k)
  {
    var j, s := LiveCover(levels, truncation, dead, i, t, k);
    FlatAt(levels, j, s);
    p := Offset(levels, j) + s;
    if j < i {
      OffsetGrows(levels, j, i);
    }
  }

  lemma ReclaimRearranges(levels: Levels, levels': Levels, truncation: Key, next: nat, next': nat, dead: set<nat>)
    requires ValidLevels(levels) && Numbered(levels, next) && OrderedBounds(levels) && next <= next'
    requires ReclaimableFiles(levels, truncation, dead) && levels' == RejectAll(levels, dead)
    ensures Rearranged(levels, levels', truncation, next, next')
  {
    forall i | 0 <= i < |levels|
      ensures ValidLevel(i, levels'[i])
      ensures forall f :: f in levels'[i] <==> f in levels[i] && f.number !in dead
    {
      assert ValidLevel(i, levels[i]);
      ValidLevelReject(i, levels[i], dead);
      SelectMembers(levels[i], dead);
    }
    forall k: Key | k >= truncation
      ensures Resolve(WalkLevels(levels', k)) == Resolve(WalkLevels(levels, k))
    {
      WalkFlat(levels, k);
      WalkFlat(levels', k);
      RejectFlat(levels, dead);
      var all := Flat(levels);
      forall p | 0 <= p < |all| && all[p].number in dead && Touches(all[p], k)
        ensures exists q :: 0 <= q < p && all[q].number !in dead && Touches(all[q], k)
      {
        var i, t := FlatPosition(levels, p);
        FlatAt(levels, i, t);
        var q := CoverStands(levels, truncation, dead, i, t, k);
      }
      DropShadowed(all, dead, k);
    }
    assert forall f :: Holding(levels', f) ==> Holding(levels, f);
    SameFilesInherit(levels, levels');
  }

  // ---------- any task, and any number of them ----------

  /** Whatever a job was, its edit changes no read, breaks no level and lets no file overstate its position. */
  lemma InstallRearranges(levels: Levels, levels': Levels, truncation: Key, next: nat, next': nat, job: Job)
    requires ValidLevels(levels) && Numbered(levels, next) && OrderedBounds(levels)
    requires Ready(levels, truncation, job) && Installs(levels, levels', next, next', job)
    ensures Rearranged(levels, levels', truncation, next, next')
  {
    match job
    case Merging(c, p) =>
      var outs :| Merges(levels, levels', next', c, p, outs);
      CompactionRearranges(levels, levels', truncation, next, next', c, p, outs);
    case Moving(c) =>
      MoveRearranges(levels, levels', truncation, next, next', c);
    case Rewriting(level, f, p) =>
      var outs :| Rewrites(levels, levels', next', level, f, p, outs);
      RewriteRearranges(levels, levels', truncation, next, next', level, f, p, outs);
    case Reissuing(level, f, store) =>
      var number :| Reissues(levels, levels', next', level, f, store, number);
      RenumberRearranges(levels, levels', truncation, next, next', level, f, store, number);
    case Reclaiming(dead) =>
      ReclaimRearranges(levels, levels', truncation, next, next', dead);
  }

  /** A level deeper than `last` that is empty stays empty. */
  lemma InstallWithin(levels: Levels, levels': Levels, truncation: Key, next: nat, next': nat, job: Job, last: nat,
      i: nat)
    requires Ready(levels, truncation, job) && Installs(levels, levels', next, next', job) && JobWithin(job, last)
    requires last < i < |levels| && |levels'| == |levels| && levels[i] == []
    ensures levels'[i] == []
  {
  }

  /** One background task that nothing came between: it decides and installs on the same version. */
  ghost predicate Task(levels: Levels, levels': Levels, truncation: Key, next: nat, next': nat, last: nat) {
    exists job :: JobWithin(job, last) && Ready(levels, truncation, job) && Installs(levels, levels', next, next', job)
  }

  lemma TaskRearranges(levels: Levels, levels': Levels, truncation: Key, next: nat, next': nat, last: nat)
    requires ValidLevels(levels) && Numbered(levels, next) && OrderedBounds(levels)
    requires Task(levels, levels', truncation, next, next', last)
    ensures Rearranged(levels, levels', truncation, next, next')
    ensures forall i :: last < i < |levels| && levels[i] == [] ==> levels'[i] == []
  {
    var job :| JobWithin(job, last) && Ready(levels, truncation, job) && Installs(levels, levels', next, next', job);
    InstallRearranges(levels, levels', truncation, next, next', job);
    forall i | last < i < |levels| && levels[i] == []
      ensures levels'[i] == []
    {
      InstallWithin(levels, levels', truncation, next, next', job, last, i);
    }
  }

  /** The levels and the counter between tasks. */
  datatype Point = Point(levels: Levels, next: nat)

  ghost predicate TaskAt(path: seq<Point>, i: nat, truncation: Key, last: nat) {
    0 < i < |path| && Task(path[i - 1].levels, path[i].levels, truncation, path[i - 1].next, path[i].next, last)
  }

  ghost predicate Path(path: seq<Point>, truncation: Key, last: nat) {
    path != [] && forall i: nat :: 0 < i < |path| ==> TaskAt(path, i, truncation, last)
  }

  /** Any number of tasks, one after another, and what they came to together. */
  ghost predicate Passed(path: seq<Point>, truncation: Key, last: nat) {
    && Path(path, truncation, last)
    && Rearranged(path[0].levels, path[|path| - 1].levels, truncation, path[0].next, path[|path| - 1].next)
  }

  lemma InheritsOnward(f: File, between: Levels, before: Levels)
    requires Inherits(f, between) && forall g :: Holding(between, g) ==> Inherits(g, before)
    ensures Inherits(f, before)
  {
    forall k: Key | Touches(f, k)
      ensures exists h :: Holding(before, h) && Touches(h, k) && LowBound(f.watermark) <= LowBound(h.watermark)
    {
      var g :| Holding(between, g) && Touches(g, k) && LowBound(f.watermark) <= LowBound(g.watermark);
      assert Inherits(g, before);
    }
  }

  lemma RearrangedOnward(before: Levels, between: Levels, after: Levels, truncation: Key, n: nat, n': nat, n'': nat)
    requires Rearranged(before, between, truncation, n, n') && Rearranged(between, after, truncation, n', n'')
    ensures Rearranged(before, after, truncation, n, n'')
  {
    forall f | Holding(after, f)
      ensures Inherits(f, before)
    {
      InheritsOnward(f, between, before);
    }
  }

  lemma OneMoreTask(path: seq<Point>, v: Point, truncation: Key, last: nat)
    requires Passed(path, truncation, last)
    requires var at := path[|path| - 1];
             Task(at.levels, v.levels, truncation, at.next, v.next, last)
             && Rearranged(at.levels, v.levels, truncation, at.next, v.next)
    ensures Passed(path + [v], truncation, last)
  {
    var at := path[|path| - 1];
    PathGrows(path, v, truncation, last);
    RearrangedOnward(path[0].levels, at.levels, v.levels, truncation, path[0].next, at.next, v.next);
  }

  lemma PathGrows(path: seq<Point>, v: Point, truncation: Key, last: nat)
    requires Path(path, truncation, last)
    requires var at := path[|path| - 1]; Task(at.levels, v.levels, truncation, at.next, v.next, last)
    ensures Path(path + [v], truncation, last)
  {
    var more := path + [v];
    forall i: nat | 0 < i < |more|
      ensures TaskAt(more, i, truncation, last)
    {
      if i < |path| {
        assert TaskAt(path, i, truncation, last);
        assert more[i - 1] == path[i - 1] && more[i] == path[i];
      } else {
        assert more[i - 1] == path[|path| - 1] && more[i] == v;
      }
    }
  }

  /** Before the first task. */
  lemma NoTaskYet(v: Point, truncation: Key, last: nat)
    requires ValidLevels(v.levels) && Numbered(v.levels, v.next) && OrderedBounds(v.levels)
    ensures Passed([v], truncation, last)
  {
    forall f | Holding(v.levels, f)
      ensures Inherits(f, v.levels)
    {
      InheritsItself(v.levels, f);
    }
  }

  // ---------- a flush in between ----------

  lemma FrontHolds(levels: Levels, f: File)
    requires levels != []
    ensures forall g :: Holding(levels[0 := [f] + levels[0]], g) <==> g == f || Holding(levels, g)
  {
    var levels' := levels[0 := [f] + levels[0]];
    forall g
      ensures Holding(levels', g) <==> g == f || Holding(levels, g)
    {
      assert f in levels'[0];
      if i :| 0 <= i < |levels| && g in levels[i] {
        assert g in levels'[i];
      }
      if i :| 0 <= i < |levels'| && g in levels'[i] {
        assert g == f || g in levels[i];
      }
    }
  }

  /** It only adds a newer file in front of level 0, and a pick stays sound. */
  lemma PickSurvivesFlush(levels: Levels, c: Pick, f: File)
    requires ValidLevels(levels) && ValidPick(levels, c) && Newest(levels, f)
    ensures ValidPick(levels[0 := [f] + levels[0]], c)
  {
    var flushed := levels[0 := [f] + levels[0]];
    SelectMembers(levels[c.level], Numbers(c.inputs));
    assert forall g :: g in c.inputs ==> g in levels[c.level] && Holding(levels, g);
    if c.level == 0 {
      assert ([f] + levels[0])[1..] == levels[0];
    }
    forall i | c.outputLevel <= i < |levels|
      ensures flushed[i] == levels[i]
    {
    }
  }

  /** A flushed file's number is its own, and above every number at level 0. */
  ghost predicate Newest(levels: Levels, f: File) {
    && levels != []
    && (forall g :: Holding(levels, g) ==> g.number != f.number)
    && (forall g :: g in levels[0] ==> g.number < f.number)
  }

  /** Whatever was decided on may still be installed after a flush and after the truncation point has moved. */
  lemma ReadySurvives(levels: Levels, truncation: Key, truncation': Key, job: Job, f: File)
    requires ValidLevels(levels) && Ready(levels, truncation, job) && truncation <= truncation' && Newest(levels, f)
    ensures Ready(levels[0 := [f] + levels[0]], truncation', job)
  {
    match job
    case Merging(c, p) => PickSurvivesFlush(levels, c, f);
    case Moving(c) => PickSurvivesFlush(levels, c, f);
    case Rewriting(level, g, p) =>
    case Reissuing(level, g, store) =>
    case Reclaiming(dead) => ReclaimSurvives(levels, truncation, truncation', dead, f);
  }

  lemma ReclaimSurvives(levels: Levels, truncation: Key, truncation': Key, dead: set<nat>, f: File)
    requires ReadyToReclaim(levels, truncation, dead) && truncation <= truncation' && Newest(levels, f)
    ensures ReadyToReclaim(levels[0 := [f] + levels[0]], truncation', dead)
  {
    var flushed := levels[0 := [f] + levels[0]];
    FrontHolds(levels, f);
    forall i: nat, g: File | i < |flushed| && g in flushed[i] && g.number in dead
      ensures EffectiveLargest(g) < truncation' || exists j: nat, c :: CoveredBy(flushed, i, g, j, c)
    {
      assert g != f && g in levels[i];
      if EffectiveLargest(g) >= truncation {
        var j: nat, c :| CoveredBy(levels, i, g, j, c);
        assert CoveredBy(flushed, i, g, j, c);
      }
    }
  }

  lemma ReadyLater(levels: Levels, truncation: Key, truncation': Key, job: Job)
    requires Ready(levels, truncation, job) && truncation <= truncation'
    ensures Ready(levels, truncation', job)
  {
  }
}

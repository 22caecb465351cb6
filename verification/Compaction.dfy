module Compaction {
  /**
   Writing a compaction's outputs.

   The inputs are merged newest first and the result is cut into files wherever the writer chooses.
   Each output carries the part of the inputs' range tombstones that falls in its own slice, clipped
   at the cut points. When nothing deeper overlaps, deletions of both kinds are dropped instead.
   */

  import opened Keys
  import opened Records
  import opened Version
  import opened MergingIterator

  /** What one compaction reads and how it treats what it reads; children are newest first. */
  datatype Plan = Plan(children: seq<File>, carried: seq<Range>, drop: bool, truncation: Key)

  /** The metadata every output of one compaction shares. */
  datatype Stamp = Stamp(store: nat, minTime: nat, maxTime: nat, watermark: Watermark)

  function EntriesOf(files: seq<File>): seq<seq<Entry>> {
    seq(|files|, i requires 0 <= i < |files| => files[i].entries)
  }

  function RangesOf(files: seq<File>): seq<seq<Range>> {
    seq(|files|, i requires 0 <= i < |files| => files[i].ranges)
  }

  predicate AnyCovers(files: seq<File>, k: Key) {
    exists i :: 0 <= i < |files| && Covers(files[i].ranges, k)
  }

  /** The carried cover is the union of the children's tombstones, or nothing when they are dropped. */
  ghost predicate ValidPlan(p: Plan) {
    && ValidFiles(p.children)
    && Disjoint(p.carried)
    && (p.drop ==> p.carried == [])
    && (!p.drop ==> forall k: Key :: Covers(p.carried, k) <==> AnyCovers(p.children, k))
  }

  /** The entry the outputs hold for `k`. */
  function WantEntry(p: Plan, k: Key): Option<Op> {
    var found := MergedEntry(EntriesOf(p.children), RangesOf(p.children), k);
    if k < p.truncation || (p.drop && found == Some(Delete)) then None else found
  }

  /** What the outputs together say about `k`. */
  function Want(p: Plan, k: Key): Option<Op> {
    if WantEntry(p, k).Some? then WantEntry(p, k)
    else if Covers(p.carried, k) then Some(Delete)
    else None
  }

  // ---------- the merge and the walk agree ----------

  /**
   The merged entry is what a reader walking the inputs would find; where the merge is silent the
   walk finds a deletion exactly when some input's tombstone covers the key.
   */
  lemma {:induction false} MergeIsWalk(files: seq<File>, k: Key)
    ensures var found := MergedEntry(EntriesOf(files), RangesOf(files), k);
            Walk(files, k) == if found.Some? then found else if AnyCovers(files, k) then Some(Delete) else None
  {
    var es, rs := EntriesOf(files), RangesOf(files);
    if Walk(files, k).None? {
      WalkSilent(files, k);
      assert forall j :: 0 <= j < |files| ==> files[j] in files && !Touches(files[j], k);
      MergedNowhere(es, rs, k, 0);
    } else {
      var i := FirstToucher(files, k);
      assert rs[i] == files[i].ranges && es[i] == files[i].entries;
      assert forall j :: 0 <= j < i ==> !Covers(rs[j], k) && !Holds(es[j], k);
      if Holds(es[i], k) {
        MergedAtHolder(es, rs, k, i, 0);
      } else {
        assert Covers(files[i].ranges, k);
        HiddenBelow(es, rs, k, i);
      }
    }
  }

  lemma {:induction false} FirstToucher(files: seq<File>, k: Key) returns (i: nat)
    requires Walk(files, k).Some?
    ensures i < |files| && Touches(files[i], k) && View(files[i], k) == Walk(files, k)
    ensures forall j :: 0 <= j < i ==> !Touches(files[j], k)
  {
    if Touches(files[0], k) {
      i := 0;
    } else {
      i := FirstToucher(files[1..], k);
      i := i + 1;
      assert forall j :: 1 <= j < i ==> files[j] == files[1..][j - 1];
    }
  }

  /** A child that covers a key it does not hold hides every later holder. */
  lemma HiddenBelow(es: seq<seq<Entry>>, rs: seq<seq<Range>>, k: Key, i: nat)
    requires |es| == |rs| && i < |es| && Covers(rs[i], k) && !Holds(es[i], k)
    requires forall j :: 0 <= j < i ==> !Holds(es[j], k)
    ensures MergedEntry(es, rs, k) == None
  {
    if exists j :: 0 <= j < |es| && Holds(es[j], k) {
      var j :| 0 <= j < |es| && Holds(es[j], k);
      var first := FirstHolder(es, k, j);
      MergedAtHolder(es, rs, k, first, 0);
    } else {
      MergedNowhere(es, rs, k, 0);
    }
  }

  lemma {:induction false} FirstHolder(es: seq<seq<Entry>>, k: Key, j: nat) returns (i: nat)
    requires j < |es| && Holds(es[j], k)
    ensures i <= j && Holds(es[i], k) && forall t :: 0 <= t < i ==> !Holds(es[t], k)
  {
    if t :| 0 <= t < j && Holds(es[t], k) {
      i := FirstHolder(es, k, t);
    } else {
      i := j;
    }
  }

  /** What a key reads after the merge, with `drop` letting go of deletions. */
  function AfterMerge(found: Option<Op>, drop: bool): Option<Op> {
    if drop && found == Some(Delete) then None else found
  }

  /**
   The outputs mean what the inputs meant: every key at or above the truncation point resolves as the
   walk over the inputs did, deletions aside when they are dropped, and no key is invented.
   */
  lemma WantIsWalk(p: Plan, k: Key)
    requires ValidPlan(p)
    ensures k >= p.truncation ==> Want(p, k) == AfterMerge(Walk(p.children, k), p.drop)
    ensures Want(p, k).Some? ==> Walk(p.children, k).Some?
  {
    MergeIsWalk(p.children, k);
  }

  // ---------- tiling the keyspace ----------

  /** Finished outputs: ordered by key, nothing reaching `bound`, and complete below it. */
  ghost predicate TiledBelow(p: Plan, outs: seq<File>, bound: Key) {
    && Ordered(outs)
    && (forall k: Key :: k < bound ==> Walk(outs, k) == Want(p, k))
    && (forall i, k: Key :: 0 <= i < |outs| && Touches(outs[i], k) ==> k < bound)
  }

  ghost predicate Tiled(p: Plan, outs: seq<File>) {
    Ordered(outs) && forall k: Key :: Walk(outs, k) == Want(p, k)
  }

  ghost predicate Ordered(outs: seq<File>) {
    ValidFiles(outs) && forall i, j :: 0 <= i < j < |outs| ==> Before(outs[i], outs[j])
  }

  /** One more output, covering exactly the slice `[lower, upper)`. */
  ghost predicate IsTile(p: Plan, o: File, lower: Option<Key>, upper: Option<Key>) {
    && ValidFile(o)
    && forall k: Key :: View(o, k) == if Within(lower, upper, k) then Want(p, k) else None
  }

  lemma AppendTile(p: Plan, outs: seq<File>, o: File, lower: Option<Key>, upper: Option<Key>)
    requires if lower.None? then outs == [] else TiledBelow(p, outs, lower.value)
    requires IsTile(p, o, lower, upper)
    ensures upper.Some? && (lower.Some? ==> lower.value <= upper.value) ==> TiledBelow(p, outs + [o], upper.value)
    ensures upper.None? ==> Tiled(p, outs + [o])
  {
    var all := outs + [o];
    SmallestIsTouched(o);
    forall i | 0 <= i < |outs|
      ensures Before(outs[i], o)
    {
      BeforeFromTouches(outs[i], o);
    }
    forall i, j | 0 <= i < j < |all|
      ensures Before(all[i], all[j])
    {
      assert all[i] == outs[i];
    }
    forall k: Key
      ensures Within(None, upper, k) && (lower.Some? && upper.Some? ==> lower.value <= upper.value) ==>
              Walk(all, k) == Want(p, k)
    {
      WalkConcat(outs, [o], k);
      WalkSilent(outs, k);
      assert Walk([o], k) == View(o, k);
      if Within(lower, upper, k) {
        forall f | f in outs
          ensures !Touches(f, k)
        {
          var i :| 0 <= i < |outs| && outs[i] == f;
        }
      }
    }
  }

  /** A slice with nothing to say adds no output. */
  lemma SkipTile(p: Plan, outs: seq<File>, lower: Option<Key>)
    requires if lower.None? then outs == [] else TiledBelow(p, outs, lower.value)
    requires forall k: Key :: Within(lower, None, k) ==> Want(p, k) == None
    ensures Tiled(p, outs)
  {
    forall k: Key
      ensures Walk(outs, k) == Want(p, k)
    {
      if Within(lower, None, k) {
        WalkSilent(outs, k);
        forall f | f in outs
          ensures !Touches(f, k)
        {
          var i :| 0 <= i < |outs| && outs[i] == f;
        }
      }
    }
  }

  // ---------- the output loop ----------

  function Built(number: nat, stamp: Stamp, entries: seq<Entry>, ranges: seq<Range>, bytes: nat): File {
    File(number, stamp.store, entries, ranges, bytes, stamp.minTime, stamp.maxTime, stamp.watermark)
  }

  predicate Stamped(outs: seq<File>, next: nat, stamp: Stamp) {
    forall i :: 0 <= i < |outs| ==>
      && outs[i].number == next + i
      && outs[i].store == stamp.store
      && outs[i].minTime == stamp.minTime
      && outs[i].maxTime == stamp.maxTime
      && outs[i].watermark == stamp.watermark
  }

  /** The open writer holds exactly the wanted entries from the slice's lower edge up to `bound`. */
  ghost predicate Writing(p: Plan, writer: seq<Entry>, lower: Option<Key>, bound: Option<Key>) {
    && Sorted(writer)
    && (forall k: Key :: Lookup(writer, k) == if Within(lower, bound, k) then WantEntry(p, k) else None)
  }

  /** Closes the open writer, clipping the carried tombstones to its slice. */
  method FinishOutput(ghost p: Plan, outs: seq<File>, writer: seq<Entry>, carried: seq<Range>,
                      lower: Option<Key>, upper: Option<Key>, next: nat, stamp: Stamp)
    returns (finished: seq<File>)
    requires ValidPlan(p) && carried == p.carried
    requires if lower.None? then outs == [] else TiledBelow(p, outs, lower.value)
    requires Writing(p, writer, lower, upper)
    requires upper.Some? ==> writer != [] && (lower.Some? ==> lower.value <= upper.value)
    requires Stamped(outs, next, stamp)
    ensures upper.Some? ==> TiledBelow(p, finished, upper.value)
    ensures upper.None? ==> Tiled(p, finished)
    ensures Stamped(finished, next, stamp)
  {
    var clipped := ClipRanges(carried, lower, upper);
    if writer == [] && clipped == [] {
      forall k: Key | Within(lower, None, k)
        ensures Want(p, k) == None
      {
        assert Lookup(writer, k) == None;
        assert !Covers(clipped, k);
      }
      SkipTile(p, outs, lower);
      return outs;
    }
    var bytes: nat := *;
    var o := Built(next + |outs|, stamp, writer, clipped, bytes);
    forall k: Key
      ensures View(o, k) == if Within(lower, upper, k) then Want(p, k) else None
    {
      assert Lookup(writer, k) == if Within(lower, upper, k) then WantEntry(p, k) else None;
    }
    AppendTile(p, outs, o, lower, upper);
    finished := outs + [o];
  }

  method CarriedRanges(children: seq<File>, drop: bool) returns (carried: seq<Range>)
    ensures Disjoint(carried)
    ensures drop ==> carried == []
    ensures !drop ==> forall k: Key :: Covers(carried, k) <==> AnyCovers(children, k)
  {
    if drop {
      return [];
    }
    var all: seq<Range> := [];
    for i := 0 to |children|
      invariant forall k: Key :: Covers(all, k) <==> AnyCovers(children[..i], k)
    {
      CoversConcat(all, children[i].ranges);
      forall k: Key
        ensures AnyCovers(children[..i + 1], k) <==> AnyCovers(children[..i], k) || Covers(children[i].ranges, k)
      {
        var shorter, longer := children[..i], children[..i + 1];
        assert longer == shorter + [children[i]] && longer[i] == children[i];
        if j :| 0 <= j < |shorter| && Covers(shorter[j].ranges, k) {
          assert longer[j] == shorter[j];
        }
        if j :| 0 <= j < |longer| && Covers(longer[j].ranges, k) {
          assert j < i ==> shorter[j] == longer[j];
        }
      }
      all := all + children[i].ranges;
    }
    assert children[..|children|] == children;
    carried := MergeRanges(all);
  }

  /** Adding a kept entry moves the writer's edge past its key. */
  lemma ExtendWriter(p: Plan, writer: seq<Entry>, lower: Option<Key>, e: Entry)
    requires Writing(p, writer, lower, Some(e.key)) && WantEntry(p, e.key) == Some(e.op)
    requires lower.Some? ==> lower.value <= e.key
    ensures Sorted(writer + [e])
    ensures forall k: Key :: Lookup(writer + [e], k)
                          == if Within(lower, None, k) && k <= e.key then WantEntry(p, k) else None
  {
    forall i | 0 <= i < |writer|
      ensures writer[i].key < e.key
    {
      LookupAt(writer, i);
      assert Lookup(writer, writer[i].key).Some?;
    }
    forall k: Key
      ensures Lookup(writer + [e], k) == if Within(lower, None, k) && k <= e.key then WantEntry(p, k) else None
    {
      LookupConcat(writer, [e], k);
      assert Lookup(writer, k) == if Within(lower, Some(e.key), k) then WantEntry(p, k) else None;
    }
  }

  /** The output loop's variables. */
  datatype Progress = Progress(outs: seq<File>, writer: seq<Entry>, lower: Option<Key>, cutPending: bool)

  ghost predicate Underway(p: Plan, w: Progress, next: nat, stamp: Stamp) {
    && (if w.lower.None? then w.outs == [] else TiledBelow(p, w.outs, w.lower.value))
    && Stamped(w.outs, next, stamp)
    && (w.cutPending ==> w.writer != [])
  }

  /** Everything below `bound` is in a finished output or in the open writer. */
  ghost predicate UpTo(p: Plan, w: Progress, bound: Option<Key>) {
    && Writing(p, w.writer, w.lower, bound)
    && (w.lower.Some? && bound.Some? ==> w.lower.value < bound.value)
  }

  /** The same, with `passed` itself included. */
  ghost predicate Through(p: Plan, w: Progress, passed: Key) {
    && Sorted(w.writer)
    && (w.lower.Some? ==> w.lower.value <= passed)
    && (forall k: Key :: Lookup(w.writer, k)
                      == if Within(w.lower, None, k) && k <= passed then WantEntry(p, k) else None)
  }

  /** One turn of the output loop: skip, or cut where a cut is due and add; then maybe ask for a cut. */
  method TakeEntry(ghost p: Plan, w: Progress, e: Entry, drop: bool, truncation: Key, carried: seq<Range>,
                   next: nat, stamp: Stamp)
    returns (w': Progress)
    requires ValidPlan(p) && carried == p.carried && drop == p.drop && truncation == p.truncation
    requires Underway(p, w, next, stamp) && UpTo(p, w, Some(e.key))
    requires MergedEntry(EntriesOf(p.children), RangesOf(p.children), e.key) == Some(e.op)
    ensures Underway(p, w', next, stamp) && Through(p, w', e.key)
  {
    w' := w;
    if (drop && e.op.Delete?) || e.key < truncation {
      forall k: Key
        ensures Lookup(w.writer, k) == if Within(w.lower, None, k) && k <= e.key then WantEntry(p, k) else None
      {
        assert Lookup(w.writer, k) == if Within(w.lower, Some(e.key), k) then WantEntry(p, k) else None;
      }
      return;
    }
    if w.cutPending {
      var finished := FinishOutput(p, w.outs, w.writer, carried, w.lower, Some(e.key), next, stamp);
      w' := Progress(finished, [], Some(e.key), false);
      assert Writing(p, w'.writer, w'.lower, Some(e.key));
    }
    ExtendWriter(p, w'.writer, w'.lower, e);
    var full: bool := *;
    w' := w'.(writer := w'.writer + [e], cutPending := full);
  }

  /** Between two consecutive merged keys there is nothing to write. */
  lemma Advance(p: Plan, w: Progress, passed: Key, bound: Option<Key>)
    requires Through(p, w, passed)
    requires bound.Some? ==> passed < bound.value
    requires forall k: Key :: k > passed && Within(None, bound, k) ==> WantEntry(p, k) == None
    ensures UpTo(p, w, bound)
  {
    forall k: Key
      ensures Lookup(w.writer, k) == if Within(w.lower, bound, k) then WantEntry(p, k) else None
    {
      assert Lookup(w.writer, k) == if Within(w.lower, None, k) && k <= passed then WantEntry(p, k) else None;
    }
  }

  /** The key the merge stands on, absent once it is exhausted. */
  function Standing(merged: Merge): Option<Key>
    requires merged.Valid()
    reads merged
  {
    if merged.current >= 0 then Some(merged.At().key) else None
  }

  /** The merge over the plan's children, standing on a merged entry or exhausted. */
  ghost predicate Streaming(merged: Merge, p: Plan)
    reads merged
  {
    && merged.Valid()
    && merged.children == EntriesOf(p.children) && merged.ranges == RangesOf(p.children)
    && (merged.current >= 0 ==>
          && merged.ForwardCut(merged.At().key, false)
          && merged.Merged(merged.At().key) == Some(merged.At().op))
  }

  method OpenMerge(ghost p: Plan, children: seq<File>) returns (merged: Merge)
    requires ValidFiles(children) && p.children == children
    ensures fresh(merged) && Streaming(merged, p)
    ensures forall k: Key :: Within(None, Standing(merged), k) ==> WantEntry(p, k) == None
  {
    assert forall i :: 0 <= i < |children| ==> children[i] in children;
    merged := new Merge(EntriesOf(children), RangesOf(children));
    merged.SeekToFirst();
    forall k: Key | Within(None, Standing(merged), k)
      ensures WantEntry(p, k) == None
    {
      assert merged.Merged(k) == None;
    }
  }

  method NextMerged(merged: Merge, ghost p: Plan)
    requires Streaming(merged, p) && merged.current >= 0
    modifies merged
    ensures Streaming(merged, p)
    ensures Standing(merged).Some? ==> old(merged.At().key) < Standing(merged).value
    ensures forall k: Key :: k > old(merged.At().key) && Within(None, Standing(merged), k) ==> WantEntry(p, k) == None
    ensures 0 <= merged.Left() < old(merged.Left())
  {
    ghost var passed := merged.At().key;
    merged.Next();
    AheadBounds(merged.children, merged.pos);
    forall k: Key | k > passed && Within(None, Standing(merged), k)
      ensures WantEntry(p, k) == None
    {
      assert merged.Merged(k) == None;
    }
  }

  /**
   The compaction's output loop, for every choice of where to cut. The outputs tile the keyspace:
   ordered by key, no key in two of them, and together they say exactly what `Want` says.
   */
  method WriteOutputs(children: seq<File>, drop: bool, truncation: Key, next: nat, stamp: Stamp)
    returns (outs: seq<File>, ghost p: Plan)
    requires ValidFiles(children)
    ensures p.children == children && p.drop == drop && p.truncation == truncation && ValidPlan(p)
    ensures Tiled(p, outs)
    ensures Stamped(outs, next, stamp)
  {
    var carried := CarriedRanges(children, drop);
    p := Plan(children, carried, drop, truncation);
    var merged := OpenMerge(p, children);
    var w := Progress([], [], None, false);
    assert UpTo(p, w, Standing(merged));
    while merged.current >= 0
      invariant fresh(merged) && Streaming(merged, p)
      invariant Underway(p, w, next, stamp) && UpTo(p, w, Standing(merged))
      decreases if merged.Valid() then merged.Left() else 0
    {
      var e := merged.At();
      w := TakeEntry(p, w, e, drop, truncation, carried, next, stamp);
      NextMerged(merged, p);
      Advance(p, w, e.key, Standing(merged));
    }
    outs := FinishOutput(p, w.outs, w.writer, carried, w.lower, None, next, stamp);
  }

  // ---------- letting deletions go ----------

  /** Nothing written by a compaction that drops deletions is one. */
  lemma DroppedOutputsHoldNone(p: Plan, outs: seq<File>, o: File)
    requires ValidPlan(p) && p.drop && Tiled(p, outs) && o in outs
    ensures NumTombstones(o.entries) == 0
  {
    forall e | e in o.entries
      ensures e.op.Put?
    {
      var i :| 0 <= i < |o.entries| && o.entries[i] == e;
      LookupAt(o.entries, i);
      WantIsWalk(p, e.key);
      WalkMember(outs, e.key, o);
    }
    NoTombstones(o.entries);
  }

  /** What a rewrite of one file leaves of it: no point deletion, and the writes' ages and bounds as they were. */
  predicate Succeeds(g: File, f: File, store: nat) {
    && NumTombstones(g.entries) == 0 && g.store == store
    && g.minTime == f.minTime && g.maxTime == f.maxTime && g.watermark == f.watermark
  }
}

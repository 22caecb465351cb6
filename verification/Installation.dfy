module Installation {
  /**
   Installing a compaction: what the version edit does to the levels, and why no reader can tell.

   Inputs leave their level and are replaced one level down, merged with everything there that their
   span meets. With no sequence numbers to fall back on, three facts carry the whole argument: a file
   left behind at the source level is newer than every input or shares no key with it; a file left
   alone at the output level lies wholly to one side of everything rewritten; and deletions are only
   let go when nothing deeper meets the span that was rewritten.
   */

  import opened Keys
  import opened Records
  import opened Version
  import opened Compaction

  /** A chosen compaction. `[low, high]` is the closed span its overlaps were selected by. */
  datatype Pick = Pick(
    level: nat,
    outputLevel: nat,
    inputs: seq<File>,
    overlaps: seq<File>,
    low: Key,
    high: Key,
    bottommost: bool)

  function Children(c: Pick): seq<File> {
    c.inputs + c.overlaps
  }

  predicate SpansMeet(f: File, g: File) {
    Meets(g, EffectiveSmallest(f), EffectiveLargest(f))
  }

  /** Every file outside `inputs` is newer than every input or shares no key with it. */
  predicate MayStayBehind(files: seq<File>, inputs: seq<File>) {
    forall f, g :: f in inputs && g in files && g !in inputs ==> g.number > f.number || !SpansMeet(f, g)
  }

  predicate Inside(files: seq<File>, low: Key, high: Key) {
    forall f :: f in files ==> low <= EffectiveSmallest(f) && EffectiveLargest(f) <= high
  }

  /** No file deeper than `level` meets any file of `children`. */
  predicate NothingBelow(levels: Levels, level: nat, children: seq<File>) {
    forall i, f, g :: level < i < |levels| && f in children && g in levels[i] ==> !SpansMeet(f, g)
  }

  /** Inputs are files of their level, in the level's own order. */
  predicate TakenFrom(inputs: seq<File>, files: seq<File>) {
    inputs == Select(files, Numbers(inputs))
  }

  /** The inputs and their overlaps are chosen soundly; nothing is said yet about letting deletions go. */
  predicate SoundSpan(levels: Levels, c: Pick) {
    && c.outputLevel == c.level + 1 < |levels|
    && c.inputs != []
    && TakenFrom(c.inputs, levels[c.level])
    && Inside(c.inputs, c.low, c.high)
    && c.overlaps == Overlapping(levels[c.outputLevel], c.low, c.high)
    && (c.level == 0 ==> MayStayBehind(levels[0], c.inputs))
  }

  predicate ValidPick(levels: Levels, c: Pick) {
    && SoundSpan(levels, c)
    && (c.bottommost ==> NothingBelow(levels, c.outputLevel, Children(c)))
  }

  /** The files a compaction leaves in place of what it read, whether rewritten or merely moved. */
  ghost predicate Faithful(children: seq<File>, outs: seq<File>, drop: bool, truncation: Key) {
    && Ordered(outs)
    && (forall k: Key :: k >= truncation ==> Walk(outs, k) == AfterMerge(Walk(children, k), drop))
    && (forall k: Key :: Walk(outs, k).Some? ==> Walk(children, k).Some?)
  }

  lemma TiledIsFaithful(p: Plan, outs: seq<File>)
    requires ValidPlan(p) && Tiled(p, outs)
    ensures Faithful(p.children, outs, p.drop, p.truncation)
  {
    forall k: Key
      ensures k >= p.truncation ==> Walk(outs, k) == AfterMerge(Walk(p.children, k), p.drop)
      ensures Walk(outs, k).Some? ==> Walk(p.children, k).Some?
    {
      WantIsWalk(p, k);
    }
  }

  /** A trivial move re-points one file; it rewrites and drops nothing. */
  lemma MoveIsFaithful(f: File, truncation: Key)
    requires ValidFile(f)
    ensures Faithful([f] + [], [f], false, truncation)
  {
    assert [f] + [] == [f];
  }

  function Applied(levels: Levels, c: Pick, outs: seq<File>): Levels
    requires c.level < c.outputLevel < |levels|
  {
    levels[c.level := Reject(levels[c.level], Numbers(c.inputs))]
          [c.outputLevel := Install(outs, Reject(levels[c.outputLevel], Numbers(c.overlaps)))]
  }

  // ---------- the output level ----------

  /** Installing key-disjoint files beside files that do not touch them reads as asking either. */
  lemma InstallWalk(outs: seq<File>, files: seq<File>, k: Key)
    requires ValidFiles(Install(outs, files)) && KeyDisjoint(Install(outs, files))
    requires forall g :: g in Install(outs, files) <==> g in outs || g in files
    ensures Walk(Install(outs, files), k) == OrElse(Walk(files, k), Walk(outs, k))
  {
    var all := Install(outs, files);
    if Walk(files, k).Some? {
      var f := WalkWitness(files, k);
      WalkMember(all, k, f);
    } else if Walk(outs, k).Some? {
      var f := WalkWitness(outs, k);
      WalkMember(all, k, f);
    } else {
      WalkSilent(files, k);
      WalkSilent(outs, k);
      WalkSilent(all, k);
    }
  }

  /** `g` lies wholly below, or wholly above, every one of `children`. */
  predicate ToOneSide(g: File, children: seq<File>) {
    (forall c :: c in children ==> Before(g, c)) || (forall c :: c in children ==> Before(c, g))
  }

  /** A file of the output level that the span missed lies to one side of all that is rewritten. */
  lemma MissedLiesToOneSide(files: seq<File>, c: Pick, g: File)
    requires ValidFiles(files) && KeyDisjoint(files) && ValidFiles(c.inputs)
    requires Inside(c.inputs, c.low, c.high) && c.overlaps == Overlapping(files, c.low, c.high)
    requires g in files && !Meets(g, c.low, c.high)
    ensures ToOneSide(g, Children(c))
  {
    OverlappingMembers(files, c.low, c.high);
    SmallestIsTouched(g);
    forall f | f in Children(c)
      ensures EffectiveLargest(g) < c.low ==> Before(g, f)
      ensures c.high < EffectiveSmallest(g) ==> Before(f, g)
    {
      if f in c.overlaps {
        assert f != g && Separated(f, g);
      }
    }
  }

  /** Outputs stay on the same side of `g` as what they were made from. */
  lemma OutputsStayAside(g: File, children: seq<File>, o: File)
    requires ValidFile(g) && ValidFile(o) && ValidFiles(children) && ToOneSide(g, children)
    requires forall k: Key :: Touches(o, k) ==> Walk(children, k).Some?
    ensures Separated(g, o)
  {
    SmallestIsTouched(o);
    SmallestIsTouched(g);
    if forall c :: c in children ==> Before(g, c) {
      var c := WalkWitness(children, EffectiveSmallest(o));
      forall k: Key | Touches(g, k)
        ensures k < EffectiveSmallest(o)
      {
        BeforeOrders(g, c, k, EffectiveSmallest(o));
      }
      BeforeFromTouches(g, o);
    } else {
      forall k: Key | Touches(o, k)
        ensures k < EffectiveSmallest(g)
      {
        var c := WalkWitness(children, k);
        BeforeOrders(c, g, k, EffectiveSmallest(g));
      }
      BeforeFromTouches(o, g);
    }
  }

  lemma {:induction false} OutputTouches(children: seq<File>, outs: seq<File>, o: File, k: Key)
    requires forall k: Key :: Walk(outs, k).Some? ==> Walk(children, k).Some?
    requires o in outs && Touches(o, k)
    ensures Walk(children, k).Some?
  {
    WalkSilent(outs, k);
  }

  /** The rewritten level is valid: sorted by key and key-disjoint, tombstones included. */
  lemma InstalledLevel(level: nat, kept: seq<File>, children: seq<File>, outs: seq<File>)
    requires level > 0 && ValidLevel(level, kept) && ValidFiles(children)
    requires Ordered(outs) && DistinctNumbers(outs + kept)
    requires forall k: Key :: Walk(outs, k).Some? ==> Walk(children, k).Some?
    requires forall g :: g in kept ==> ToOneSide(g, children)
    ensures ValidLevel(level, Install(outs, kept))
    ensures forall g :: g in Install(outs, kept) <==> g in outs || g in kept
  {
    var all := Install(outs, kept);
    InstallSorts(outs, kept);
    forall f, g | f in all && g in all && f != g
      ensures Separated(f, g)
    {
      if f in outs && g in outs {
        var i :| 0 <= i < |outs| && outs[i] == f;
        var j :| 0 <= j < |outs| && outs[j] == g;
        assert i < j || j < i;
      } else if f in kept && g in outs {
        forall k: Key | Touches(g, k) ensures Walk(children, k).Some? { OutputTouches(children, outs, g, k); }
        OutputsStayAside(f, children, g);
      } else if f in outs && g in kept {
        forall k: Key | Touches(f, k) ensures Walk(children, k).Some? { OutputTouches(children, outs, f, k); }
        OutputsStayAside(g, children, f);
      }
    }
    forall f, g | f in all && g in all && f.number == g.number
      ensures f == g
    {
      assert f in outs + kept && g in outs + kept;
      DistinctMembers(outs + kept, f, g);
    }
    KeySortedIsDistinct(all);
  }

  // ---------- the source level ----------

  /** What stays behind may be asked before what was taken. */
  lemma SourceSplits(level: nat, files: seq<File>, inputs: seq<File>, k: Key)
    requires ValidLevel(level, files) && TakenFrom(inputs, files)
    requires level == 0 ==> MayStayBehind(files, inputs)
    ensures Walk(files, k) == OrElse(Walk(Reject(files, Numbers(inputs)), k), Walk(inputs, k))
  {
    var taken := Numbers(inputs);
    SelectMembers(files, taken);
    forall i, j | 0 <= i < j < |files| && files[i].number in taken && files[j].number !in taken
      ensures !(Touches(files[i], k) && Touches(files[j], k))
    {
      var f, g := files[i], files[j];
      assert f in files && g in files && f in inputs && g !in inputs;
      if Touches(f, k) && Touches(g, k) {
        TouchSpan(f, k);
        TouchSpan(g, k);
        if level > 0 {
          WalkMember(files, k, f);
          assert Separated(f, g);
          if Before(f, g) { BeforeOrders(f, g, k, k); } else { BeforeOrders(g, f, k, k); }
        }
      }
    }
    WalkPartition(files, taken, k);
  }

  // ---------- the whole edit ----------

  lemma WalkAroundPair(levels: Levels, n: nat, k: Key)
    requires n + 1 < |levels|
    ensures WalkLevels(levels, k) == OrElse(WalkLevels(levels[..n], k),
              OrElse(Walk(levels[n], k), OrElse(Walk(levels[n + 1], k), WalkLevels(levels[n + 2..], k))))
  {
    WalkSplit(levels, n, k);
    var rest := levels[n + 1..];
    assert rest[0] == levels[n + 1] && rest[1..] == levels[n + 2..];
  }

  /** Nothing deeper speaks about a key the compaction rewrote. */
  lemma SilentBelow(levels: Levels, level: nat, children: seq<File>, k: Key)
    requires ValidLevels(levels) && level < |levels| && ValidFiles(children)
    requires NothingBelow(levels, level, children) && Walk(children, k).Some?
    ensures WalkLevels(levels[level + 1..], k).None?
  {
    var f := WalkWitness(children, k);
    TouchSpan(f, k);
    var deeper := levels[level + 1..];
    forall i | 0 <= i < |deeper|
      ensures Walk(deeper[i], k).None?
    {
      assert deeper[i] == levels[level + 1 + i] && ValidLevel(level + 1 + i, levels[level + 1 + i]);
      forall g | g in deeper[i]
        ensures !Touches(g, k)
      {
        if Touches(g, k) {
          TouchSpan(g, k);
        }
      }
      WalkSilent(deeper[i], k);
    }
    WalkLevelsSilent(deeper, k);
  }

  lemma PickedFiles(levels: Levels, c: Pick)
    requires ValidLevels(levels) && ValidPick(levels, c)
    ensures ValidFiles(Children(c)) && ValidFiles(c.inputs) && ValidFiles(c.overlaps)
    ensures TakenFrom(c.overlaps, levels[c.outputLevel])
    ensures ValidLevel(c.level, levels[c.level]) && ValidLevel(c.outputLevel, levels[c.outputLevel])
  {
    SelectMembers(levels[c.level], Numbers(c.inputs));
    OverlappingMembers(levels[c.outputLevel], c.low, c.high);
    OverlappingIsSelection(levels[c.outputLevel], c.low, c.high);
  }

  /** Levels below level 0 stay key-disjoint, entries and tombstones alike. */
  lemma CompactionKeepsLevels(levels: Levels, c: Pick, outs: seq<File>, drop: bool, truncation: Key)
    requires ValidLevels(levels) && ValidPick(levels, c)
    requires Faithful(Children(c), outs, drop, truncation)
    requires DistinctNumbers(outs + Reject(levels[c.outputLevel], Numbers(c.overlaps)))
    ensures ValidLevels(Applied(levels, c, outs))
    ensures forall g :: g in Applied(levels, c, outs)[c.outputLevel]
                   <==> g in outs || g in Reject(levels[c.outputLevel], Numbers(c.overlaps))
  {
    PickedFiles(levels, c);
    var kept := Reject(levels[c.outputLevel], Numbers(c.overlaps));
    ValidLevelReject(c.level, levels[c.level], Numbers(c.inputs));
    ValidLevelReject(c.outputLevel, levels[c.outputLevel], Numbers(c.overlaps));
    SelectMembers(levels[c.outputLevel], Numbers(c.overlaps));
    OverlappingMembers(levels[c.outputLevel], c.low, c.high);
    forall g | g in kept
      ensures ToOneSide(g, Children(c))
    {
      assert g !in c.overlaps;
      MissedLiesToOneSide(levels[c.outputLevel], c, g);
    }
    InstalledLevel(c.outputLevel, kept, Children(c), outs);
  }

  /** Where a file left at the output level answers, no input speaks. */
  lemma KeptOutputsIgnoreInputs(levels: Levels, c: Pick, k: Key)
    requires ValidLevels(levels) && ValidPick(levels, c)
    requires Walk(Reject(levels[c.outputLevel], Numbers(c.overlaps)), k).Some?
    ensures Walk(c.inputs, k).None?
  {
    PickedFiles(levels, c);
    var kept := Reject(levels[c.outputLevel], Numbers(c.overlaps));
    SelectMembers(levels[c.outputLevel], Numbers(c.overlaps));
    OverlappingMembers(levels[c.outputLevel], c.low, c.high);
    var g := WalkWitness(kept, k);
    assert g in levels[c.outputLevel] && g !in c.overlaps;
    TouchSpan(g, k);
    forall f | f in c.inputs
      ensures !Touches(f, k)
    {
      if Touches(f, k) {
        TouchSpan(f, k);
      }
    }
    WalkSilent(c.inputs, k);
  }

  /** Both levels of a pick read as what stays, then what is taken. */
  lemma PickSplits(levels: Levels, c: Pick, k: Key)
    requires ValidLevels(levels) && ValidPick(levels, c)
    ensures Walk(levels[c.level], k) == OrElse(Walk(Reject(levels[c.level], Numbers(c.inputs)), k), Walk(c.inputs, k))
    ensures Walk(levels[c.outputLevel], k)
         == OrElse(Walk(Reject(levels[c.outputLevel], Numbers(c.overlaps)), k), Walk(c.overlaps, k))
  {
    PickedFiles(levels, c);
    SourceSplits(c.level, levels[c.level], c.inputs, k);
    SourceSplits(c.outputLevel, levels[c.outputLevel], c.overlaps, k);
  }

  /** The walk before: left behind, inputs, kept, overlaps, deeper. */
  lemma WalkBefore(levels: Levels, c: Pick, k: Key)
    requires ValidLevels(levels) && ValidPick(levels, c)
    ensures var left := Reject(levels[c.level], Numbers(c.inputs));
            var kept := Reject(levels[c.outputLevel], Numbers(c.overlaps));
            WalkLevels(levels, k) == OrElse(WalkLevels(levels[..c.level], k), OrElse(Walk(left, k),
              OrElse(Walk(c.inputs, k), OrElse(OrElse(Walk(kept, k), Walk(c.overlaps, k)),
                WalkLevels(levels[c.level + 2..], k)))))
  {
    PickSplits(levels, c, k);
    WalkAroundPair(levels, c.level, k);
  }

  /** The output level after the edit reads as what stayed, then what was put there. */
  lemma InstalledWalk(levels: Levels, c: Pick, outs: seq<File>, drop: bool, truncation: Key, k: Key)
    requires ValidLevels(levels) && ValidPick(levels, c)
    requires Faithful(Children(c), outs, drop, truncation)
    requires DistinctNumbers(outs + Reject(levels[c.outputLevel], Numbers(c.overlaps)))
    ensures Walk(Applied(levels, c, outs)[c.outputLevel], k)
         == OrElse(Walk(Reject(levels[c.outputLevel], Numbers(c.overlaps)), k), Walk(outs, k))
  {
    CompactionKeepsLevels(levels, c, outs, drop, truncation);
    assert ValidLevel(c.outputLevel, Applied(levels, c, outs)[c.outputLevel]);
    InstallWalk(outs, Reject(levels[c.outputLevel], Numbers(c.overlaps)), k);
  }

  /** The walk after: left behind, kept, outputs, deeper. */
  lemma WalkAfter(levels: Levels, c: Pick, outs: seq<File>, drop: bool, truncation: Key, k: Key)
    requires ValidLevels(levels) && ValidPick(levels, c)
    requires Faithful(Children(c), outs, drop, truncation)
    requires DistinctNumbers(outs + Reject(levels[c.outputLevel], Numbers(c.overlaps)))
    ensures var left := Reject(levels[c.level], Numbers(c.inputs));
            var kept := Reject(levels[c.outputLevel], Numbers(c.overlaps));
            WalkLevels(Applied(levels, c, outs), k) == OrElse(WalkLevels(levels[..c.level], k), OrElse(Walk(left, k),
              OrElse(OrElse(Walk(kept, k), Walk(outs, k)), WalkLevels(levels[c.level + 2..], k))))
  {
    var applied := Applied(levels, c, outs);
    WalkAroundPair(applied, c.level, k);
    assert applied[..c.level] == levels[..c.level] && applied[c.level + 2..] == levels[c.level + 2..];
    InstalledWalk(levels, c, outs, drop, truncation, k);
  }

  /**
   Compaction preserves meaning: for every valid pick, every way of cutting the outputs, and every key
   at or above the truncation point, a reader finds what it found before.
   */
  lemma CompactionPreservesReads(levels: Levels, c: Pick, outs: seq<File>, drop: bool, truncation: Key, k: Key)
    requires ValidLevels(levels) && ValidPick(levels, c)
    requires Faithful(Children(c), outs, drop, truncation) && (drop ==> c.bottommost)
    requires DistinctNumbers(outs + Reject(levels[c.outputLevel], Numbers(c.overlaps)))
    requires k >= truncation
    ensures Resolve(WalkLevels(Applied(levels, c, outs), k)) == Resolve(WalkLevels(levels, k))
  {
    WalkBefore(levels, c, k);
    WalkAfter(levels, c, outs, drop, truncation, k);
    WalkConcat(c.inputs, c.overlaps, k);
    if Walk(Reject(levels[c.outputLevel], Numbers(c.overlaps)), k).Some? {
      KeptOutputsIgnoreInputs(levels, c, k);
    } else if Walk(Children(c), k) == Some(Delete) && drop {
      PickedFiles(levels, c);
      SilentBelow(levels, c.outputLevel, Children(c), k);
    }
  }

  // ---------- rewriting in place at the bottom ----------

  function Rewritten(levels: Levels, level: nat, f: File, outs: seq<File>): Levels
    requires level < |levels|
  {
    levels[level := Install(outs, Reject(levels[level], {f.number}))]
  }

  lemma RewriteKeepsLevels(levels: Levels, level: nat, f: File, outs: seq<File>, drop: bool, truncation: Key)
    requires ValidLevels(levels) && 0 < level < |levels| && f in levels[level]
    requires Faithful([f], outs, drop, truncation)
    requires DistinctNumbers(outs + Reject(levels[level], {f.number}))
    ensures ValidLevels(Rewritten(levels, level, f, outs))
    ensures forall g :: g in Rewritten(levels, level, f, outs)[level] <==>
            g in outs || g in Reject(levels[level], {f.number})
  {
    var kept := Reject(levels[level], {f.number});
    assert ValidLevel(level, levels[level]);
    ValidLevelReject(level, levels[level], {f.number});
    SelectMembers(levels[level], {f.number});
    forall g | g in kept
      ensures ToOneSide(g, [f])
    {
      assert Separated(g, f);
    }
    InstalledLevel(level, kept, [f], outs);
  }

  /** A rewrite that lands back in its own level keeps every read, given nothing deeper meets it. */
  lemma RewritePreservesReads(levels: Levels, level: nat, f: File, outs: seq<File>, drop: bool, truncation: Key, k: Key)
    requires ValidLevels(levels) && 0 < level < |levels| && f in levels[level]
    requires Faithful([f], outs, drop, truncation) && (drop ==> NothingBelow(levels, level, [f]))
    requires DistinctNumbers(outs + Reject(levels[level], {f.number}))
    requires k >= truncation
    ensures Resolve(WalkLevels(Rewritten(levels, level, f, outs), k)) == Resolve(WalkLevels(levels, k))
  {
    var rewritten := Rewritten(levels, level, f, outs);
    var kept := Reject(levels[level], {f.number});
    assert ValidLevel(level, levels[level]);
    RewriteKeepsLevels(levels, level, f, outs, drop, truncation);
    WalkSplit(levels, level, k);
    WalkSplit(rewritten, level, k);
    assert rewritten[..level] == levels[..level] && rewritten[level + 1..] == levels[level + 1..];
    SingleTaken(levels[level], f);
    SourceSplits(level, levels[level], [f], k);
    assert Numbers([f]) == {f.number};
    assert ValidLevel(level, rewritten[level]);
    InstallWalk(outs, kept, k);
    if Walk([f], k) == Some(Delete) && drop {
      SilentBelow(levels, level, [f], k);
    }
  }

  lemma {:induction false} SingleTaken(files: seq<File>, f: File)
    requires DistinctNumbers(files) && f in files
    ensures TakenFrom([f], files)
  {
    assert Numbers([f]) == {f.number};
    if files[0] == f {
      SelectNone(files[1..], f.number);
    } else {
      var i :| 0 <= i < |files| && files[i] == f;
      assert files[0].number != files[i].number;
      SingleTaken(files[1..], f);
    }
  }

  lemma {:induction false} SelectNone(files: seq<File>, number: nat)
    requires forall f :: f in files ==> f.number != number
    ensures Select(files, {number}) == []
  {
    if files != [] {
      assert files[0] in files;
      SelectNone(files[1..], number);
    }
  }
}

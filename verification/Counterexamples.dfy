module Counterexamples {
  /**
   Inputs on which the code does not keep what it promises, each concrete. The conditions under which it
   does are stated beside the positive results: `HullLowExactly` and `NoEmptyKeys` of the picker's bounds,
   `DepthExactly` of its depth, `TurnExactly` and `PassExactly` of a store with one level, `OldestExactly` of write
   times, `Discharged` of a recovery declared complete, and not `Uncertifiable` of a reopening.
   */

  import opened Keys
  import opened Records
  import opened Version
  import opened Compaction
  import opened Installation
  import opened Picker
  import opened Tasks
  import opened Store
  import opened Recovery
  import opened Compactor
  import opened SingleLevel
  import opened Runs

  const UNBOUNDED := Watermark(None, None)
  const OLD: Value := [1]
  const NEW: Value := [2]

  function FileOf(number: nat, entries: seq<Entry>): File {
    File(number, 0, entries, [], 1, 1, 1, UNBOUNDED)
  }

  function Two(number: nat, a: Key, b: Key): File {
    FileOf(number, [Entry(a, Put(OLD)), Entry(b, Put(OLD))])
  }

  // ---------- the empty key in a compaction's bounds ----------

  /** One turn of the overlap loop: the next bounds and size, or nothing when it returns. */
  function OverlapTurn(files: seq<File>, low: Key, high: Key, size: nat): Option<(Key, Key, nat)> {
    var found := Overlapping(files, low, high);
    if |found| == size then None
    else
      var lower, upper := WidenedLow(low, found), WidenedHigh(high, found);
      if lower == low && upper == high then None else Some((lower, upper, |found|))
  }

  function OverlapAfter(files: seq<File>, low: Key, high: Key, size: nat, turns: nat): Option<(Key, Key, nat)>
    decreases turns
  {
    if turns == 0 then Some((low, high, size))
    else
      var turn := OverlapTurn(files, low, high, size);
      if turn.None? then None else OverlapAfter(files, turn.value.0, turn.value.1, turn.value.2, turns - 1)
  }

  /** Level 0 with two files that start at the empty key. */
  function Oscillating(): seq<File> {
    [Two(4, EMPTY_KEY, Letter(26)), Two(3, Letter(2), Letter(26)), Two(2, EMPTY_KEY, Letter(3)),
     Two(1, Letter(13), Letter(26))]
  }

  lemma OscillatingTurns()
    ensures Overlapping(Oscillating(), Letter(13), Letter(26)) == [Oscillating()[0], Oscillating()[1], Oscillating()[3]]
    ensures Overlapping(Oscillating(), Letter(2), Letter(26)) == Oscillating()
  {
    var fs := Oscillating();
    assert fs[1..] == [fs[1], fs[2], fs[3]] && fs[1..][1..] == [fs[2], fs[3]] && fs[1..][1..][1..] == [fs[3]];
  }

  lemma OscillatingBounds()
    ensures OverlapTurn(Oscillating(), Letter(13), Letter(26), 4) == Some((Letter(2), Letter(26), 3))
    ensures OverlapTurn(Oscillating(), Letter(13), Letter(26), 0) == Some((Letter(2), Letter(26), 3))
    ensures OverlapTurn(Oscillating(), Letter(2), Letter(26), 3) == Some((Letter(13), Letter(26), 4))
  {
    OscillatingTurns();
    var fs := Oscillating();
    var three := [fs[0], fs[1], fs[3]];
    assert three[1..] == [fs[1], fs[3]] && three[1..][1..] == [fs[3]] && [fs[3]][1..] == [];
    assert fs[1..] == [fs[1], fs[2], fs[3]] && fs[1..][1..] == [fs[2], fs[3]] && fs[1..][1..][1..] == [fs[3]];
    assert EffectiveSmallest(fs[0]) == EMPTY_KEY && EffectiveSmallest(fs[1]) == Letter(2);
    assert EffectiveSmallest(fs[2]) == EMPTY_KEY && EffectiveSmallest(fs[3]) == Letter(13);
    assert WidenedLow(Letter(2), [fs[3]]) == WidenedLow(Letter(2), []) == Letter(2);
    assert WidenedLow(EMPTY_KEY, three[1..]) == WidenedLow(Letter(2), [fs[3]]);
    assert WidenedLow(Letter(13), three) == Letter(2);
    assert WidenedHigh(Letter(26), [fs[3]]) == WidenedHigh(Letter(26), []) == Letter(26);
    assert WidenedHigh(Letter(26), three[1..]) == Letter(26);
    assert WidenedHigh(Letter(26), three) == Letter(26);
    assert WidenedLow(Letter(2), fs) == Letter(13);
    assert WidenedHigh(Letter(26), fs) == Letter(26);
  }

  /** A turn that another turn takes back is taken for ever. */
  lemma {:induction false} BackAndForth(files: seq<File>, low: Key, low': Key, high: Key, m: nat, n: nat, turns: nat)
    requires OverlapTurn(files, low, high, m) == Some((low', high, n))
    requires OverlapTurn(files, low', high, n) == Some((low, high, m))
    ensures OverlapAfter(files, low, high, m, turns).Some?
    decreases turns
  {
    if turns > 0 {
      BackAndForth(files, low', low, high, n, m, turns - 1);
    }
  }

  /** The loop never returns: with the oldest file as seed, no number of turns ends it. */
  lemma OverlapNeverReturns(turns: nat)
    ensures OverlapAfter(Oscillating(), Letter(13), Letter(26), 0, turns).Some?
  {
    OscillatingBounds();
    if turns > 0 {
      BackAndForth(Oscillating(), Letter(2), Letter(13), Letter(26), 3, 4, turns - 1);
    }
  }

  const REWRITTEN := FileOf(3, [Entry(EMPTY_KEY, Put(NEW)), Entry(Letter(4), Put(NEW)), Entry(Letter(11), Put(NEW))])
  const BETWEEN := FileOf(2, [Entry(Letter(4), Put(OLD))])
  const SEED := FileOf(1, [Entry(Letter(11), Put(OLD))])

  /**
   A closure that stops too early. The newest file starts at the empty key, so widening over it and the
   seed leaves the bounds where they were; the file between the two in age is left in level 0 while the
   newest goes down, and its older value is read again.
   */
  lemma EmptyKeyRevertsAWrite(outs: seq<File>)
    requires Faithful([REWRITTEN, SEED], outs, true, EMPTY_KEY)
    ensures Overlapping([REWRITTEN, BETWEEN, SEED], Letter(11), Letter(11)) == [REWRITTEN, SEED]
    ensures WidenedLow(Letter(11), [REWRITTEN, SEED]) == Letter(11)
    ensures WidenedHigh(Letter(11), [REWRITTEN, SEED]) == Letter(11)
    ensures !MayStayBehind([REWRITTEN, BETWEEN, SEED], [REWRITTEN, SEED])
    ensures Resolve(WalkLevels([[REWRITTEN, BETWEEN, SEED], []], Letter(4))) == Some(NEW)
    ensures Resolve(WalkLevels([[BETWEEN], outs], Letter(4))) == Some(OLD)
  {
    var all := [REWRITTEN, BETWEEN, SEED];
    assert all[1..] == [BETWEEN, SEED] && all[1..][1..] == [SEED] && [SEED][1..] == [];
    assert [REWRITTEN, SEED][1..] == [SEED];
    assert REWRITTEN in [REWRITTEN, SEED] && BETWEEN in all && SpansMeet(REWRITTEN, BETWEEN);
    assert EffectiveSmallest(REWRITTEN) == EMPTY_KEY && EffectiveLargest(REWRITTEN) == Letter(11);
    assert EffectiveSmallest(BETWEEN) == EffectiveLargest(BETWEEN) == Letter(4);
    assert EffectiveSmallest(SEED) == EffectiveLargest(SEED) == Letter(11);
    assert Overlapping([SEED], Letter(11), Letter(11)) == [SEED];
    assert Overlapping(all[1..], Letter(11), Letter(11)) == [SEED];
    assert WidenedLow(EMPTY_KEY, [SEED]) == WidenedLow(Letter(11), []) == Letter(11);
    assert WidenedHigh(Letter(11), [SEED]) == WidenedHigh(Letter(11), []) == Letter(11);
    var es := REWRITTEN.entries;
    assert Lookup(es, Letter(4)) == Lookup(es[1..], Letter(4));
    assert es[1..] == [es[1], es[2]] && es[1..][0] == es[1];
    assert View(REWRITTEN, Letter(4)) == Some(Put(NEW));
    assert View(BETWEEN, Letter(4)) == Some(Put(OLD));
    assert Walk(all, Letter(4)) == Some(Put(NEW));
    assert Walk([BETWEEN], Letter(4)) == Some(Put(OLD));
  }

  const ERASED := File(3, 0, [], [Range(EMPTY_KEY, Letter(13))], 1, 1, 1, UNBOUNDED)
  const ABOVE_IT := FileOf(2, [Entry(Letter(3), Put(OLD))])
  const BELOW_IT := FileOf(1, [Entry(Letter(1), Put(OLD))])

  /** Deleting everything below a key is what flushes to a file that starts at the empty key. */
  lemma ErasedIsAFlush()
    ensures FlushOf(ERASED, MemDeleteRange(FreshMem(None), EMPTY_KEY, Letter(13)))
    ensures !SparesEmptyKey(EMPTY_KEY, RemoveRange(EMPTY_KEY, Letter(13)))
  {
    var m := MemDeleteRange(FreshMem(None), EMPTY_KEY, Letter(13));
    forall k: Key
      ensures View(ERASED, k) == MemView(m, k)
    {
      DeleteRangeView(FreshMem(None), EMPTY_KEY, Letter(13), k);
      assert Covers(ERASED.ranges, k) <==> InRange(ERASED.ranges[0], k);
    }
  }

  /**
   No empty key is needed. The hull forgets that the deletion starts at the empty key, finds the deepest level
   clear, and lets the deletion go while a value under it is still there.
   */
  lemma DeleteRangeFromEmptyResurrects(outs: seq<File>)
    requires Faithful([ERASED, ABOVE_IT], outs, true, EMPTY_KEY)
    ensures var levels := [[ERASED], [ABOVE_IT], [BELOW_IT]];
            && WithinDepth(levels, 2) && Overlapping(levels[1], EMPTY_KEY, Letter(13)) == [ABOVE_IT]
            && WidenedLow(EMPTY_KEY, [ERASED, ABOVE_IT]) == Letter(3)
            && WidenedHigh(EMPTY_KEY, [ERASED, ABOVE_IT]) == Letter(13)
            && ClearBelow(levels, 1, 2, Letter(3), Letter(13))
            && Resolve(WalkLevels(levels, Letter(1))) == None
            && Resolve(WalkLevels([[], outs, [BELOW_IT]], Letter(1))) == Some(OLD)
  {
    var levels := [[ERASED], [ABOVE_IT], [BELOW_IT]];
    var after := [[], outs, [BELOW_IT]];
    assert levels[1] == [ABOVE_IT] && levels[2] == [BELOW_IT] && levels[1..][1..] == [[BELOW_IT]];
    assert after[1..] == [outs, [BELOW_IT]] && after[1..][1..] == [[BELOW_IT]];
    assert [ERASED, ABOVE_IT][1..] == [ABOVE_IT] && [ABOVE_IT][1..] == [] && [BELOW_IT][1..] == [];
    assert EffectiveSmallest(ERASED) == EMPTY_KEY && EffectiveLargest(ERASED) == Letter(13);
    assert WidenedLow(EMPTY_KEY, [ABOVE_IT]) == WidenedLow(Letter(3), []) == Letter(3);
    assert WidenedHigh(Letter(13), [ABOVE_IT]) == WidenedHigh(Letter(13), []) == Letter(13);
    assert Covers(ERASED.ranges, Letter(1)) by { assert InRange(ERASED.ranges[0], Letter(1)); }
    assert [Entry(Letter(3), Put(OLD))][1..] == [] && Lookup([], Letter(1)) == None && !Covers([], Letter(1));
    assert View(ERASED, Letter(1)) == Some(Delete) && View(ABOVE_IT, Letter(1)) == None;
    assert View(BELOW_IT, Letter(1)) == Some(Put(OLD));
    assert Walk([ERASED, ABOVE_IT], Letter(1)) == Some(Delete);
    assert Walk([ERASED], Letter(1)) == Some(Delete) && Walk([BELOW_IT], Letter(1)) == Some(Put(OLD));
    assert WalkLevels([[BELOW_IT]], Letter(1)) == Some(Put(OLD));
  }

  // ---------- a write time of zero ----------

  /** Zero is taken for "none yet": a file written at time zero is forgotten when another follows. */
  lemma ZeroIsForgotten(f: File, g: File)
    requires f.minTime == 0 && g.minTime == 5
    ensures OldestFold([f, g]) == 5 && !Oldest([f, g], OldestFold([f, g]))
    ensures OldestFold([g, f]) == 0 && Oldest([g, f], OldestFold([g, f]))
  {
    assert [f, g][..1] == [f] && [g, f][..1] == [g] && [f][..0] == [] && [g][..0] == [];
    assert OldestFold([f]) == 0 && OldestFold([g]) == 5;
    assert f in [f, g] && f in [g, f];
  }

  // ---------- a single level, and levels below the last ----------

  const DELETION := FileOf(2, [Entry(Letter(4), Delete)])
  const DELETED := FileOf(1, [Entry(Letter(4), Put(OLD))])

  /**
   `compact_level(0)` on a store with one level. The pass takes the oldest file first and rewrites it where it
   is under a fresh number, which makes it the newest: the deletion above it no longer hides it.
   */
  lemma SingleLevelResurrects(p: Plan, outs: seq<File>)
    requires Turns(DELETED, EMPTY_KEY, p, outs)
    ensures NewestFirst([DELETION, DELETED]) && !MayTurn([DELETION, DELETED], 1, EMPTY_KEY)
    ensures Resolve(Walk([DELETION, DELETED], Letter(4))) == None
    ensures Resolve(Walk(Turned([DELETION, DELETED], DELETED, outs), Letter(4))) == Some(OLD)
  {
    var files := [DELETION, DELETED];
    assert files[..1] == [DELETION] && files[2..] == [] && files[1] == DELETED;
    assert View(DELETION, Letter(4)) == Some(Delete) && View(DELETED, Letter(4)) == Some(Put(OLD));
    assert Walk([DELETION], Letter(4)) == Some(Delete);
    TurnWalk(files, 1, EMPTY_KEY, p, outs, Letter(4));
    assert !TurnsWell(files, 1, Letter(4));
  }

  /**
   A store reopened with fewer levels than it has files in. The bottommost test asks only the configured
   levels, so the deletion is let go while the value it hides lies one level further down.
   */
  lemma ForgottenLevelResurrects(outs: seq<File>)
    requires Faithful([DELETION], outs, true, EMPTY_KEY)
    ensures var levels := [[DELETION], [], [DELETED]];
            && !WithinDepth(levels, 1) && ClearBelow(levels, 1, 1, Letter(4), Letter(4))
            && Resolve(WalkLevels(levels, Letter(4))) == None
            && Resolve(WalkLevels([[], outs, [DELETED]], Letter(4))) == Some(OLD)
  {
    assert View(DELETION, Letter(4)) == Some(Delete) && View(DELETED, Letter(4)) == Some(Put(OLD));
    assert Walk([DELETION], Letter(4)) == Some(Delete) && Walk([DELETED], Letter(4)) == Some(Put(OLD));
    assert Walk(outs, Letter(4)) == None;
    assert [[DELETION], [], [DELETED]][2] == [DELETED];
    var after := [[], outs, [DELETED]];
    assert after[1..] == [outs, [DELETED]] && after[1..][1..] == [[DELETED]];
    assert WalkLevels([[DELETED]], Letter(4)) == Some(Put(OLD));
  }

  // ---------- recovery ----------

  const K: Key := Letter(11)
  const C: Key := Letter(3)

  const LOG := [PutKey(K, OLD), PutKey(C, OLD)]
  const SURVIVOR := File(1, 0, [Entry(C, Put(OLD))], [], 1, 1, 1, Watermark(Some(1), Some(2)))
  const REPLAYED := Mem(map[K := Put(OLD), C := Put(OLD)], [], Watermark(Some(0), Some(0)))

  /** One file was lost and its floor recorded; both writes have been replayed into the memtable. */
  const UNFLUSHED := World(Store(REPLAYED, None, [[SURVIVOR]], EMPTY_KEY, Some(Some(0)), Some(0), 2), LOG, 2, false)

  lemma UnflushedViews(k: Key)
    ensures View(SURVIVOR, k) == if k == C then Some(Put(OLD)) else None
    ensures WalkLevels([[SURVIVOR]], k) == View(SURVIVOR, k)
    ensures WalkMems([REPLAYED], k) == if k == K || k == C then Some(Put(OLD)) else None
    ensures OracleGet(Replay(LOG, 2), k) == if k == K || k == C then Some(OLD) else None
    ensures OracleGet(Replay(LOG, 0), k) == None
    ensures Quiet(LOG, 0, k) ==> k != K && k != C
    ensures Quiet(LOG, 1, k) ==> k != C
  {
    assert Walk([SURVIVOR], k) == View(SURVIVOR, k);
    assert SURVIVOR.entries == [Entry(C, Put(OLD))] && [Entry(C, Put(OLD))][1..] == [];
    assert Lookup([], k) == None && !Covers(SURVIVOR.ranges, k);
    assert Replay(LOG, 1) == Apply(Replay(LOG, 0), LOG[0]);
    assert Replay(LOG, 2) == Apply(Replay(LOG, 1), LOG[1]);
    assert Touching(LOG[0], K) && Touching(LOG[1], C);
  }

  lemma UnflushedIsSound()
    ensures Inv(UNFLUSHED)
  {
    var w := UNFLUSHED;
    assert [w.store.mem] + Frozen(w.store) == [REPLAYED];
    forall k: Key
      ensures View(SURVIVOR, k) == if k == C then Some(Put(OLD)) else None
      ensures Visible([REPLAYED], [[SURVIVOR]], EMPTY_KEY, k) == OracleGet(Replay(LOG, 2), k)
      ensures Quiet(LOG, 0, k) ==> k != K && k != C
      ensures Quiet(LOG, 1, k) ==> k != C
      ensures Quiet(LOG, 0, k) ==> Visible([], [[SURVIVOR]], EMPTY_KEY, k) == OracleGet(Replay(LOG, 0), k)
    {
      UnflushedViews(k);
    }
    assert forall f :: Holding([[SURVIVOR]], f) ==> f == SURVIVOR;
    assert Replay(LOG, 1) == Apply(Replay(LOG, 0), LOG[0]);
    assert Replay(LOG, 2) == Apply(Replay(LOG, 1), LOG[1]);
  }

  /**
   A replay declared complete before it was flushed. Clearing the floor there lets a second crash resume
   at the surviving file's upper bound, past a write that no file holds.
   */
  lemma CompleteBeforeFlushLosesAWrite()
    ensures Inv(UNFLUSHED) && UNFLUSHED.cursor == |UNFLUSHED.log| && !Discharged(UNFLUSHED)
    ensures var reopened := Reopened(UNFLUSHED.(store := UNFLUSHED.store.(floor := None)), {});
            && reopened.cursor == |reopened.log| && Read(reopened.store, K) == None
            && OracleGet(Replay(reopened.log, |reopened.log|), K) == Some(OLD)
  {
    var reopened := Reopened(UNFLUSHED.(store := UNFLUSHED.store.(floor := None)), {});
    assert K in REPLAYED.entries;
    UnflushedIsSound();
    UnflushedViews(K);
    assert Flat([[SURVIVOR]]) == [SURVIVOR] by {
      assert [[SURVIVOR]][1..] == [];
    }
    assert Select([SURVIVOR], {}) == [] && Reject([SURVIVOR], {}) == [SURVIVOR];
    assert MaxHigh([SURVIVOR]) == Some(2);
    assert RejectAll([[SURVIVOR]], {}) == [[SURVIVOR]];
    assert [reopened.store.mem] + Frozen(reopened.store) == [reopened.store.mem];
  }

  const LATER := [RemoveKey(K), PutKey(K, OLD), PutKey(C, OLD)]

  /**
   The world `Uncertifiable` singles out. The first two writes went to a file whose upper bound was set
   before either, the third to a file that was lost: the floor is 2. A second reopening resumed below it,
   at 0, and replayed the removal; that and the file it removed from were compacted into nothing.
   */
  const EMPTIED := World(Store(FreshMem(Some(0)), None, [[], []], EMPTY_KEY, Some(Some(2)), Some(0), 4), LATER, 1, true)

  lemma NoFilesAnywhere(k: Key)
    ensures Flat([[], []]) == [] && WalkLevels([[], []], k) == None
  {
    var one: Levels, two: Levels := [[]], [[], []];
    assert two[1..] == one && one[1..] == [];
    WalkLevelsSilent(two, k);
  }

  lemma EmptiedAgrees()
    ensures Agrees([FreshMem(Some(0))], [[], []], EMPTY_KEY, LATER, 1)
  {
    assert Replay(LATER, 1) == Apply(Replay(LATER, 0), LATER[0]);
    forall k: Key
      ensures Visible([FreshMem(Some(0))], [[], []], EMPTY_KEY, k) == OracleGet(Replay(LATER, 1), k)
    {
      NoFilesAnywhere(k);
      assert WalkMems([FreshMem(Some(0))], k) == None;
    }
  }

  lemma EmptiedHoldsNothing()
    ensures forall f :: !Holding([[], []], f)
    ensures ValidLevels([[], []]) && Numbered([[], []], 4) && FilesSound([[], []], LATER)
  {
  }

  lemma EmptiedIsSound()
    ensures Inv(EMPTIED)
  {
    EmptiedAgrees();
    EmptiedHoldsNothing();
    NoFilesAnywhere(K);
    assert [EMPTIED.store.mem] + Frozen(EMPTIED.store) == [FreshMem(Some(0))];
    assert Replay(LATER, 1) == Apply(Replay(LATER, 0), LATER[0]);
    assert Certified(EMPTIED).None?;
  }

  /** With no upper bound left the floor itself is reported, and the write before it is not replayed. */
  lemma FloorWithoutFilesLosesAWrite()
    ensures Inv(EMPTIED) && Uncertifiable(EMPTIED, {})
    ensures Reopened(EMPTIED, {}).cursor == 2
    ensures Read(AcceptFrom(Reopened(EMPTIED, {}).store, LATER, 2), K) == None
    ensures OracleGet(Replay(LATER, 3), K) == Some(OLD)
  {
    var reopened := Reopened(EMPTIED, {});
    EmptiedIsSound();
    NoFilesAnywhere(K);
    assert reopened.store.levels == [[], []];
    var s := Accept(reopened.store, LATER[2]);
    assert AcceptFrom(reopened.store, LATER, 2) == AcceptFrom(s, LATER, 3) == s;
    assert [s.mem] + Frozen(s) == [s.mem];
    assert WalkMems([s.mem], K) == None;
    assert Replay(LATER, 1) == Apply(Replay(LATER, 0), LATER[0]);
    assert Replay(LATER, 2) == Apply(Replay(LATER, 1), LATER[1]);
    assert Replay(LATER, 3) == Apply(Replay(LATER, 2), LATER[2]);
  }

  // ---------- completing too early, for every position ----------

  /** One write at position `l`, another at `h`, and nothing this store holds anywhere else. */
  function EarlyLog(l: nat, h: nat): seq<Write> {
    seq(h + 1, i => if i == l then PutKey(K, OLD) else if i == h then PutKey(C, OLD) else Elsewhere)
  }

  function Survived(h: nat): File {
    File(1, 0, [Entry(C, Put(OLD))], [], 1, 1, 1, Watermark(Some(h), Some(h)))
  }

  /** The floor of a loss is `l` and a file reaches to `h`; the write at `l` is in the memtable, or not yet replayed. */
  function Early(l: nat, h: nat, replayed: bool): World {
    var entries: map<Key, Op> := if replayed then map[K := Put(OLD)] else map[];
    World(Store(Mem(entries, [], Watermark(Some(l), Some(l))), None, [[Survived(h)]], EMPTY_KEY, Some(Some(l)),
      Some(l), 2),
          EarlyLog(l, h), if replayed then h + 1 else l, false)
  }

  lemma {:induction false} EarlyReplay(l: nat, h: nat, n: nat, k: Key)
    requires l < h && n <= h + 1
    ensures Replay(EarlyLog(l, h), n).floor == EMPTY_KEY
    ensures OracleGet(Replay(EarlyLog(l, h), n), k) ==
            if (k == K && l < n) || (k == C && h < n) then Some(OLD) else None
  {
    if n > 0 {
      EarlyReplay(l, h, n - 1, k);
    }
  }

  lemma EarlyViews(l: nat, h: nat, replayed: bool, k: Key)
    requires l < h
    ensures View(Survived(h), k) == if k == C then Some(Put(OLD)) else None
    ensures WalkLevels([[Survived(h)]], k) == View(Survived(h), k)
    ensures MemView(Early(l, h, replayed).store.mem, k) == if replayed && k == K then Some(Put(OLD)) else None
    ensures WalkMems([Early(l, h, replayed).store.mem], k) == MemView(Early(l, h, replayed).store.mem, k)
    ensures Quiet(EarlyLog(l, h), l, k) ==> k != K && k != C
    ensures Quiet(EarlyLog(l, h), h, k) ==> k != C
  {
    var log := EarlyLog(l, h);
    assert Touching(log[l], K) && Touching(log[h], C);
    assert [Entry(C, Put(OLD))][1..] == [] && Lookup([], k) == None && !Covers([], k);
    assert [Survived(h)][1..] == [] && Walk([Survived(h)], k) == View(Survived(h), k);
    assert [[Survived(h)]][1..] == [] && WalkLevels([], k) == None;
  }

  lemma EarlyAgrees(l: nat, h: nat, replayed: bool)
    requires l < h
    ensures var w := Early(l, h, replayed);
            && Agrees([w.store.mem], w.store.levels, EMPTY_KEY, w.log, w.cursor)
            && Agrees([], w.store.levels, EMPTY_KEY, w.log, l)
            && MemAbove(w.store.mem, w.log, l) && FileAbove(Survived(h), w.log, h)
  {
    var w := Early(l, h, replayed);
    forall k: Key
      ensures Quiet(w.log, w.cursor, k) ==>
                Visible([w.store.mem], w.store.levels, EMPTY_KEY, k) == OracleGet(Replay(w.log, w.cursor), k)
      ensures Quiet(w.log, l, k) ==> Visible([], w.store.levels, EMPTY_KEY, k) == OracleGet(Replay(w.log, l), k)
      ensures MemView(w.store.mem, k).Some? ==> !Quiet(w.log, l, k)
      ensures Touches(Survived(h), k) ==> !Quiet(w.log, h, k)
    {
      EarlyViews(l, h, replayed, k);
      EarlyReplay(l, h, w.cursor, k);
      EarlyReplay(l, h, l, k);
    }
  }

  lemma EarlyIsSound(l: nat, h: nat, replayed: bool)
    requires l < h
    ensures Inv(Early(l, h, replayed))
  {
    var w := Early(l, h, replayed);
    EarlyAgrees(l, h, replayed);
    EarlyReplay(l, h, w.cursor, K);
    assert [w.store.mem] + Frozen(w.store) == [w.store.mem];
    assert forall f :: Holding([[Survived(h)]], f) ==> f == Survived(h);
    assert Certified(w) == Some(l);
  }

  /** The same world with the floor of its recovery cleared. */
  function Completed(l: nat, h: nat, replayed: bool): World {
    var w := Early(l, h, replayed);
    w.(store := w.store.(floor := None))
  }

  lemma EarlyFiles(h: nat)
    ensures Flat([[Survived(h)]]) == [Survived(h)] && MaxHigh([Survived(h)]) == Some(h)
    ensures Select([Survived(h)], {}) == [] && Reject([Survived(h)], {}) == [Survived(h)]
    ensures RejectAll([[Survived(h)]], {}) == [[Survived(h)]]
  {
    assert [[Survived(h)]][1..] == [] && [Survived(h)][1..] == [];
  }

  lemma EarlyReopens(l: nat, h: nat, replayed: bool)
    requires l < h
    ensures Reopened(Completed(l, h, replayed), {})
         == World(Store(FreshMem(Some(h)), None, [[Survived(h)]], EMPTY_KEY, None, Some(h), 2),
                  EarlyLog(l, h), h, false)
  {
    EarlyFiles(h);
  }

  lemma EarlyReads(l: nat, h: nat)
    requires l < h
    ensures var s := Store(FreshMem(Some(h)), None, [[Survived(h)]], EMPTY_KEY, None, Some(h), 2);
            Read(AcceptFrom(s, EarlyLog(l, h), h), K) == None
  {
    var log := EarlyLog(l, h);
    var s := Accept(Store(FreshMem(Some(h)), None, [[Survived(h)]], EMPTY_KEY, None, Some(h), 2), log[h]);
    assert s.mem.entries == map[C := Put(OLD)];
    assert AcceptFrom(s, log, h + 1) == s;
    EarlyViews(l, h, false, K);
    assert [s.mem] + Frozen(s) == [s.mem] && WalkMems([s.mem], K) == None;
  }

  lemma EarlyIsLost(l: nat, h: nat, replayed: bool)
    requires l < h
    ensures var reopened := Reopened(Completed(l, h, replayed), {});
            && reopened.cursor == h
            && Read(AcceptFrom(reopened.store, reopened.log, h), K) == None
            && OracleGet(Replay(reopened.log, |reopened.log|), K) == Some(OLD)
  {
    EarlyReopens(l, h, replayed);
    EarlyReads(l, h);
    EarlyReplay(l, h, h + 1, K);
  }

  /**
   For every upper bound `h` of a file and every `l` below it: with a memtable bounded by `l`, or a replay that
   has come to `l`, there is a sound store in which completing the recovery loses the write at `l`. So no
   condition on these positions that lets a smaller one through would do.
   */
  lemma CompletingEarlyLosesAWrite(l: nat, h: nat, replayed: bool)
    requires l < h
    ensures var w := Early(l, h, replayed);
            && Inv(w) && MaxHigh(Flat(w.store.levels)) == Some(h)
            && (if replayed then w.cursor == |w.log| && !MemEmpty(w.store.mem) && LowBound(w.store.mem.watermark) == l
                else w.cursor == l && MemEmpty(w.store.mem))
    ensures var reopened := Reopened(Completed(l, h, replayed), {});
            && reopened.cursor == h
            && Read(AcceptFrom(reopened.store, reopened.log, h), K) == None
            && OracleGet(Replay(reopened.log, |reopened.log|), K) == Some(OLD)
  {
    EarlyIsSound(l, h, replayed);
    EarlyFiles(h);
    assert replayed ==> K in Early(l, h, replayed).store.mem.entries;
    EarlyIsLost(l, h, replayed);
  }
}

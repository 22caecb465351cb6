module CounterexampleRuns {
  /**
   The two losing reopenings of `Counterexamples` happen: step by step from a freshly created store to the
   worlds they begin in.
   */

  import opened Keys
  import opened Records
  import opened Version
  import opened Compaction
  import opened Installation
  import opened Tasks
  import opened Store
  import opened Recovery
  import opened Runs
  import opened Counterexamples

  /** A store with nothing truncated and no task in progress; the memtable's upper bound is the established position. */
  function At(mem: Mem, imm: Option<Mem>, levels: Levels, floor: Option<Option<nat>>, next: nat,
              log: seq<Write>, cursor: nat, below: bool): Node
  {
    var last := if levels == [] then 0 else |levels| - 1;
    Node(World(Store(mem, imm, levels, EMPTY_KEY, floor, mem.watermark.high, next), log, cursor, below), last, None)
  }

  /** A memtable of one entry, and the file it flushes to. */
  function Alone(key: Key, op: Op, low: nat, high: nat): Mem {
    Mem(map[key := op], [], Watermark(Some(low), Some(high)))
  }

  function Flushed(number: nat, key: Key, op: Op, low: nat, high: nat): File {
    File(number, 0, [Entry(key, op)], [], 1, 1, 1, Watermark(Some(low), Some(high)))
  }

  lemma FlushedView(number: nat, key: Key, op: Op, low: nat, high: nat, k: Key)
    ensures View(Flushed(number, key, op, low, high), k) == if k == key then Some(op) else None
    ensures ValidFile(Flushed(number, key, op, low, high))
  {
    assert [Entry(key, op)][1..] == [] && Lookup([], k) == None;
  }

  /** Sealing a memtable of one key and flushing it in front of what level 0 holds. */
  lemma SealReached(key: Key, op: Op, low: nat, high: nat, levels: Levels,
                    floor: Option<Option<nat>>, next: nat, log: seq<Write>, cursor: nat, below: bool)
    requires Reached(At(Alone(key, op, low, high), None, levels, floor, next, log, cursor, below))
    ensures Reached(At(FreshMem(Some(high)), Some(Alone(key, op, low, high)), levels, floor, next, log, cursor, below))
  {
    var m := Alone(key, op, low, high);
    assert key in m.entries;
    StepReached(At(m, None, levels, floor, next, log, cursor, below),
                At(FreshMem(Some(high)), Some(m), levels, floor, next, log, cursor, below), Sealing);
  }

  lemma FlushReached(key: Key, op: Op, low: nat, high: nat, top: seq<File>, deeper: Levels,
                     floor: Option<Option<nat>>, next: nat, log: seq<Write>, cursor: nat, below: bool)
    requires Reached(At(Alone(key, op, low, high), None, [top] + deeper, floor, next, log, cursor, below))
    ensures Reached(At(FreshMem(Some(high)), None, [[Flushed(next, key, op, low, high)] + top] + deeper,
                       floor, next + 1, log, cursor, below))
  {
    var m, f := Alone(key, op, low, high), Flushed(next, key, op, low, high);
    var levels := [top] + deeper;
    var sealed := At(FreshMem(Some(high)), Some(m), levels, floor, next, log, cursor, below);
    SealReached(key, op, low, high, levels, floor, next, log, cursor, below);
    forall k: Key
      ensures View(f, k) == MemView(m, k)
    {
      FlushedView(next, key, op, low, high, k);
      assert !Covers([], k);
    }
    FlushedView(next, key, op, low, high, key);
    ReachedIsSound(sealed);
    assert forall g :: g in levels[0] ==> Holding(levels, g);
    assert levels[0 := [f] + levels[0]] == [[f] + top] + deeper;
    var flushed := At(FreshMem(Some(high)), None, [[f] + top] + deeper, floor, next + 1, log, cursor, below);
    assert FlushStep(sealed.world, flushed.world, f);
    StepReached(sealed, flushed, Flushing(f));
  }

  lemma PickOfTwo(f: File, g: File, numbers: set<nat>)
    ensures Select([f, g], numbers) ==
            (if f.number in numbers then [f] else []) + (if g.number in numbers then [g] else [])
    ensures Reject([f, g], numbers) ==
            (if f.number in numbers then [] else [f]) + (if g.number in numbers then [] else [g])
  {
    assert [f, g][1..] == [g];
    PickOfOne(g, numbers);
  }

  lemma PickOfOne(g: File, numbers: set<nat>)
    ensures Select([g], numbers) == if g.number in numbers then [g] else []
    ensures Reject([g], numbers) == if g.number in numbers then [] else [g]
  {
    assert [g][1..] == [];
    assert Select([], numbers) == [] && Reject([], numbers) == [];
  }

  // ---------- a replay declared complete before it was flushed ----------

  const FIRST := Flushed(0, K, Put(OLD), 0, 0)

  lemma FirstReached()
    ensures Reached(At(FreshMem(Some(0)), None, [[FIRST]], None, 1, LOG[..1], 1, false))
  {
    var created := At(FreshMem(None), None, [[]], None, 0, [], 0, false);
    var marked := At(FreshMem(Some(0)), None, [[]], None, 0, [], 0, false);
    var written := At(Alone(K, Put(OLD), 0, 0), None, [[]], None, 0, LOG[..1], 1, false);
    StartReached(created);
    StepReached(created, marked, Marking);
    StepReached(marked, written, Writing(LOG[0]));
    var none: Levels := [[]];
    assert [FIRST] + [] == [FIRST];
    assert none + [] == none && [[FIRST] + []] + [] == [[FIRST]];
    FlushReached(K, Put(OLD), 0, 0, [], [], None, 0, LOG[..1], 1, false);
  }

  lemma SurvivorReached()
    ensures Reached(At(FreshMem(Some(2)), None, [[SURVIVOR, FIRST]], None, 2, LOG, 2, false))
  {
    FirstReached();
    var idle := At(FreshMem(Some(0)), None, [[FIRST]], None, 1, LOG[..1], 1, false);
    var marked := At(FreshMem(Some(1)), None, [[FIRST]], None, 1, LOG[..1], 1, false);
    var written := At(Alone(C, Put(OLD), 1, 1), None, [[FIRST]], None, 1, LOG, 2, false);
    var raised := At(Alone(C, Put(OLD), 1, 2), None, [[FIRST]], None, 1, LOG, 2, false);
    StepReached(idle, marked, Marking);
    StepReached(marked, written, Writing(LOG[1]));
    assert C in written.world.store.mem.entries;
    StepReached(written, raised, Marking);
    assert [SURVIVOR] + [FIRST] == [SURVIVOR, FIRST];
    assert [[FIRST]] + [] == [[FIRST]] && [[SURVIVOR] + [FIRST]] + [] == [[SURVIVOR, FIRST]];
    FlushReached(C, Put(OLD), 1, 2, [FIRST], [], None, 1, LOG, 2, false);
  }

  /** The world in which `mark_recovery_complete` loses a write is one a store comes to. */
  lemma UnflushedIsReached()
    ensures Reached(Node(UNFLUSHED, 0, None))
  {
    SurvivorReached();
    var whole := At(FreshMem(Some(2)), None, [[SURVIVOR, FIRST]], None, 2, LOG, 2, false);
    var reopened := At(FreshMem(Some(0)), None, [[SURVIVOR]], Some(Some(0)), 2, LOG, 0, false);
    var replaying := At(Alone(K, Put(OLD), 0, 0), None, [[SURVIVOR]], Some(Some(0)), 2, LOG, 1, false);
    assert Flat([[SURVIVOR, FIRST]]) == [SURVIVOR, FIRST] by {
      assert [[SURVIVOR, FIRST]][1..] == [];
    }
    PickOfTwo(SURVIVOR, FIRST, {0});
    assert Reject([SURVIVOR, FIRST], {0}) == [SURVIVOR];
    assert RejectAll([[SURVIVOR, FIRST]], {0}) == [[SURVIVOR]];
    assert Padded(Reopened(whole.world, {0}), whole.last) == reopened.world && !Uncertifiable(whole.world, {0});
    StepReached(whole, reopened, Reopening({0}, whole.last));
    StepReached(reopened, replaying, Writing(LOG[0]));
    assert Accept(replaying.world.store, LOG[1]).mem == REPLAYED;
    StepReached(replaying, Node(UNFLUSHED, 0, None), Writing(LOG[1]));
  }

  // ---------- a floor that outlives every upper bound ----------

  const OVERWRITTEN := Flushed(1, K, Put(OLD), 0, 0)
  const ABOVE := Flushed(2, C, Put(OLD), 2, 2)
  const REMOVAL := Flushed(3, K, Delete, 0, 0)

  lemma OverwrittenReached()
    ensures Reached(At(FreshMem(Some(0)), None, [[OVERWRITTEN], []], None, 2, LATER[..2], 2, false))
  {
    var created := At(FreshMem(None), None, [[], []], None, 1, [], 0, false);
    var marked := At(FreshMem(Some(0)), None, [[], []], None, 1, [], 0, false);
    var removed := At(Alone(K, Delete, 0, 0), None, [[], []], None, 1, LATER[..1], 1, false);
    var written := At(Alone(K, Put(OLD), 0, 0), None, [[], []], None, 1, LATER[..2], 2, false);
    StartReached(created);
    StepReached(created, marked, Marking);
    StepReached(marked, removed, Writing(LATER[0]));
    StepReached(removed, written, Writing(LATER[1]));
    var none: Levels := [[]];
    assert [OVERWRITTEN] + [] == [OVERWRITTEN];
    assert none + none == [[], []] && [[OVERWRITTEN] + []] + none == [[OVERWRITTEN], []];
    FlushReached(K, Put(OLD), 0, 0, [], [[]], None, 1, LATER[..2], 2, false);
  }

  lemma AboveReached()
    ensures Reached(At(FreshMem(Some(2)), None, [[ABOVE, OVERWRITTEN], []], None, 3, LATER, 3, false))
  {
    OverwrittenReached();
    var idle := At(FreshMem(Some(0)), None, [[OVERWRITTEN], []], None, 2, LATER[..2], 2, false);
    var marked := At(FreshMem(Some(2)), None, [[OVERWRITTEN], []], None, 2, LATER[..2], 2, false);
    var written := At(Alone(C, Put(OLD), 2, 2), None, [[OVERWRITTEN], []], None, 2, LATER, 3, false);
    StepReached(idle, marked, Marking);
    StepReached(marked, written, Writing(LATER[2]));
    assert [[OVERWRITTEN]] + [[]] == [[OVERWRITTEN], []];
    assert [ABOVE] + [OVERWRITTEN] == [ABOVE, OVERWRITTEN];
    assert [[ABOVE] + [OVERWRITTEN]] + [[]] == [[ABOVE, OVERWRITTEN], []];
    FlushReached(C, Put(OLD), 2, 2, [OVERWRITTEN], [[]], None, 2, LATER, 3, false);
  }

  lemma FlatTwo(files: seq<File>)
    ensures Flat([files, []]) == files
  {
    var levels, deeper: Levels := [files, []], [[]];
    assert levels[1..] == deeper && deeper[1..] == [] && Flat(deeper) == [];
  }

  /** The loss records a floor; reopened again, the survivor's upper bound puts the position below it. */
  lemma BelowReached()
    ensures Reached(At(FreshMem(Some(0)), None, [[OVERWRITTEN], []], Some(Some(2)), 3, LATER, 0, true))
  {
    AboveReached();
    var whole := At(FreshMem(Some(2)), None, [[ABOVE, OVERWRITTEN], []], None, 3, LATER, 3, false);
    var floored := At(FreshMem(Some(2)), None, [[OVERWRITTEN], []], Some(Some(2)), 3, LATER, 2, false);
    var lower := At(FreshMem(Some(0)), None, [[OVERWRITTEN], []], Some(Some(2)), 3, LATER, 0, true);
    FlatTwo([ABOVE, OVERWRITTEN]);
    PickOfTwo(ABOVE, OVERWRITTEN, {2});
    assert Reject([ABOVE, OVERWRITTEN], {2}) == [OVERWRITTEN];
    assert RejectAll([[ABOVE, OVERWRITTEN], []], {2}) == [[OVERWRITTEN], []];
    assert Padded(Reopened(whole.world, {2}), whole.last) == floored.world && !Uncertifiable(whole.world, {2});
    StepReached(whole, floored, Reopening({2}, whole.last));
    FlatTwo([OVERWRITTEN]);
    PickOfOne(OVERWRITTEN, {});
    assert [OVERWRITTEN][1..] == [] && MaxHigh([OVERWRITTEN]) == Some(0);
    assert RejectAll([[OVERWRITTEN], []], {}) == [[OVERWRITTEN], []];
    assert Padded(Reopened(floored.world, {}), floored.last) == lower.world && !Uncertifiable(floored.world, {});
    StepReached(floored, lower, Reopening({}, floored.last));
  }

  const BOTH := Pick(0, 1, [REMOVAL, OVERWRITTEN], [], K, K, true)
  const AWAY := Plan([REMOVAL, OVERWRITTEN], [], true, EMPTY_KEY)

  lemma BothIsValid()
    ensures ValidPick([[REMOVAL, OVERWRITTEN], []], BOTH)
    ensures Applied([[REMOVAL, OVERWRITTEN], []], BOTH, []) == [[], []]
  {
    var files := [REMOVAL, OVERWRITTEN];
    assert files[0] == REMOVAL && files[1] == OVERWRITTEN;
    assert 1 in Numbers(files) && 3 in Numbers(files);
    PickOfTwo(REMOVAL, OVERWRITTEN, Numbers(files));
  }

  lemma NothingIsWanted(k: Key)
    ensures Want(AWAY, k) == None
  {
    MergeIsWalk(AWAY.children, k);
    FlushedView(3, K, Delete, 0, 0, k);
    FlushedView(1, K, Put(OLD), 0, 0, k);
    assert [REMOVAL, OVERWRITTEN][1..] == [OVERWRITTEN] && [OVERWRITTEN][1..] == [];
    assert Walk([OVERWRITTEN], k) == View(OVERWRITTEN, k);
  }

  /** The removal and what it removes are compacted into nothing. */
  lemma CompactedAway()
    ensures Task([[REMOVAL, OVERWRITTEN], []], [[], []], EMPTY_KEY, 4, 4, 1)
  {
    BothIsValid();
    FlushedView(3, K, Delete, 0, 0, K);
    FlushedView(1, K, Put(OLD), 0, 0, K);
    forall k: Key
      ensures Walk([], k) == Want(AWAY, k)
    {
      NothingIsWanted(k);
    }
    assert Tiled(AWAY, []);
    assert Children(BOTH) == [REMOVAL, OVERWRITTEN];
    var levels: Levels := [[REMOVAL, OVERWRITTEN], []];
    assert Merges(levels, [[], []], 4, BOTH, AWAY, []);
    assert Ready(levels, EMPTY_KEY, Merging(BOTH, AWAY)) && JobWithin(Merging(BOTH, AWAY), 1);
    assert Installs(levels, [[], []], 4, 4, Merging(BOTH, AWAY));
  }

  /** The `Uncertifiable` world in which the floor loses a write is one a store comes to. */
  lemma EmptiedIsReached()
    ensures Reached(Node(EMPTIED, 1, None))
  {
    BelowReached();
    var lower := At(FreshMem(Some(0)), None, [[OVERWRITTEN], []], Some(Some(2)), 3, LATER, 0, true);
    var removed := At(Alone(K, Delete, 0, 0), None, [[OVERWRITTEN], []], Some(Some(2)), 3, LATER, 1, true);
    var flushed := At(FreshMem(Some(0)), None, [[REMOVAL, OVERWRITTEN], []], Some(Some(2)), 4, LATER, 1, true);
    StepReached(lower, removed, Writing(LATER[0]));
    assert [[OVERWRITTEN]] + [[]] == [[OVERWRITTEN], []];
    assert [REMOVAL] + [OVERWRITTEN] == [REMOVAL, OVERWRITTEN];
    assert [[REMOVAL] + [OVERWRITTEN]] + [[]] == [[REMOVAL, OVERWRITTEN], []];
    FlushReached(K, Delete, 0, 0, [OVERWRITTEN], [[]], Some(Some(2)), 3, LATER, 1, true);
    CompactedAway();
    TaskReached(flushed, [[], []], 4);
  }
}

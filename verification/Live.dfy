module Live {
  /**
   A store as it runs: memtables, files and tasks are the real ones, and what the embedder and the tasks do to it
   are steps of one run. None of the operations asks for anything that the run does not already promise or that
   the embedder does not have to heed, and each leaves a store that is again reached. So what is proved of runs
   holds of what the operations do: a get returns what a plain map of the writes would.
   */

  import opened Keys
  import opened Records
  import opened Version
  import opened Tasks
  import opened Compactor
  import opened Store
  import opened Recovery
  import opened Runs
  import opened Placement
  import opened Migrator
  import opened Resume
  import S = Skiplist
  import R = Reader

  /** The world after the next write: a new one, or while replaying the one the log already holds here. */
  ghost function Wrote(w: World, write: Write): World {
    World(Accept(w.store, write), if w.cursor < |w.log| then w.log else w.log + [write], w.cursor + 1, w.below)
  }

  /** The node once the sealed memtable's file is in front of level 0. */
  ghost function Landed(n: Node, f: File): Node
    requires n.world.store.levels != []
  {
    var s := n.world.store;
    n.(world := n.world.(store := s.(imm := None, levels := s.levels[0 := [f] + s.levels[0]], next := f.number + 1)))
  }

  ghost predicate Remains(w: World, rest: seq<Write>) {
    w.cursor <= |w.log| && rest == w.log[w.cursor..]
  }

  predicate Spared(truncation: Key, rest: seq<Write>) {
    forall i :: 0 <= i < |rest| ==> SparesEmptyKey(truncation, rest[i])
  }

  /** After the first write of what remains, the rest of it remains; the truncation point never moves back. */
  lemma OneFewer(w: World, rest: seq<Write>)
    requires rest != [] && Remains(w, rest) && Spared(w.store.truncation, rest)
    ensures w.cursor < |w.log| && w.log[w.cursor] == rest[0] && SparesEmptyKey(w.store.truncation, rest[0])
    ensures var w' := Wrote(w, rest[0]);
            w'.log == w.log && Remains(w', rest[1..]) && Spared(w'.store.truncation, rest[1..])
  {
    assert Accept(w.store, rest[0]).truncation >= w.store.truncation;
    forall i | 0 <= i < |rest[1..]|
      ensures SparesEmptyKey(Accept(w.store, rest[0]).truncation, rest[1..][i])
    {
      assert rest[1..][i] == rest[i + 1];
    }
  }

  class LiveStore {
    var engine: Engine
    var mem: S.Memtable
    var imm: S.Memtable?
    var floor: Option<Option<nat>>
    var established: Option<nat>
    ghost var node: Node

    /** The files are those of the node, with no task in progress. */
    ghost predicate Files()
      reads this, engine
    {
      && node.job.None? && engine.last == node.last < |engine.levels|
      && engine.levels == node.world.store.levels && engine.next == node.world.store.next
      && engine.truncation == node.world.store.truncation
    }

    /** The memtables are, and what recovery has recorded is. */
    ghost predicate Tables()
      reads this, mem, imm
    {
      && mem.Valid() && mem.AsMem() == node.world.store.mem
      && (imm == null ==> node.world.store.imm.None?)
      && (imm != null ==> imm != mem && imm.Valid() && !imm.Empty() && node.world.store.imm == Some(imm.AsMem()))
      && floor == node.world.store.floor && established == node.world.store.established
    }

    ghost predicate Valid()
      reads this, engine, mem, imm
    {
      Reached(node) && Files() && Tables()
    }

    constructor (last: nat)
      ensures Valid() && fresh(engine) && fresh(mem) && imm == null && node.world.log == [] && engine.last == last
    {
      engine := new Engine(last);
      mem := new S.Memtable(None);
      imm, floor, established := null, None, None;
      new;
      node := Node(World(Store(FreshMem(None), None, engine.levels, EMPTY_KEY, None, None, 0), [], 0, false), last,
        None);
      StartReached(node);
    }

    // ---------- what the embedder does ----------

    ghost method Take(step: Step, world: World)
      requires Reached(node) && Taken(node, node.(world := world), step) && Heeds(node, step)
      modifies this`node
      ensures Reached(node) && node == old(node).(world := world)
    {
      StepReached(node, node.(world := world), step);
      node := node.(world := world);
    }

    /** What the embedder may write next: anything once the log is replayed, until then what the log holds. */
    ghost predicate Follows(write: Write)
      reads this, engine
    {
      && (node.world.cursor < |node.world.log| ==> node.world.log[node.world.cursor] == write)
      && SparesEmptyKey(engine.truncation, write)
    }

    /** Refused below the truncation point. */
    method Put(key: Key, value: Value, height: nat) returns (accepted: bool)
      requires Valid() && 1 <= height <= S.MAX_HEIGHT && Follows(PutKey(key, value))
      modifies this`node, mem
      ensures Valid() && node == old(node).(world := Wrote(old(node).world, PutKey(key, value)))
      ensures accepted <==> key >= engine.truncation
    {
      accepted := key >= engine.truncation;
      if accepted {
        mem.Insert(key, Op.Put(value), height);
      }
      Take(Writing(PutKey(key, value)), Wrote(node.world, PutKey(key, value)));
    }

    method Remove(key: Key, height: nat) returns (accepted: bool)
      requires Valid() && 1 <= height <= S.MAX_HEIGHT && Follows(RemoveKey(key))
      modifies this`node, mem
      ensures Valid() && node == old(node).(world := Wrote(old(node).world, RemoveKey(key)))
      ensures accepted <==> key >= engine.truncation
    {
      accepted := key >= engine.truncation;
      if accepted {
        mem.Insert(key, Delete, height);
      }
      Take(Writing(RemoveKey(key)), Wrote(node.world, RemoveKey(key)));
    }

    /** Clamped to what lies above the truncation point. */
    method DeleteRange(lower: Key, upper: Key)
      requires Valid() && Follows(RemoveRange(lower, upper))
      modifies this`node, mem
      ensures Valid() && node == old(node).(world := Wrote(old(node).world, RemoveRange(lower, upper)))
    {
      mem.DeleteRange(if lower < engine.truncation then engine.truncation else lower, upper);
      Take(Writing(RemoveRange(lower, upper)), Wrote(node.world, RemoveRange(lower, upper)));
    }

    method Truncate(key: Key)
      requires Valid() && Follows(TruncateBelow(key))
      modifies this`node, engine`truncation
      ensures Valid() && node == old(node).(world := Wrote(old(node).world, TruncateBelow(key)))
    {
      Take(Writing(TruncateBelow(key)), Wrote(node.world, TruncateBelow(key)));
      if engine.truncation < key {
        engine.truncation := key;
      }
    }

    /** A position of the log that is another store's. */
    ghost method PassOver()
      requires Valid() && Follows(Elsewhere)
      modifies this`node
      ensures Valid() && node == old(node).(world := Wrote(old(node).world, Elsewhere))
    {
      Take(Writing(Elsewhere), Wrote(node.world, Elsewhere));
    }

    /** Refused if it goes backwards; otherwise the position of everything written so far. */
    method SetWatermark(position: nat) returns (accepted: bool)
      requires Valid()
      requires position == node.world.cursor || (established.Some? && position < established.value)
      modifies this`node, this`established, mem`watermark
      ensures Valid() && (accepted <==> !(old(established).Some? && position < old(established).value))
      ensures accepted ==> established == Some(position) && WatermarkStep(old(node).world, node.world)
      ensures node == old(node).(world := node.world) && (!accepted ==> node == old(node))
    {
      accepted := !(established.Some? && position < established.value);
      if accepted {
        established := Some(position);
        var low := if mem.Empty() then Some(position) else mem.watermark.low;
        if mem.Empty() {
          mem.SetWatermarkBounds(position);
        } else {
          mem.SetWatermarkHigh(position);
        }
        var m := node.world.store.mem;
        Take(Marking, node.world.(store := node.world.store.(
          mem := m.(watermark := Watermark(low, Some(position))), established := Some(position))));
      }
    }

    /** One sealed memtable at a time, and nothing to seal in an empty one. */
    method Seal() returns (sealed: bool)
      requires Valid()
      modifies this`node, this`mem, this`imm
      ensures Valid() && (sealed <==> old(imm) == null && !old(mem.Empty())) && (sealed ==> fresh(mem))
      ensures if sealed then SealStep(old(node).world, node.world) else node == old(node)
      ensures node == old(node).(world := node.world)
    {
      sealed := imm == null && !mem.Empty();
      if sealed {
        Take(Sealing, node.world.(store := node.world.store.(
          imm := Some(node.world.store.mem), mem := FreshMem(node.world.store.established))));
        imm := mem;
        mem := new S.Memtable(established);
      }
    }

    /** The sealed memtable becomes the newest file of level 0. */
    method Flush(store: nat, bytes: nat, created: nat, sealed: nat) returns (file: Option<File>)
      requires Valid()
      modifies this`node, this`imm, engine`levels, engine`next
      ensures Valid() && imm == null && (file.Some? <==> old(imm) != null)
      ensures file.Some? ==> FlushOf(file.value, old(node).world.store.imm.value)
      ensures file.Some? ==> file.value.store == store && file.value.minTime == created && file.value.maxTime == sealed
      ensures node == if file.Some? then Landed(old(node), file.value) else old(node)
    {
      if imm == null {
        return None;
      }
      var f := imm.Flush(engine.next, store, bytes, created, sealed);
      LandingReached(node, f);
      node := Landed(node, f);
      engine.levels, engine.next := engine.levels[0 := [f] + engine.levels[0]], engine.next + 1;
      imm := null;
      return Some(f);
    }

    /**
     A crash that loses both memtables and the files in `dead`, and the opening that follows, with any number of
     levels. The position returned is where the embedder resumes.
     */
    method Reopen(dead: set<nat>, last: nat) returns (position: Option<nat>)
      requires Valid() && Heeds(node, Reopening(dead, last))
      modifies this
      ensures Valid() && node == Node(Padded(Reopened(old(node).world, dead), last), last, None)
      ensures fresh(engine) && fresh(mem) && position == established
      ensures node.world.cursor == if position.Some? then position.value else 0
      ensures Recovers(old(engine.levels), dead, old(floor), floor, position)
    {
      ReopenedRecovers(node.world, dead, last);
      position := Restart(dead, last);
    }

    method Restart(dead: set<nat>, last: nat) returns (position: Option<nat>)
      requires Valid() && Heeds(node, Reopening(dead, last))
      modifies this
      ensures Valid() && node == Node(Padded(Reopened(old(node).world, dead), last), last, None)
      ensures fresh(engine) && fresh(mem) && position == established
      ensures node.world.cursor == if position.Some? then position.value else 0
    {
      var levels, recorded, resume := Survey(node, engine.levels, dead, floor, last);
      position := resume;
      Reset(last, levels, recorded, position);
      node := Node(Padded(Reopened(node.world, dead), last), last, None);
    }

    method Reset(last: nat, levels: Levels, recorded: Option<Option<nat>>, position: Option<nat>)
      modifies this`engine, this`mem, this`imm, this`floor, this`established
      ensures fresh(engine) && engine.last == last && engine.levels == levels
      ensures engine.next == old(engine.next) && engine.truncation == old(engine.truncation)
      ensures fresh(mem) && mem.Valid() && mem.AsMem() == FreshMem(position) && imm == null
      ensures floor == recorded && established == position
    {
      engine := Opened(last, levels, engine.next, engine.truncation);
      mem := new S.Memtable(position);
      imm, floor, established := null, recorded, position;
    }

    /** What is left of the files, what is recorded of the loss, and where to resume. */
    static method Survey(ghost n: Node, levels: Levels, dead: set<nat>, floor: Option<Option<nat>>, last: nat)
      returns (levels': Levels, floor': Option<Option<nat>>, position: Option<nat>)
      requires Reached(n) && Heeds(n, Reopening(dead, last))
      requires levels == n.world.store.levels && floor == n.world.store.floor
      ensures Reached(Node(Padded(Reopened(n.world, dead), last), last, None)) && last < |levels'|
      ensures Reopens(n.world, Padded(Reopened(n.world, dead), last), levels', floor', position)
    {
      var lost, left := Select(Flat(levels), dead), Reject(Flat(levels), dead);
      floor' := FloorAfter(floor, lost);
      position := AdoptRecoveredWatermark(lost, left, floor');
      levels' := LevelsTo(RejectAll(levels, dead), last);
      StepReached(n, Node(Padded(Reopened(n.world, dead), last), last, None), Reopening(dead, last));
    }

    static method Opened(last: nat, levels: Levels, next: nat, truncation: Key) returns (e: Engine)
      ensures fresh(e) && e.last == last && e.levels == levels && e.next == next && e.truncation == truncation
    {
      e := new Engine(last);
      e.levels, e.next, e.truncation := levels, next, truncation;
    }

    /** One write of the log, as the embedder makes it again. */
    method Redo(write: Write, height: nat)
      requires Valid() && 1 <= height <= S.MAX_HEIGHT && Follows(write)
      modifies this`node, mem, engine`truncation
      ensures Valid() && node == old(node).(world := Wrote(old(node).world, write))
    {
      match write
      case PutKey(key, value) => var _ := Put(key, value, height);
      case RemoveKey(key) => var _ := Remove(key, height);
      case RemoveRange(lower, upper) => DeleteRange(lower, upper);
      case TruncateBelow(key) => Truncate(key);
      case Elsewhere => PassOver();
    }

    /** What is left of the log is `rest`, and no write of it reaches the empty key. */
    ghost predicate Ahead(rest: seq<Write>)
      reads this, engine
    {
      Remains(node.world, rest) && Spared(engine.truncation, rest)
    }

    /** The replay that a reopening asks for: everything of the log from the resumed position on. */
    method CatchUp(rest: seq<Write>, height: nat)
      requires Valid() && 1 <= height <= S.MAX_HEIGHT && Ahead(rest)
      modifies this`node, mem, engine`truncation
      ensures Valid() && node.world.log == old(node).world.log && node.world.cursor == |node.world.log|
      decreases rest
    {
      if rest != [] {
        OneFewer(node.world, rest);
        Redo(rest[0], height);
        CatchUp(rest[1..], height);
      }
    }

    method CompleteRecovery()
      requires Valid() && Heeds(node, Completing)
      modifies this`node, this`floor
      ensures Valid() && floor == None && CompleteStep(old(node).world, node.world)
      ensures node == old(node).(world := node.world)
    {
      Take(Completing, node.world.(store := node.world.store.(floor := None), below := false));
      floor := None;
    }

    /** Whatever has been done so far: with nothing left to replay, a get returns what the plain map holds. */
    method Get(k: Key) returns (value: Option<Value>)
      requires Valid()
      ensures value == Read(node.world.store, k)
      ensures node.world.cursor == |node.world.log| ==>
                value == OracleGet(Replay(node.world.log, |node.world.log|), k)
    {
      ReachedIsSound(node);
      value := R.Get(mem, imm, engine.levels, engine.truncation, k);
      if node.world.cursor == |node.world.log| {
        ReadsAreTheMap(k);
      }
    }

    // ---------- what the store does on its own ----------

    lemma IsPickable()
      requires Valid()
      ensures engine.Valid() && Pickable(engine.levels, engine.last)
    {
      ReachedIsSound(node);
    }

    /** Nothing the embedder sees changes: only the files do. */
    ghost method Arrive(path: seq<Point>)
      requires Reached(node) && node.job.None? && Tables() && engine.last == node.last
      requires engine.truncation == node.world.store.truncation
      requires Passed(path, engine.truncation, engine.last)
      requires path[0] == Point(node.world.store.levels, node.world.store.next)
      requires path[|path| - 1] == Point(engine.levels, engine.next)
      modifies this`node
      ensures Valid() && node == Now(old(node), engine.levels, engine.next)
    {
      PathReached(node, path, |path| - 1);
      node := Now(node, engine.levels, engine.next);
      ReachedIsSound(node);
    }

    ghost method ArriveByOne()
      requires Reached(node) && node.job.None? && Tables() && engine.last == node.last
      requires engine.truncation == node.world.store.truncation
      requires Task(node.world.store.levels, engine.levels, engine.truncation, node.world.store.next, engine.next,
               engine.last)
      modifies this`node
      ensures Valid() && node == Now(old(node), engine.levels, engine.next)
    {
      TaskReached(node, engine.levels, engine.next);
      node := Now(node, engine.levels, engine.next);
      ReachedIsSound(node);
    }

    method CompactOne(mayOverlap: seq<bool>, chosen: nat, pointer: Key, budget: nat, grandparentLimit: nat, store: nat)
      returns (worked: bool)
      requires Valid() && chosen < engine.last < |mayOverlap|
      modifies this`node, engine
      ensures Valid() && node == Now(old(node), engine.levels, engine.next)
      ensures worked == (old(engine.levels)[chosen] != [])
    {
      IsPickable();
      ghost var ran;
      worked, ran := engine.RunOneCompaction(mayOverlap, chosen, pointer, budget, grandparentLimit, store);
      if worked { ArriveByOne(); }
    }

    method CompactOffTier(mustLeave: set<nat>, store: nat) returns (worked: bool)
      requires Valid()
      modifies this`node, engine
      ensures Valid() && node == Now(old(node), engine.levels, engine.next)
    {
      IsPickable();
      ghost var picked;
      worked, picked := engine.CompactOffTier(mustLeave, store);
      if worked { ArriveByOne(); }
    }

    /** `compact_level`, at a level above the last or at the last of several. */
    method CompactLevel(level: nat, settled: set<nat>, store: nat)
      requires Valid() && level <= engine.last && engine.last >= 1
      modifies this`node, engine
      ensures Valid() && node == Now(old(node), engine.levels, engine.next)
      ensures level < engine.last ==> engine.levels[level] == []
      ensures level == engine.last ==> forall f :: f in engine.levels[level] ==> NumTombstones(f.entries) == 0
    {
      IsPickable();
      ghost var path;
      if level < engine.last {
        path := engine.CompactLevel(level, store);
      } else {
        path := engine.CompactLastLevel(settled, store);
      }
      Arrive(path);
    }

    method Migrate(level: nat, f: File, target: nat)
      requires Valid() && 0 < level < |engine.levels| && f in engine.levels[level]
      modifies this`node, engine
      ensures Valid() && node == Now(old(node), engine.levels, engine.next)
    {
      IsPickable();
      engine.RunMigration(level, f, target);
      if target != f.store { ArriveByOne(); }
    }

    /** Picking and moving between tiers until everything is at rest. */
    method SettleTiers(ts: Tiers, now: nat)
      requires Valid() && ts.tiers != [] && JitterFits(ts) && DistinctStores(ts.tiers)
      modifies this`node, engine
      ensures Valid() && node == Now(old(node), engine.levels, engine.next)
      ensures Settled(engine.levels, ts, now)
    {
      IsPickable();
      ghost var path := Settle(engine, ts, now);
      Arrive(path);
    }

    method Reencrypt(stale: set<nat>) returns (worked: bool)
      requires Valid()
      modifies this`node, engine
      ensures Valid() && node == Now(old(node), engine.levels, engine.next)
    {
      IsPickable();
      worked := engine.RunReencryption(stale);
      if worked { ArriveByOne(); }
    }

    method Reclaim() returns (worked: bool)
      requires Valid()
      modifies this`node, engine
      ensures Valid() && node == Now(old(node), engine.levels, engine.next)
    {
      IsPickable();
      worked := engine.ReclaimDeadFiles();
      ArriveByOne();
    }

    lemma ReadsAreTheMap(k: Key)
      requires Valid() && node.world.cursor == |node.world.log|
      ensures Read(node.world.store, k) == OracleGet(Replay(node.world.log, |node.world.log|), k)
    {
      var ns :| Run(ns) && ns[|ns| - 1] == node;
      StoreIsTheMap(ns, |ns| - 1, k);
    }
  }

  function LevelsTo(levels: Levels, last: nat): (padded: Levels)
    ensures last < |padded|
  {
    if last < |levels| then levels else levels + Empties(last + 1 - |levels|)
  }

  /** A reopened world: fresh memtables from the position on, and the truncation point and counter as they were. */
  ghost predicate Reopens(w: World, w': World, levels: Levels, floor: Option<Option<nat>>, position: Option<nat>) {
    && w'.store == Store(FreshMem(position), None, levels, w.store.truncation, floor, position, w.store.next)
    && w'.cursor == if position.Some? then position.value else 0
  }

  lemma ReopenedRecovers(w: World, dead: set<nat>, last: nat)
    ensures var s := Padded(Reopened(w, dead), last).store;
            Recovers(w.store.levels, dead, w.store.floor, s.floor, s.established)
  {
    var lost, left := Select(Flat(w.store.levels), dead), Reject(Flat(w.store.levels), dead);
    FloorExactly(w.store.floor, lost);
    ResumeExactly(w.store.floor, lost, left);
  }

  lemma LandingReached(n: Node, f: File)
    requires Reached(n) && n.world.store.levels != [] && n.world.store.imm.Some?
    requires FlushOf(f, n.world.store.imm.value) && f.number == n.world.store.next
    ensures Reached(Landed(n, f))
  {
    ReachedIsSound(n);
    NextIsNewest(n.world.store.levels, n.world.store.next, f);
    StepReached(n, Landed(n, f), Flushing(f));
  }

  lemma NextIsNewest(levels: Levels, next: nat, f: File)
    requires Numbered(levels, next) && levels != [] && f.number == next
    ensures Newest(levels, f)
  {
    assert forall g :: g in levels[0] ==> Holding(levels, g);
  }
}

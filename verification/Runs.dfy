module Runs {
  /**
   Every run of a store, and the two promises that hold of all of them.

   A node is a world, the number of configured levels, and what the one background task in progress has
   decided. A task decides on one version and installs its edit later; writes, watermarks, seals and flushes
   go on in between. What the tasks decide is proved sound of a store the picker can represent (`Pickable`).
   Of any other store nothing is known, so there a decision is arbitrary, and it is for the run to show that
   it never gets there.

   `Heeds` is what the embedder must see to, and all of it can be seen before the call: no write reaches the
   empty key, a reopening configures every level that holds files and is not `Uncertifiable`, and a recovery
   is declared complete only once `Discharged`.
   */

  import opened Keys
  import opened Version
  import opened Tasks
  import opened Picker
  import opened Compactor
  import opened Store
  import opened Recovery

  datatype Node = Node(world: World, last: nat, job: Option<Job>)

  datatype Step =
    | Writing(write: Write)
    | Marking
    | Sealing
    | Flushing(file: File)
    | Deciding(job: Job)
    | Installing
    | Abandoning
    | Reopening(dead: set<nat>, last: nat)
    | Completing

  function Empties(n: nat): Levels {
    seq(n, i => [])
  }

  /** A configured level that has never held a file is there and empty. */
  function Padded(w: World, last: nat): World {
    if last < |w.store.levels| then w
    else w.(store := w.store.(levels := w.store.levels + Empties(last + 1 - |w.store.levels|)))
  }

  /** A task looks at the current version; only what it decides of a pickable store is known to be sound. */
  ghost predicate Decides(n: Node, job: Job) {
    && n.job.None? && JobWithin(job, n.last)
    && (Pickable(n.world.store.levels, n.last) ==> Ready(n.world.store.levels, n.world.store.truncation, job))
  }

  /** Its edit, as the version is by then. */
  ghost predicate Replaces(w: World, w': World, job: Job) {
    && w' == w.(store := w.store.(levels := w'.store.levels, next := w'.store.next))
    && (Ready(w.store.levels, w.store.truncation, job) ==>
          Installs(w.store.levels, w'.store.levels, w.store.next, w'.store.next, job))
  }

  ghost predicate Taken(n: Node, n': Node, step: Step) {
    match step
    case Writing(write) => WriteStep(n.world, n'.world, write) && n' == n.(world := n'.world)
    case Marking => WatermarkStep(n.world, n'.world) && n' == n.(world := n'.world)
    case Sealing => SealStep(n.world, n'.world) && n' == n.(world := n'.world)
    case Flushing(f) => FlushStep(n.world, n'.world, f) && n' == n.(world := n'.world)
    case Deciding(job) => Decides(n, job) && n' == n.(job := Some(job))
    case Installing => n.job.Some? && Replaces(n.world, n'.world, n.job.value) && n' == Node(n'.world, n.last, None)
    case Abandoning => n' == n.(job := None)
    case Reopening(dead, last) => n' == Node(Padded(Reopened(n.world, dead), last), last, None)
    case Completing => CompleteStep(n.world, n'.world) && n' == n.(world := n'.world)
  }

  /** Whether a write leaves the empty key alone; one that a truncation refuses or clips does. */
  predicate SparesEmptyKey(truncation: Key, write: Write) {
    truncation != EMPTY_KEY || write.TruncateBelow? || !Touching(write, EMPTY_KEY)
  }

  predicate Heeds(n: Node, step: Step) {
    match step
    case Writing(write) => SparesEmptyKey(n.world.store.truncation, write)
    case Reopening(dead, last) =>
      && !Uncertifiable(n.world, dead)
      && forall i :: last < i < |n.world.store.levels| ==> Reject(n.world.store.levels[i], dead) == []
    case Completing => Discharged(n.world)
    case _ => true
  }

  ghost predicate Next(n: Node, n': Node) {
    exists step :: Taken(n, n', step) && Heeds(n, step)
  }

  ghost predicate Start(n: Node) {
    Init(n.world) && n.last < |n.world.store.levels| && n.job.None?
  }

  // ---------- what every step keeps ----------

  /** Nothing the memtables or the files say is about the empty key. */
  ghost predicate SpareStore(s: Store, last: nat) {
    && Pickable(s.levels, last)
    && MemView(s.mem, EMPTY_KEY) == None && (s.imm.Some? ==> MemView(s.imm.value, EMPTY_KEY) == None)
  }

  ghost predicate Sound(n: Node) {
    && Inv(n.world) && SpareStore(n.world.store, n.last)
    && (n.job.Some? ==> JobWithin(n.job.value, n.last)
                        && Ready(n.world.store.levels, n.world.store.truncation, n.job.value))
  }

  lemma SparedWrite(s: Store, write: Write)
    requires MemView(s.mem, EMPTY_KEY) == None && SparesEmptyKey(s.truncation, write)
    ensures MemView(Accept(s, write).mem, EMPTY_KEY) == None
  {
    if write.RemoveRange? {
      DeleteRangeView(s.mem, if write.lower < s.truncation then s.truncation else write.lower, write.upper, EMPTY_KEY);
    }
  }

  lemma WritingKeeps(n: Node, n': Node, write: Write)
    requires Sound(n) && Taken(n, n', Writing(write)) && Heeds(n, Writing(write))
    ensures Sound(n')
  {
    WritePreserves(n.world, n'.world, write);
    SparedWrite(n.world.store, write);
    if n.job.Some? {
      ReadyLater(n.world.store.levels, n.world.store.truncation, n'.world.store.truncation, n.job.value);
    }
  }

  /** A file that does not speak about the empty key does not start there. */
  lemma SparedFile(f: File)
    requires ValidFile(f) && View(f, EMPTY_KEY) == None
    ensures EffectiveSmallest(f) != EMPTY_KEY
  {
    SmallestIsTouched(f);
  }

  lemma FlushingKeeps(n: Node, n': Node, f: File)
    requires Sound(n) && Taken(n, n', Flushing(f))
    ensures Sound(n')
  {
    var s := n.world.store;
    FlushPreserves(n.world, n'.world, f);
    SparedFile(f);
    assert NoEmptyLow(s.levels[0]);
    assert NoEmptyLow([f] + s.levels[0]);
    if n.job.Some? {
      ReadySurvives(s.levels, s.truncation, s.truncation, n.job.value, f);
    }
  }

  lemma InstallingKeeps(n: Node, n': Node)
    requires Sound(n) && Taken(n, n', Installing)
    ensures Sound(n')
  {
    var s, s' := n.world.store, n'.world.store;
    var job := n.job.value;
    InstallPreserves(n.world, n'.world, job);
    assert Task(s.levels, s'.levels, s.truncation, s.next, s'.next, n.last);
    TaskRearranges(s.levels, s'.levels, s.truncation, s.next, s'.next, n.last);
    PickableKept(s.levels, s'.levels, s.truncation, s.next, s'.next, n.last);
  }

  // ---------- reopening with another number of levels ----------

  lemma {:induction false} FlatPadded(levels: Levels, n: nat)
    ensures Flat(levels + Empties(n)) == Flat(levels)
    decreases |levels|, n
  {
    if levels != [] {
      assert (levels + Empties(n))[1..] == levels[1..] + Empties(n);
      FlatPadded(levels[1..], n);
    } else if n > 0 {
      assert levels + Empties(n) == [[]] + Empties(n - 1) && ([[]] + Empties(n - 1))[1..] == levels + Empties(n - 1);
      FlatPadded(levels, n - 1);
    }
  }

  lemma WalkPadded(levels: Levels, n: nat, k: Key)
    ensures WalkLevels(levels + Empties(n), k) == WalkLevels(levels, k)
  {
    WalkLevelsConcat(levels, Empties(n), k);
    WalkLevelsSilent(Empties(n), k);
  }

  lemma HoldingPadded(levels: Levels, n: nat)
    ensures forall f :: Holding(levels + Empties(n), f) <==> Holding(levels, f)
  {
    var more := levels + Empties(n);
    forall f
      ensures Holding(more, f) <==> Holding(levels, f)
    {
      if i :| 0 <= i < |levels| && f in levels[i] {
        assert f in more[i];
      }
      if i :| 0 <= i < |more| && f in more[i] {
        assert i < |levels| && f in levels[i];
      }
    }
  }

  lemma PaddedLevels(levels: Levels, n: nat, next: nat)
    requires ValidLevels(levels) && Numbered(levels, next)
    ensures ValidLevels(levels + Empties(n)) && Numbered(levels + Empties(n), next)
  {
    var more := levels + Empties(n);
    HoldingPadded(levels, n);
    forall i | 0 <= i < |more|
      ensures ValidLevel(i, more[i])
    {
      assert i < |levels| ==> ValidLevel(i, levels[i]) && more[i] == levels[i];
    }
    forall i, j, f | 0 <= i < j < |more| && f in more[i]
      ensures f !in more[j]
    {
      assert i < |levels| && f in levels[i];
    }
  }

  lemma PaddedAgrees(ms: seq<Mem>, levels: Levels, n: nat, truncation: Key, log: seq<Write>, r: nat)
    requires Agrees(ms, levels, truncation, log, r)
    ensures Agrees(ms, levels + Empties(n), truncation, log, r)
  {
    forall k: Key
      ensures Visible(ms, levels + Empties(n), truncation, k) == Visible(ms, levels, truncation, k)
    {
      WalkPadded(levels, n, k);
    }
    AgreesAlike(ms, ms, levels, levels + Empties(n), truncation, log, r);
  }

  lemma PaddedImm(w: World, n: nat)
    requires ImmSound(w)
    ensures ImmSound(w.(store := w.store.(levels := w.store.levels + Empties(n))))
  {
    var s := w.store;
    if s.imm.Some? && s.imm.value.watermark.high.Some? {
      PaddedAgrees([s.imm.value], s.levels, n, s.truncation, w.log, s.imm.value.watermark.high.value);
    }
  }

  lemma PaddedCertificate(w: World, n: nat)
    requires CertificateSound(w)
    ensures CertificateSound(w.(store := w.store.(levels := w.store.levels + Empties(n))))
  {
    FlatPadded(w.store.levels, n);
    if Certified(w).Some? {
      PaddedAgrees([], w.store.levels, n, w.store.truncation, w.log, Certified(w).value);
    }
  }

  lemma PaddedFiles(levels: Levels, n: nat, log: seq<Write>)
    requires FilesSound(levels, log)
    ensures FilesSound(levels + Empties(n), log)
  {
    HoldingPadded(levels, n);
  }

  lemma PaddedKeeps(w: World, last: nat)
    requires Inv(w)
    ensures Inv(Padded(w, last))
  {
    var s := w.store;
    if last >= |s.levels| {
      var n := last + 1 - |s.levels|;
      PaddedLevels(s.levels, n, s.next);
      PaddedFiles(s.levels, n, w.log);
      PaddedAgrees([s.mem] + Frozen(s), s.levels, n, s.truncation, w.log, w.cursor);
      PaddedImm(w, n);
      PaddedCertificate(w, n);
    }
  }

  lemma ReopenedPickable(levels: Levels, dead: set<nat>, last: nat, last': nat)
    requires Pickable(levels, last) && forall i :: last' < i < |levels| ==> Reject(levels[i], dead) == []
    ensures NoEmptyKeys(RejectAll(levels, dead))
    ensures last' < |levels| ==> Pickable(RejectAll(levels, dead), last')
    ensures last' >= |levels| ==> Pickable(RejectAll(levels, dead) + Empties(last' + 1 - |levels|), last')
  {
    forall i | 0 <= i < |levels|
      ensures NoEmptyLow(RejectAll(levels, dead)[i])
    {
      assert NoEmptyLow(levels[i]);
      SelectMembers(levels[i], dead);
    }
  }

  lemma ReopeningKeeps(n: Node, n': Node, dead: set<nat>, last: nat)
    requires Sound(n) && Taken(n, n', Reopening(dead, last)) && Heeds(n, Reopening(dead, last))
    ensures Sound(n')
  {
    ReopenPreserves(n.world, dead);
    PaddedKeeps(Reopened(n.world, dead), last);
    ReopenedPickable(n.world.store.levels, dead, n.last, last);
  }

  // ---------- every run ----------

  lemma StartIsSound(n: Node)
    requires Start(n)
    ensures Sound(n)
  {
    InitHolds(n.world);
  }

  lemma StepKeeps(n: Node, n': Node, step: Step)
    requires Sound(n) && Taken(n, n', step) && Heeds(n, step)
    ensures Sound(n')
  {
    match step
    case Writing(write) => WritingKeeps(n, n', write);
    case Marking => WatermarkPreserves(n.world, n'.world);
    case Sealing => SealPreserves(n.world, n'.world);
    case Flushing(f) => FlushingKeeps(n, n', f);
    case Deciding(job) =>
    case Installing => InstallingKeeps(n, n');
    case Abandoning =>
    case Reopening(dead, last) => ReopeningKeeps(n, n', dead, last);
    case Completing => CompletePreserves(n.world, n'.world);
  }

  ghost predicate StepAt(ns: seq<Node>, i: nat) {
    0 < i < |ns| && Next(ns[i - 1], ns[i])
  }

  /** Every consecutive pair of nodes is one step. */
  ghost predicate Run(ns: seq<Node>) {
    ns != [] && Start(ns[0]) && forall i: nat :: 0 < i < |ns| ==> StepAt(ns, i)
  }

  /** At every point of every run the picker can represent the store, so every decision is sound. */
  lemma {:induction false} RunKeeps(ns: seq<Node>, i: nat)
    requires Run(ns) && i < |ns|
    ensures Sound(ns[i])
  {
    if i == 0 {
      StartIsSound(ns[0]);
    } else {
      RunKeeps(ns, i - 1);
      assert StepAt(ns, i);
      var step :| Taken(ns[i - 1], ns[i], step) && Heeds(ns[i - 1], step);
      StepKeeps(ns[i - 1], ns[i], step);
    }
  }

  /**
   In every run, whatever background work happened in between and whatever was lost and replayed along
   the way, a store that has nothing left to replay reads exactly as the plain map does.
   */
  lemma StoreIsTheMap(ns: seq<Node>, i: nat, k: Key)
    requires Run(ns) && i < |ns| && ns[i].world.cursor == |ns[i].world.log|
    ensures Read(ns[i].world.store, k) == OracleGet(Replay(ns[i].world.log, |ns[i].world.log|), k)
  {
    RunKeeps(ns, i);
    assert Quiet(ns[i].world.log, ns[i].world.cursor, k);
  }

  /**
   The resume guarantee. At any point of any run, lose both memtables and any set of files and reopen:
   replaying only the positions after the reported one gives the state of replaying the whole log.
   */
  lemma ResumeGuarantee(ns: seq<Node>, i: nat, dead: set<nat>, last: nat, k: Key)
    requires Run(ns) && i < |ns| && Heeds(ns[i], Reopening(dead, last))
    ensures var reopened := Padded(Reopened(ns[i].world, dead), last);
            && reopened.cursor <= |reopened.log|
            && reopened.cursor == (if reopened.store.established.Some? then reopened.store.established.value else 0)
            && Read(AcceptFrom(reopened.store, reopened.log, reopened.cursor), k)
               == OracleGet(Replay(ns[i].world.log, |ns[i].world.log|), k)
  {
    RunKeeps(ns, i);
    ReopenPreserves(ns[i].world, dead);
    PaddedKeeps(Reopened(ns[i].world, dead), last);
    ReplayingReachesTheMap(Padded(Reopened(ns[i].world, dead), last), k);
  }

  // ---------- reaching a node ----------

  ghost predicate Reached(n: Node) {
    exists ns :: Run(ns) && ns[|ns| - 1] == n
  }

  lemma StartReached(n: Node)
    requires Start(n)
    ensures Reached(n)
  {
    assert Run([n]) && [n][|[n]| - 1] == n;
  }

  lemma StepReached(n: Node, n': Node, step: Step)
    requires Reached(n) && Taken(n, n', step) && Heeds(n, step)
    ensures Reached(n')
  {
    var ns :| Run(ns) && ns[|ns| - 1] == n;
    var more := ns + [n'];
    forall i: nat | 0 < i < |more|
      ensures StepAt(more, i)
    {
      if i < |ns| {
        assert StepAt(ns, i);
      }
    }
    assert Run(more) && more[|more| - 1] == n';
  }

  lemma ReachedIsSound(n: Node)
    requires Reached(n)
    ensures Sound(n)
  {
    var ns :| Run(ns) && ns[|ns| - 1] == n;
    RunKeeps(ns, |ns| - 1);
  }

  function Now(n: Node, levels: Levels, next: nat): Node {
    n.(world := n.world.(store := n.world.store.(levels := levels, next := next)))
  }

  /** A task that nothing came between is two steps of the run: it decides, and it installs. */
  lemma TaskReached(n: Node, levels: Levels, next: nat)
    requires Reached(n) && n.job.None?
    requires Task(n.world.store.levels, levels, n.world.store.truncation, n.world.store.next, next, n.last)
    ensures Reached(Now(n, levels, next))
  {
    var s := n.world.store;
    var job :| JobWithin(job, n.last) && Ready(s.levels, s.truncation, job)
      && Installs(s.levels, levels, s.next, next, job);
    var deciding := n.(job := Some(job));
    StepReached(n, deciding, Deciding(job));
    StepReached(deciding, Now(n, levels, next), Installing);
  }

  /** And so is a whole pass of them. */
  lemma {:induction false} PathReached(n: Node, path: seq<Point>, i: nat)
    requires Reached(n) && n.job.None? && Passed(path, n.world.store.truncation, n.last) && i < |path|
    requires path[0] == Point(n.world.store.levels, n.world.store.next)
    ensures Reached(Now(n, path[i].levels, path[i].next))
  {
    if i == 0 {
      assert Now(n, path[0].levels, path[0].next) == n;
    } else {
      PathReached(n, path, i - 1);
      assert TaskAt(path, i, n.world.store.truncation, n.last);
      TaskReached(Now(n, path[i - 1].levels, path[i - 1].next), path[i].levels, path[i].next);
    }
  }
}

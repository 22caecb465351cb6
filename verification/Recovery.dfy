module Recovery {
  /**
   Every run: writes, watermarks, flushes, background tasks, losses and reopenings.

   A world is a store, the embedder's log, and how far into it the embedder has (re)played. One relation
   carries both promises. `Agrees(r)` says that every key no logged write after position `r` touches reads
   as replaying the first `r` writes would have it. With nothing left to replay it is equality with the
   plain map; right after a reopening it is the resume guarantee.
   */

  import opened Keys
  import opened Version
  import opened Tasks
  import opened Store

  /** No logged write after position `r` touches `k`. */
  predicate Quiet(log: seq<Write>, r: nat, k: Key) {
    forall i :: r <= i < |log| ==> !Touching(log[i], k)
  }

  ghost predicate Agrees(ms: seq<Mem>, levels: Levels, truncation: Key, log: seq<Write>, r: nat) {
    r <= |log|
    && forall k: Key :: Quiet(log, r, k) ==> Visible(ms, levels, truncation, k) == OracleGet(Replay(log, r), k)
  }

  /** Everything `m` says, some logged write after `r` said. */
  ghost predicate MemAbove(m: Mem, log: seq<Write>, r: nat) {
    forall k: Key :: MemView(m, k).Some? ==> !Quiet(log, r, k)
  }

  ghost predicate FileAbove(f: File, log: seq<Write>, r: nat) {
    forall k: Key :: Touches(f, k) ==> !Quiet(log, r, k)
  }

  lemma {:induction false} QuietReplay(log: seq<Write>, r: nat, n: nat, k: Key)
    requires r <= n <= |log| && Quiet(log, r, k)
    ensures OracleGet(Replay(log, n), k) == OracleGet(Replay(log, r), k)
    decreases n
  {
    if r < n {
      QuietReplay(log, r, n - 1, k);
      ApplyKeepsOthers(Replay(log, n - 1), log[n - 1], k);
    }
  }

  /** Agreement at a position is agreement at every earlier one. */
  lemma AgreesEarlier(ms: seq<Mem>, levels: Levels, truncation: Key, log: seq<Write>, r: nat, n: nat)
    requires Agrees(ms, levels, truncation, log, n) && r <= n
    ensures Agrees(ms, levels, truncation, log, r)
  {
    forall k: Key | Quiet(log, r, k)
      ensures Visible(ms, levels, truncation, k) == OracleGet(Replay(log, r), k)
    {
      assert Quiet(log, n, k);
      QuietReplay(log, r, n, k);
    }
  }

  // ---------- where a reopening resumes ----------

  /** `max(high)` over the files, as recovery folds it over the survivors. */
  function MaxHigh(files: seq<File>): Option<nat> {
    if files == [] then None
    else
      var rest := MaxHigh(files[1..]);
      var high := files[0].watermark.high;
      if high.None? then rest else if rest.None? then high else Some(Max(high.value, rest.value))
  }

  /** `min(low)` over the discarded files, absent as soon as one of them has none. */
  function MinLow(files: seq<File>): Option<nat>
    requires files != []
  {
    var low := files[0].watermark.low;
    if |files| == 1 || low.None? then low
    else
      var rest := MinLow(files[1..]);
      if rest.None? then None else Some(Min(low.value, rest.value))
  }

  lemma {:induction false} MaxHighIs(files: seq<File>)
    ensures MaxHigh(files).Some? ==> exists f :: f in files && f.watermark.high == MaxHigh(files)
    ensures forall f :: f in files && f.watermark.high.Some? ==>
              MaxHigh(files).Some? && f.watermark.high.value <= MaxHigh(files).value
  {
    if files != [] {
      MaxHighIs(files[1..]);
      assert files[0] in files;
      assert forall f :: f in files <==> f == files[0] || f in files[1..];
    }
  }

  lemma {:induction false} MinLowIs(files: seq<File>)
    requires files != []
    ensures MinLow(files).Some? ==> exists f :: f in files && f.watermark.low == MinLow(files)
    ensures MinLow(files).Some? ==> forall f :: f in files ==> MinLow(files).value <= LowBound(f.watermark)
    ensures MinLow(files).Some? <==> forall f :: f in files ==> f.watermark.low.Some?
  {
    assert files[0] in files;
    if |files| > 1 {
      MinLowIs(files[1..]);
      assert forall f :: f in files <==> f == files[0] || f in files[1..];
    } else {
      assert forall f :: f in files <==> f == files[0];
    }
  }

  /** Lowering a recorded floor; nothing certifiable stays nothing certifiable. */
  function LowerTo(position: Option<nat>, bound: Option<nat>): Option<nat> {
    if position.None? || bound.None? then None else Some(Min(position.value, bound.value))
  }

  /** The floor a reopening leaves: lowered, in the same edit, by what it discards. */
  function FloorAfter(floor: Option<Option<nat>>, lost: seq<File>): Option<Option<nat>> {
    if lost == [] then floor
    else if floor.None? then Some(MinLow(lost))
    else Some(LowerTo(floor.value, MinLow(lost)))
  }

  /** The position to resume strictly after; absent means replay from the beginning. */
  function ResumeAfter(lost: seq<File>, survivors: seq<File>, floor: Option<Option<nat>>): Option<nat> {
    var rule := if lost != [] then MinLow(lost) else MaxHigh(survivors);
    if floor.None? then rule
    else if floor.value.None? then None
    else if rule.Some? then Some(Min(rule.value, floor.value.value))
    else floor.value
  }

  // ---------- neither too high nor needlessly low ----------

  /** A position no loss recorded before and no file lost now speaks against. */
  predicate Survives(p: nat, floor: Option<Option<nat>>, lost: seq<File>) {
    && (floor.Some? && floor.value.Some? ==> p <= floor.value.value)
    && forall f :: f in lost && f.watermark.low.Some? ==> p <= f.watermark.low.value
  }

  /** Something is gone of which no position is known: all of the log has to be replayed. */
  predicate Bottomless(floor: Option<Option<nat>>, lost: seq<File>) {
    floor == Some(None) || exists f :: f in lost && f.watermark.low.None?
  }

  ghost predicate Highest(p: nat, floor: Option<Option<nat>>, lost: seq<File>) {
    Survives(p, floor, lost) && forall q: nat :: Survives(q, floor, lost) ==> q <= p
  }

  /** What a reopening records after losing files: nothing certifiable, or the greatest position that survives. */
  ghost predicate Floored(before: Option<Option<nat>>, lost: seq<File>, after: Option<Option<nat>>) {
    if lost == [] then after == before
    else
      && after.Some? && (after.value.None? <==> Bottomless(before, lost))
      && (after.value.Some? ==> Highest(after.value.value, before, lost))
  }

  predicate SomeReaches(files: seq<File>, p: nat) {
    exists f :: f in files && f.watermark.high.Some? && p <= f.watermark.high.value
  }

  predicate SomeBound(files: seq<File>) {
    exists f :: f in files && f.watermark.high.Some?
  }

  /**
   Where the embedder resumes: after a loss, at what is recorded of it; with nothing lost, at the greatest upper
   bound, held back by a recorded floor.
   */
  ghost predicate Resumes(floor: Option<Option<nat>>, lost: seq<File>, left: seq<File>, position: Option<nat>) {
    if lost != [] then
      && (position.None? <==> Bottomless(floor, lost))
      && (position.Some? ==> Highest(position.value, floor, lost))
    else if floor == Some(None) then position == None
    else if !SomeBound(left) then position == if floor.Some? then floor.value else None
    else
      && position.Some? && SomeReaches(left, position.value) && Survives(position.value, floor, [])
      && forall q: nat :: SomeReaches(left, q) && Survives(q, floor, []) ==> q <= position.value
  }

  /** Both, for the files in `dead` out of all there were. */
  ghost predicate Recovers(levels: Levels, dead: set<nat>, floor: Option<Option<nat>>, floor': Option<Option<nat>>,
                           position: Option<nat>)
  {
    var lost, left := Select(Flat(levels), dead), Reject(Flat(levels), dead);
    Floored(floor, lost, floor') && Resumes(floor, lost, left, position)
  }

  lemma LowestSurvives(floor: Option<Option<nat>>, lost: seq<File>)
    requires lost != []
    ensures Bottomless(floor, lost) <==> floor == Some(None) || MinLow(lost).None?
    ensures !Bottomless(floor, lost) ==>
              Highest(if floor.None? then MinLow(lost).value else Min(floor.value.value, MinLow(lost).value),
                      floor, lost)
  {
    MinLowIs(lost);
    if !Bottomless(floor, lost) {
      var low := MinLow(lost).value;
      forall q: nat | Survives(q, floor, lost)
        ensures q <= low
      {
        var f :| f in lost && f.watermark.low == Some(low);
      }
    }
  }

  lemma FloorExactly(floor: Option<Option<nat>>, lost: seq<File>)
    ensures Floored(floor, lost, FloorAfter(floor, lost))
  {
    if lost != [] {
      LowestSurvives(floor, lost);
    }
  }

  /** The position a reopening reports is the greatest that is certified by what is left and by what is recorded. */
  lemma ResumeExactly(floor: Option<Option<nat>>, lost: seq<File>, left: seq<File>)
    ensures Resumes(floor, lost, left, ResumeAfter(lost, left, FloorAfter(floor, lost)))
  {
    if lost != [] {
      LowestSurvives(floor, lost);
    } else {
      MaxHighIs(left);
      var position := ResumeAfter(lost, left, floor);
      if floor != Some(None) && SomeBound(left) {
        var top :| top in left && top.watermark.high == MaxHigh(left);
        assert SomeReaches(left, position.value);
        forall q: nat | SomeReaches(left, q)
          ensures q <= MaxHigh(left).value
        {
          var f :| f in left && f.watermark.high.Some? && q <= f.watermark.high.value;
        }
      }
    }
  }

  // ---------- worlds ----------

  /** `below` records that the last reopening resumed below a recorded floor. */
  datatype World = World(store: Store, log: seq<Write>, cursor: nat, below: bool)

  /** The position the files alone are certified through. */
  function Certified(w: World): Option<nat> {
    var high := MaxHigh(Flat(w.store.levels));
    if w.store.floor.None? then high
    else if w.store.floor.value.None? then None
    else if !w.below then w.store.floor.value
    else if high.None? then None
    else Some(Min(high.value, w.store.floor.value.value))
  }

  ghost predicate TruncationLogged(w: World)
    requires w.cursor <= |w.log|
  {
    && Replay(w.log, w.cursor).floor <= w.store.truncation
    && (w.store.truncation == EMPTY_KEY || TruncateBelow(w.store.truncation) in w.log)
  }

  ghost predicate FilesSound(levels: Levels, log: seq<Write>) {
    && OrderedBounds(levels)
    && (forall f :: Holding(levels, f) ==> FileAbove(f, log, LowBound(f.watermark)))
    && (forall f :: Holding(levels, f) && f.watermark.high.Some? ==> f.watermark.high.value <= |log|)
  }

  predicate BoundsOrdered(b: Watermark) {
    b.low.Some? ==> b.high.Some? && b.low.value <= b.high.value
  }

  ghost predicate MemSound(w: World) {
    var m := w.store.mem;
    && m.watermark.high == w.store.established
    && (w.store.established.Some? ==> w.store.established.value <= w.cursor)
    && BoundsOrdered(m.watermark)
    && MemAbove(m, w.log, LowBound(m.watermark))
  }

  ghost predicate ImmSound(w: World) {
    w.store.imm.Some? ==>
      var i := w.store.imm.value;
      && BoundsOrdered(i.watermark)
      && MemAbove(i, w.log, LowBound(i.watermark))
      && (i.watermark.high.Some? ==>
            && i.watermark.high.value <= w.cursor
            && Agrees([i], w.store.levels, w.store.truncation, w.log, i.watermark.high.value)
            && MemAbove(w.store.mem, w.log, i.watermark.high.value))
  }

  ghost predicate CertificateSound(w: World) {
    Certified(w).Some? ==>
      var r := Certified(w).value;
      && r <= w.cursor
      && Agrees([], w.store.levels, w.store.truncation, w.log, r)
      && MemAbove(w.store.mem, w.log, r)
      && (w.store.imm.Some? ==> MemAbove(w.store.imm.value, w.log, r))
  }

  ghost predicate Inv(w: World) {
    && w.cursor <= |w.log|
    && ValidLevels(w.store.levels) && Numbered(w.store.levels, w.store.next)
    && TruncationLogged(w)
    && FilesSound(w.store.levels, w.log)
    && MemSound(w) && ImmSound(w)
    && Agrees([w.store.mem] + Frozen(w.store), w.store.levels, w.store.truncation, w.log, w.cursor)
    && CertificateSound(w)
  }

  // ---------- steps ----------

  /** The next write: a new one, or while replaying the one the log already holds here. */
  ghost predicate WriteStep(w: World, w': World, write: Write) {
    && (if w.cursor < |w.log| then write == w.log[w.cursor] && w'.log == w.log else w'.log == w.log + [write])
    && w' == World(Accept(w.store, write), w'.log, w.cursor + 1, w.below)
  }

  /** `set_watermark`: both bounds move while the memtable is empty, only the upper one after. */
  ghost predicate WatermarkStep(w: World, w': World) {
    var m := w.store.mem;
    var low := if MemEmpty(m) then Some(w.cursor) else m.watermark.low;
    w' == w.(store := w.store.(
      mem := m.(watermark := Watermark(low, Some(w.cursor))),
      established := Some(w.cursor)))
  }

  ghost predicate SealStep(w: World, w': World) {
    && w.store.imm.None? && !MemEmpty(w.store.mem)
    && w' == w.(store := w.store.(imm := Some(w.store.mem), mem := FreshMem(w.store.established)))
  }

  /** A flush adds one file in front of level 0, under a number taken before or after others took theirs. */
  ghost predicate FlushStep(w: World, w': World, f: File) {
    && w.store.imm.Some? && FlushOf(f, w.store.imm.value) && Newest(w.store.levels, f)
    && w.store.next <= w'.store.next && f.number < w'.store.next
    && w' == w.(store := w.store.(
         imm := None,
         levels := w.store.levels[0 := [f] + w.store.levels[0]],
         next := w'.store.next))
  }

  /** The edit of a background task that is still sound to install. */
  ghost predicate InstallStep(w: World, w': World, job: Job) {
    && Ready(w.store.levels, w.store.truncation, job)
    && Installs(w.store.levels, w'.store.levels, w.store.next, w'.store.next, job)
    && w' == w.(store := w.store.(levels := w'.store.levels, next := w'.store.next))
  }

  /** A crash that loses both memtables and the files in `dead`, and the recovery that follows. */
  function Reopened(w: World, dead: set<nat>): World {
    var all := Flat(w.store.levels);
    var lost, left := Select(all, dead), Reject(all, dead);
    var floor := FloorAfter(w.store.floor, lost);
    var resume := ResumeAfter(lost, left, floor);
    World(
      Store(FreshMem(resume), None, RejectAll(w.store.levels, dead), w.store.truncation, floor, resume, w.store.next),
      w.log,
      if resume.Some? then resume.value else 0,
      floor.Some? && floor.value.Some? && resume != floor.value)
  }

  /** The one reopening the rule gets wrong: a floor, resumed below it before, and no upper bound left. */
  predicate Uncertifiable(w: World, dead: set<nat>) {
    && w.below && w.store.floor.Some? && w.store.floor.value.Some?
    && Select(Flat(w.store.levels), dead) == []
    && MaxHigh(Flat(w.store.levels)).None?
  }

  /**
   What the watermarks must say before `mark_recovery_complete`: no file's upper bound lies past the replay,
   and no memtable still holds something from at or before the greatest of them.
   */
  predicate Discharged(w: World) {
    var high := MaxHigh(Flat(w.store.levels));
    high.Some? ==>
      && high.value <= w.cursor
      && (MemEmpty(w.store.mem) || high.value <= LowBound(w.store.mem.watermark))
      && (w.store.imm.Some? ==> MemEmpty(w.store.imm.value) || high.value <= LowBound(w.store.imm.value.watermark))
  }

  ghost predicate CompleteStep(w: World, w': World) {
    w' == w.(store := w.store.(floor := None), below := false)
  }

  ghost predicate Init(w: World) {
    && w.store.levels != [] && (forall i :: 0 <= i < |w.store.levels| ==> w.store.levels[i] == [])
    && w == World(Store(FreshMem(None), None, w.store.levels, EMPTY_KEY, None, None, w.store.next), [], 0, false)
  }

  // ---------- a longer log ----------

  lemma QuietExtends(log: seq<Write>, more: seq<Write>, r: nat, k: Key)
    ensures Quiet(log + more, r, k) ==> Quiet(log, r, k)
  {
    if Quiet(log + more, r, k) {
      forall i | r <= i < |log|
        ensures !Touching(log[i], k)
      {
        assert (log + more)[i] == log[i];
      }
    }
  }

  lemma AboveExtends(m: Mem, log: seq<Write>, more: seq<Write>, r: nat)
    requires MemAbove(m, log, r)
    ensures MemAbove(m, log + more, r)
  {
    forall k: Key | MemView(m, k).Some?
      ensures !Quiet(log + more, r, k)
    {
      QuietExtends(log, more, r, k);
    }
  }

  lemma AgreesExtends(ms: seq<Mem>, levels: Levels, truncation: Key, log: seq<Write>, more: seq<Write>, r: nat)
    requires Agrees(ms, levels, truncation, log, r)
    ensures Agrees(ms, levels, truncation, log + more, r)
  {
    ReplayExtends(log, more, r);
    forall k: Key | Quiet(log + more, r, k)
      ensures Visible(ms, levels, truncation, k) == OracleGet(Replay(log + more, r), k)
    {
      QuietExtends(log, more, r, k);
    }
  }

  lemma FilesSoundExtends(levels: Levels, log: seq<Write>, more: seq<Write>)
    requires FilesSound(levels, log)
    ensures FilesSound(levels, log + more)
  {
    forall f | Holding(levels, f)
      ensures FileAbove(f, log + more, LowBound(f.watermark))
    {
      forall k: Key | Touches(f, k)
        ensures !Quiet(log + more, LowBound(f.watermark), k)
      {
        QuietExtends(log, more, LowBound(f.watermark), k);
      }
    }
  }

  /** The invariant does not mind the log growing past the cursor. */
  lemma InvExtends(w: World, more: seq<Write>)
    requires Inv(w)
    ensures Inv(w.(log := w.log + more))
  {
    var s := w.store;
    ReplayExtends(w.log, more, w.cursor);
    FilesSoundExtends(s.levels, w.log, more);
    AboveExtends(s.mem, w.log, more, LowBound(s.mem.watermark));
    AgreesExtends([s.mem] + Frozen(s), s.levels, s.truncation, w.log, more, w.cursor);
    if s.imm.Some? {
      var i := s.imm.value;
      AboveExtends(i, w.log, more, LowBound(i.watermark));
      if i.watermark.high.Some? {
        AgreesExtends([i], s.levels, s.truncation, w.log, more, i.watermark.high.value);
        AboveExtends(s.mem, w.log, more, i.watermark.high.value);
      }
    }
    if Certified(w).Some? {
      var r := Certified(w).value;
      assert Certified(w.(log := w.log + more)) == Certified(w);
      AgreesExtends([], s.levels, s.truncation, w.log, more, r);
      AboveExtends(s.mem, w.log, more, r);
      if s.imm.Some? { AboveExtends(s.imm.value, w.log, more, r); }
    }
  }

  // ---------- writes ----------

  /** A truncation hides only keys that some write at or after it touches. */
  lemma AgreesUnderTruncation(ms: seq<Mem>, levels: Levels, before: Key, after: Key, log: seq<Write>, r: nat, at: nat)
    requires Agrees(ms, levels, before, log, r) && before <= after
    requires r <= at < |log| && (before < after ==> log[at] == TruncateBelow(after))
    ensures Agrees(ms, levels, after, log, r)
  {
    forall k: Key | Quiet(log, r, k)
      ensures Visible(ms, levels, after, k) == OracleGet(Replay(log, r), k)
    {
      assert !Touching(log[at], k);
    }
  }

  /** The write just taken is enough to account for what it put in the memtable. */
  lemma AboveAfterWrite(s: Store, write: Write, log: seq<Write>, at: nat, r: nat)
    requires MemAbove(s.mem, log, r) && r <= at < |log| && log[at] == write
    ensures MemAbove(Accept(s, write).mem, log, r)
  {
    forall k: Key | MemView(Accept(s, write).mem, k).Some?
      ensures !Quiet(log, r, k)
    {
      if Touching(write, k) {
        assert Touching(log[at], k);
      } else {
        AcceptKeepsOthers(s, write, k);
      }
    }
  }

  /** The store and the map take the same write to the same answers. */
  lemma WriteAgrees(w: World, write: Write)
    requires w.cursor < |w.log| && w.log[w.cursor] == write && TruncationLogged(w)
    requires Agrees([w.store.mem] + Frozen(w.store), w.store.levels, w.store.truncation, w.log, w.cursor)
    ensures var s' := Accept(w.store, write);
            Agrees([s'.mem] + Frozen(s'), s'.levels, s'.truncation, w.log, w.cursor + 1)
  {
    var s' := Accept(w.store, write);
    var before, after := Replay(w.log, w.cursor), Replay(w.log, w.cursor + 1);
    ReplayFloor(w.log, w.cursor);
    ReplayFloor(w.log, w.cursor + 1);
    forall k: Key | Quiet(w.log, w.cursor + 1, k)
      ensures Read(s', k) == OracleGet(after, k)
    {
      if Touching(write, k) {
        AcceptTakesEffect(w.store, write, k);
        ApplyTakesEffect(before, write, k);
        if k < w.store.truncation {
          var i :| 0 <= i < |w.log| && w.log[i] == TruncateBelow(w.store.truncation);
          assert i <= w.cursor by { assert i > w.cursor ==> !Touching(w.log[i], k); }
          assert w.store.truncation <= after.floor;
        }
      } else {
        AcceptKeepsOthers(w.store, write, k);
        ApplyKeepsOthers(before, write, k);
        assert Quiet(w.log, w.cursor, k);
      }
    }
  }

  /** The invariant after a write the log already records at the cursor. */
  lemma WriteKeepsImm(w: World, write: Write)
    requires Inv(w) && w.cursor < |w.log| && w.log[w.cursor] == write
    ensures ImmSound(World(Accept(w.store, write), w.log, w.cursor + 1, w.below))
  {
    var s, s' := w.store, Accept(w.store, write);
    if s.imm.Some? && s.imm.value.watermark.high.Some? {
      var e := s.imm.value.watermark.high.value;
      AgreesUnderTruncation([s.imm.value], s.levels, s.truncation, s'.truncation, w.log, e, w.cursor);
      AboveAfterWrite(s, write, w.log, w.cursor, e);
    }
  }

  lemma WriteKeepsCertificate(w: World, write: Write)
    requires Inv(w) && w.cursor < |w.log| && w.log[w.cursor] == write
    ensures CertificateSound(World(Accept(w.store, write), w.log, w.cursor + 1, w.below))
  {
    var s, s' := w.store, Accept(w.store, write);
    assert Certified(World(s', w.log, w.cursor + 1, w.below)) == Certified(w);
    if Certified(w).Some? {
      var r := Certified(w).value;
      AgreesUnderTruncation([], s.levels, s.truncation, s'.truncation, w.log, r, w.cursor);
      AboveAfterWrite(s, write, w.log, w.cursor, r);
    }
  }

  lemma ReplayedWritePreserves(w: World, write: Write)
    requires Inv(w) && w.cursor < |w.log| && w.log[w.cursor] == write
    ensures Inv(World(Accept(w.store, write), w.log, w.cursor + 1, w.below))
  {
    var s, s' := w.store, Accept(w.store, write);
    var w' := World(s', w.log, w.cursor + 1, w.below);
    assert write in w.log;
    WriteAgrees(w, write);
    AboveAfterWrite(s, write, w.log, w.cursor, LowBound(s.mem.watermark));
    WriteKeepsImm(w, write);
    WriteKeepsCertificate(w, write);
  }

  lemma WritePreserves(w: World, w': World, write: Write)
    requires Inv(w) && WriteStep(w, w', write)
    ensures Inv(w')
  {
    if w.cursor < |w.log| {
      ReplayedWritePreserves(w, write);
    } else {
      InvExtends(w, [write]);
      ReplayedWritePreserves(w.(log := w.log + [write]), write);
    }
  }

  // ---------- watermarks, sealing, flushing ----------

  lemma AboveEarlier(m: Mem, log: seq<Write>, r: nat, n: nat)
    requires MemAbove(m, log, n) && r <= n
    ensures MemAbove(m, log, r)
  {
    forall k: Key | MemView(m, k).Some?
      ensures !Quiet(log, r, k)
    {
      assert Quiet(log, r, k) ==> Quiet(log, n, k);
    }
  }

  /** Reads depend on what the memtables say, not on how they are split or stamped. */
  lemma AgreesAlike(ms: seq<Mem>, ms': seq<Mem>, levels: Levels, levels': Levels, truncation: Key, log: seq<Write>,
      r: nat)
    requires Agrees(ms, levels, truncation, log, r)
    requires forall k: Key :: Quiet(log, r, k) ==>
             Visible(ms', levels', truncation, k) == Visible(ms, levels, truncation, k)
    ensures Agrees(ms', levels', truncation, log, r)
  {
  }

  lemma WatermarkPreserves(w: World, w': World)
    requires Inv(w) && WatermarkStep(w, w')
    ensures Inv(w')
  {
    var s, s' := w.store, w'.store;
    assert forall k: Key :: MemView(s'.mem, k) == MemView(s.mem, k);
    forall k: Key
      ensures Visible([s'.mem] + Frozen(s'), s'.levels, s'.truncation, k) ==
              Visible([s.mem] + Frozen(s), s.levels, s.truncation, k)
    {
      assert ([s'.mem] + Frozen(s'))[1..] == ([s.mem] + Frozen(s))[1..];
    }
    AgreesAlike([s.mem] + Frozen(s), [s'.mem] + Frozen(s'), s.levels, s.levels, s.truncation, w.log, w.cursor);
    assert Certified(w') == Certified(w);
  }

  lemma SealPreserves(w: World, w': World)
    requires Inv(w) && SealStep(w, w')
    ensures Inv(w')
  {
    var s, s' := w.store, w'.store;
    assert forall k: Key :: MemView(s'.mem, k) == None;
    assert [s.mem] + Frozen(s) == [s.mem];
    forall k: Key
      ensures Visible([s'.mem] + Frozen(s'), s'.levels, s'.truncation, k) == Visible([s.mem], s.levels, s.truncation, k)
    {
      assert ([s'.mem] + Frozen(s'))[1..] == [s.mem];
    }
    AgreesAlike([s.mem], [s'.mem] + Frozen(s'), s.levels, s.levels, s.truncation, w.log, w.cursor);
    if s.established.Some? {
      AgreesEarlier([s.mem], s.levels, s.truncation, w.log, s.established.value, w.cursor);
    }
    assert Certified(w') == Certified(w);
  }

  /** A flushed file in front of level 0 answers as the memtable it came from did. */
  lemma FlushWalks(levels: Levels, f: File, m: Mem, k: Key)
    requires levels != [] && FlushOf(f, m)
    ensures WalkLevels(levels[0 := [f] + levels[0]], k) == OrElse(MemView(m, k), WalkLevels(levels, k))
  {
    WalkConcat([f], levels[0], k);
    assert Walk([f], k) == View(f, k);
    assert levels[0 := [f] + levels[0]][1..] == levels[1..];
  }

  lemma FrontNewest(f: File, files: seq<File>)
    requires ValidLevel(0, files) && ValidFile(f) && forall g :: g in files ==> g.number < f.number
    ensures ValidLevel(0, [f] + files)
  {
    var front := [f] + files;
    forall i, j | 0 <= i < j < |front|
      ensures front[i].number > front[j].number
    {
      assert front[j] == files[j - 1] && front[j] in files;
      assert i > 0 ==> front[i] == files[i - 1];
    }
  }

  lemma FrontNumbered(levels: Levels, f: File, next: nat, next': nat)
    requires Numbered(levels, next) && Newest(levels, f) && next <= next' && f.number < next'
    ensures Numbered(levels[0 := [f] + levels[0]], next')
  {
    var levels' := levels[0 := [f] + levels[0]];
    FrontHolds(levels, f);
    assert !Holding(levels, f);
    forall i, j, g | 0 <= i < j < |levels'| && g in levels'[i]
      ensures g !in levels'[j]
    {
      assert g == f || g in levels[i];
      assert levels'[j] == levels[j];
      if g == f {
        assert !(f in levels[j]);
      }
    }
  }

  lemma FrontFlat(levels: Levels, f: File)
    requires levels != []
    ensures Flat(levels[0 := [f] + levels[0]]) == [f] + Flat(levels)
  {
    assert levels[0 := [f] + levels[0]][1..] == levels[1..];
  }

  lemma FlushKeepsLevels(levels: Levels, f: File, next: nat, next': nat)
    requires ValidLevels(levels) && Numbered(levels, next) && ValidFile(f)
    requires Newest(levels, f) && next <= next' && f.number < next'
    ensures var levels' := levels[0 := [f] + levels[0]];
            ValidLevels(levels') && Numbered(levels', next') && Flat(levels') == [f] + Flat(levels)
  {
    FrontNumbered(levels, f, next, next');
    assert ValidLevel(0, levels[0]);
    FrontNewest(f, levels[0]);
    FrontFlat(levels, f);
  }

  lemma FlushCertificate(w: World, w': World, f: File)
    requires Inv(w) && FlushStep(w, w', f)
    ensures Certified(w').Some? ==>
              || Certified(w') == Certified(w)
              || (w.store.imm.value.watermark.high.Some?
                && Certified(w').value <= w.store.imm.value.watermark.high.value)
  {
    FlushKeepsLevels(w.store.levels, f, w.store.next, w'.store.next);
    assert Flat(w'.store.levels)[1..] == Flat(w.store.levels);
  }

  lemma FlushPreserves(w: World, w': World, f: File)
    requires Inv(w) && FlushStep(w, w', f)
    ensures Inv(w')
  {
    var s, s' := w.store, w'.store;
    var i := s.imm.value;
    FlushKeepsLevels(s.levels, f, s.next, s'.next);
    forall k: Key
      ensures Visible([s'.mem] + Frozen(s'), s'.levels, s'.truncation, k) ==
              Visible([s.mem] + Frozen(s), s.levels, s.truncation, k)
      ensures Visible([], s'.levels, s'.truncation, k) == Visible([i], s.levels, s.truncation, k)
    {
      FlushWalks(s.levels, f, i, k);
      assert ([s.mem] + Frozen(s))[1..] == [i] && ([s'.mem] + Frozen(s'))[1..] == [];
      assert WalkMems([i], k) == MemView(i, k);
      assert WalkMems([s.mem] + Frozen(s), k) == OrElse(MemView(s.mem, k), MemView(i, k));
      assert WalkMems([s'.mem] + Frozen(s'), k) == MemView(s.mem, k);
    }
    FrontHolds(s.levels, f);
    AgreesAlike([s.mem] + Frozen(s), [s'.mem] + Frozen(s'), s.levels, s'.levels, s.truncation, w.log, w.cursor);
    assert FileAbove(f, w.log, LowBound(f.watermark));
    FlushCertificate(w, w', f);
    if Certified(w').Some? {
      var r := Certified(w').value;
      if Certified(w') == Certified(w) {
        forall k: Key | Quiet(w.log, r, k)
          ensures Visible([i], s.levels, s.truncation, k) == Visible([], s.levels, s.truncation, k)
        {
          assert WalkMems([i], k) == MemView(i, k);
        }
        AgreesAlike([], [], s.levels, s'.levels, s.truncation, w.log, r);
      } else {
        var e := i.watermark.high.value;
        AgreesEarlier([i], s.levels, s.truncation, w.log, r, e);
        AgreesAlike([i], [], s.levels, s'.levels, s.truncation, w.log, r);
        AboveEarlier(s.mem, w.log, r, e);
      }
    }
  }

  // ---------- background ----------

  lemma {:induction false} FlatHolds(levels: Levels)
    ensures forall f :: f in Flat(levels) <==> Holding(levels, f)
  {
    if levels != [] {
      var rest := levels[1..];
      FlatHolds(rest);
      forall f
        ensures f in Flat(levels) <==> Holding(levels, f)
      {
        if Holding(levels, f) {
          var i :| 0 <= i < |levels| && f in levels[i];
          assert i > 0 ==> rest[i - 1] == levels[i];
        }
        if Holding(rest, f) {
          var i :| 0 <= i < |rest| && f in rest[i];
          assert levels[i + 1] == rest[i];
        }
      }
    }
  }

  /** No file claims a later position than something it was made of. */
  lemma HighsInherited(before: Levels, after: Levels)
    requires forall f :: Holding(after, f) ==> Inherits(f, before)
    ensures MaxHigh(Flat(after)).Some? ==>
              MaxHigh(Flat(before)).Some? && MaxHigh(Flat(after)).value <= MaxHigh(Flat(before)).value
  {
    FlatHolds(before);
    FlatHolds(after);
    MaxHighIs(Flat(before));
    MaxHighIs(Flat(after));
    if MaxHigh(Flat(after)).Some? {
      var f :| f in Flat(after) && f.watermark.high == MaxHigh(Flat(after));
      assert Inherits(f, before);
    }
  }

  /** Rearranging never raises what the files certify. */
  lemma InstallCertificate(w: World, w': World, job: Job)
    requires InstallStep(w, w', job) && forall f :: Holding(w'.store.levels, f) ==> Inherits(f, w.store.levels)
    ensures Certified(w').Some? ==> Certified(w).Some? && Certified(w').value <= Certified(w).value
  {
    HighsInherited(w.store.levels, w'.store.levels);
  }

  lemma InstallFiles(w: World, w': World, job: Job)
    requires Inv(w) && InstallStep(w, w', job)
    requires Rearranged(w.store.levels, w'.store.levels, w.store.truncation, w.store.next, w'.store.next)
    ensures FilesSound(w'.store.levels, w.log)
  {
    forall f | Holding(w'.store.levels, f)
      ensures FileAbove(f, w.log, LowBound(f.watermark))
      ensures f.watermark.high.Some? ==> f.watermark.high.value <= |w.log|
    {
      assert Inherits(f, w.store.levels);
      forall k: Key | Touches(f, k)
        ensures !Quiet(w.log, LowBound(f.watermark), k)
      {
        var g :| Holding(w.store.levels, g) && Touches(g, k) && LowBound(f.watermark) <= LowBound(g.watermark);
        assert FileAbove(g, w.log, LowBound(g.watermark));
        assert Quiet(w.log, LowBound(f.watermark), k) ==> Quiet(w.log, LowBound(g.watermark), k);
      }
    }
  }

  lemma InstallPreserves(w: World, w': World, job: Job)
    requires Inv(w) && InstallStep(w, w', job)
    ensures Inv(w')
  {
    var s, s' := w.store, w'.store;
    InstallRearranges(s.levels, s'.levels, s.truncation, s.next, s'.next, job);
    forall ms: seq<Mem>, k: Key
      ensures Visible(ms, s'.levels, s.truncation, k) == Visible(ms, s.levels, s.truncation, k)
    {
    }
    InstallFiles(w, w', job);
    AgreesAlike([s.mem] + Frozen(s), [s.mem] + Frozen(s), s.levels, s'.levels, s.truncation, w.log, w.cursor);
    if s.imm.Some? && s.imm.value.watermark.high.Some? {
      AgreesAlike([s.imm.value], [s.imm.value], s.levels, s'.levels, s.truncation, w.log,
        s.imm.value.watermark.high.value);
    }
    InstallCertificate(w, w', job);
    if Certified(w').Some? {
      var r, n := Certified(w').value, Certified(w).value;
      AgreesEarlier([], s.levels, s.truncation, w.log, r, n);
      AgreesAlike([], [], s.levels, s'.levels, s.truncation, w.log, r);
      AboveEarlier(s.mem, w.log, r, n);
      if s.imm.Some? { AboveEarlier(s.imm.value, w.log, r, n); }
    }
  }

  // ---------- losing files and reopening ----------

  lemma {:induction false} NothingSelected(files: seq<File>, dead: set<nat>)
    requires Select(files, dead) == []
    ensures Reject(files, dead) == files
  {
    if files != [] {
      NothingSelected(files[1..], dead);
    }
  }

  lemma {:induction false} ReplayFloorGrows(log: seq<Write>, r: nat, n: nat)
    requires r <= n <= |log|
    ensures Replay(log, r).floor <= Replay(log, n).floor
    decreases n
  {
    if r < n {
      ReplayFloorGrows(log, r, n - 1);
    }
  }

  /** A lost file bounds the upper bounds of the files there were from below. */
  lemma LostIsBounded(levels: Levels, dead: set<nat>)
    requires OrderedBounds(levels)
    ensures var all := Flat(levels);
            var lost := Select(all, dead);
            lost != [] && MinLow(lost).Some? ==>
              MaxHigh(all).Some? && MinLow(lost).value <= MaxHigh(all).value
  {
    var all := Flat(levels);
    var lost := Select(all, dead);
    FlatHolds(levels);
    SelectMembers(all, dead);
    MaxHighIs(all);
    if lost != [] && MinLow(lost).Some? {
      MinLowIs(lost);
      var f :| f in lost && f.watermark.low == MinLow(lost);
      assert f in all && Holding(levels, f);
    }
  }

  /** The reported position is certified, in exactly the worlds that are not `Uncertifiable`. */
  lemma ResumeIsCertified(w: World, dead: set<nat>)
    requires OrderedBounds(w.store.levels)
    ensures var all := Flat(w.store.levels);
            var lost := Select(all, dead);
            var resume := ResumeAfter(lost, Reject(all, dead), FloorAfter(w.store.floor, lost));
            (resume.Some? ==> Certified(w).Some? && resume.value <= Certified(w).value) <==> !Uncertifiable(w, dead)
  {
    var all := Flat(w.store.levels);
    if Select(all, dead) == [] {
      NothingSelected(all, dead);
    } else {
      LostIsBounded(w.store.levels, dead);
    }
  }

  /** Every lost file lies strictly above the reported position. */
  lemma LostIsAbove(lost: seq<File>, survivors: seq<File>, floor: Option<Option<nat>>)
    ensures var resume := ResumeAfter(lost, survivors, FloorAfter(floor, lost));
            resume.Some? ==> forall f :: f in lost ==> resume.value <= LowBound(f.watermark)
  {
    if lost != [] {
      MinLowIs(lost);
    }
  }

  /** Keys that nothing lost spoke about read the same from what is left. */
  lemma LossIsInvisible(levels: Levels, dead: set<nat>, k: Key)
    requires forall f :: f in Select(Flat(levels), dead) ==> !Touches(f, k)
    ensures WalkLevels(RejectAll(levels, dead), k) == WalkLevels(levels, k)
  {
    WalkFlat(levels, k);
    WalkFlat(RejectAll(levels, dead), k);
    RejectFlat(levels, dead);
    SelectMembers(Flat(levels), dead);
    WalkReject(Flat(levels), dead, k);
  }

  lemma LossAgrees(w: World, dead: set<nat>, r: nat)
    requires Inv(w) && Certified(w).Some? && r <= Certified(w).value
    requires forall f :: f in Select(Flat(w.store.levels), dead) ==> r <= LowBound(f.watermark)
    ensures Agrees([], RejectAll(w.store.levels, dead), w.store.truncation, w.log, r)
  {
    var s := w.store;
    AgreesEarlier([], s.levels, s.truncation, w.log, r, Certified(w).value);
    FlatHolds(s.levels);
    SelectMembers(Flat(s.levels), dead);
    forall k: Key | Quiet(w.log, r, k)
      ensures Visible([], RejectAll(s.levels, dead), s.truncation, k) == Visible([], s.levels, s.truncation, k)
    {
      forall f | f in Select(Flat(s.levels), dead)
        ensures !Touches(f, k)
      {
        assert Holding(s.levels, f) && FileAbove(f, w.log, LowBound(f.watermark));
        assert Quiet(w.log, LowBound(f.watermark), k);
      }
      LossIsInvisible(s.levels, dead, k);
    }
    AgreesAlike([], [], s.levels, RejectAll(s.levels, dead), s.truncation, w.log, r);
  }

  /** With nothing certified, keys the log never touched are all that is claimed, and they are absent. */
  lemma NothingAgrees(w: World, dead: set<nat>)
    requires Inv(w)
    ensures Agrees([], RejectAll(w.store.levels, dead), w.store.truncation, w.log, 0)
  {
    var left := RejectAll(w.store.levels, dead);
    forall k: Key | Quiet(w.log, 0, k)
      ensures Visible([], left, w.store.truncation, k) == OracleGet(Replay(w.log, 0), k)
    {
      RejectFlat(w.store.levels, dead);
      WalkFlat(left, k);
      SelectMembers(Flat(w.store.levels), dead);
      FlatHolds(w.store.levels);
      forall f | f in Flat(left)
        ensures !Touches(f, k)
      {
        assert Holding(w.store.levels, f) && FileAbove(f, w.log, LowBound(f.watermark));
        assert Quiet(w.log, LowBound(f.watermark), k);
      }
      WalkSilent(Flat(left), k);
    }
  }

  lemma RejectAllValid(levels: Levels, next: nat, dead: set<nat>)
    requires ValidLevels(levels) && Numbered(levels, next)
    ensures ValidLevels(RejectAll(levels, dead)) && Numbered(RejectAll(levels, dead), next)
    ensures forall f :: Holding(RejectAll(levels, dead), f) ==> Holding(levels, f)
  {
    forall i | 0 <= i < |levels|
      ensures ValidLevel(i, RejectAll(levels, dead)[i])
      ensures forall f :: f in RejectAll(levels, dead)[i] ==> f in levels[i]
    {
      assert ValidLevel(i, levels[i]);
      ValidLevelReject(i, levels[i], dead);
      SelectMembers(levels[i], dead);
    }
  }

  /** After a reopening the files certify exactly the reported position. */
  lemma ReopenedCertificate(w: World, dead: set<nat>)
    requires Inv(w) && !Uncertifiable(w, dead)
    ensures Certified(Reopened(w, dead)) == Reopened(w, dead).store.established
  {
    var all := Flat(w.store.levels);
    RejectFlat(w.store.levels, dead);
    if Select(all, dead) == [] {
      NothingSelected(all, dead);
    }
  }

  lemma ReopenPreserves(w: World, dead: set<nat>)
    requires Inv(w) && !Uncertifiable(w, dead)
    ensures Inv(Reopened(w, dead))
  {
    var w' := Reopened(w, dead);
    var s' := w'.store;
    ResumeIsCertified(w, dead);
    LostIsAbove(Select(Flat(w.store.levels), dead), Reject(Flat(w.store.levels), dead), w.store.floor);
    RejectAllValid(w.store.levels, w.store.next, dead);
    ReplayFloorGrows(w.log, w'.cursor, w.cursor);
    if s'.established.Some? {
      LossAgrees(w, dead, s'.established.value);
    } else {
      NothingAgrees(w, dead);
    }
    assert [s'.mem] + Frozen(s') == [s'.mem];
    forall k: Key
      ensures Visible([s'.mem], s'.levels, s'.truncation, k) == Visible([], s'.levels, s'.truncation, k)
    {
      assert WalkMems([s'.mem], k) == None;
    }
    AgreesAlike([], [s'.mem], s'.levels, s'.levels, s'.truncation, w.log, w'.cursor);
    ReopenedCertificate(w, dead);
  }

  /** A memtable that is empty, or bounded below by `r`, says nothing about a key quiet since `r`. */
  lemma BoundedIsAbove(m: Mem, log: seq<Write>, r: nat)
    requires MemAbove(m, log, LowBound(m.watermark)) && (MemEmpty(m) || r <= LowBound(m.watermark))
    ensures MemAbove(m, log, r)
  {
    if MemEmpty(m) {
      assert forall k: Key :: MemView(m, k) == None;
    } else {
      AboveEarlier(m, log, r, LowBound(m.watermark));
    }
  }

  lemma CompletePreserves(w: World, w': World)
    requires Inv(w) && CompleteStep(w, w') && Discharged(w)
    ensures Inv(w')
  {
    var s := w.store;
    if Certified(w').Some? {
      var r := Certified(w').value;
      BoundedIsAbove(s.mem, w.log, r);
      if s.imm.Some? { BoundedIsAbove(s.imm.value, w.log, r); }
      AgreesEarlier([s.mem] + Frozen(s), s.levels, s.truncation, w.log, r, w.cursor);
      forall k: Key | Quiet(w.log, r, k)
        ensures Visible([], s.levels, s.truncation, k) == Visible([s.mem] + Frozen(s), s.levels, s.truncation, k)
      {
        assert ([s.mem] + Frozen(s))[1..] == Frozen(s);
        assert s.imm.Some? ==> WalkMems(Frozen(s), k) == MemView(s.imm.value, k);
      }
      AgreesAlike([s.mem] + Frozen(s), [], s.levels, s.levels, s.truncation, w.log, r);
    }
  }

  // ---------- the start, and the end of a replay ----------

  lemma InitHolds(w: World)
    requires Init(w)
    ensures Inv(w)
  {
    FlatHolds(w.store.levels);
    MaxHighIs(Flat(w.store.levels));
    assert [w.store.mem] + Frozen(w.store) == [w.store.mem];
    forall k: Key
      ensures Visible([w.store.mem], w.store.levels, EMPTY_KEY, k) == None
    {
      assert WalkMems([w.store.mem], k) == None;
      WalkLevelsSilent(w.store.levels, k);
    }
  }

  /** The embedder's replay: the log from a position onwards, applied to the store. */
  function AcceptFrom(s: Store, log: seq<Write>, from: nat): Store
    requires from <= |log|
    decreases |log| - from
  {
    if from == |log| then s else AcceptFrom(Accept(s, log[from]), log, from + 1)
  }

  lemma {:induction false} ReplayingReachesTheMap(w: World, k: Key)
    requires Inv(w)
    ensures Read(AcceptFrom(w.store, w.log, w.cursor), k) == OracleGet(Replay(w.log, |w.log|), k)
    decreases |w.log| - w.cursor
  {
    if w.cursor == |w.log| {
      assert Quiet(w.log, w.cursor, k);
    } else {
      var write := w.log[w.cursor];
      ReplayedWritePreserves(w, write);
      ReplayingReachesTheMap(World(Accept(w.store, write), w.log, w.cursor + 1, w.below), k);
    }
  }
}

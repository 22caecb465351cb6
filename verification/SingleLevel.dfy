module SingleLevel {
  /**
   `compact_level` on a store configured with one level. The rewrite lands back in level 0 under fresh
   numbers, which there makes it the newest, and with nothing deeper it always lets deletions go.
   */

  import opened Keys
  import opened Records
  import opened Version
  import opened Compaction
  import opened Installation
  import opened Tasks

  function Backwards(files: seq<File>): seq<File> {
    if files == [] then [] else Backwards(files[1..]) + [files[0]]
  }

  /** Level 0 once `f` has been rewritten: the outputs, highest number first, in front of what stays. */
  function Turned(files: seq<File>, f: File, outs: seq<File>): seq<File> {
    Backwards(outs) + Reject(files, {f.number})
  }

  lemma {:induction false} BackwardsMembers(files: seq<File>)
    ensures |Backwards(files)| == |files|
    ensures forall i :: 0 <= i < |files| ==> Backwards(files)[i] == files[|files| - 1 - i]
    ensures forall f :: f in Backwards(files) <==> f in files
  {
    if files != [] {
      BackwardsMembers(files[1..]);
      assert forall f :: f in files <==> f == files[0] || f in files[1..];
    }
  }

  /** Outputs hold no key in common, so their order among themselves does not matter to a reader. */
  lemma BackwardsWalk(outs: seq<File>, k: Key)
    requires Ordered(outs)
    ensures Walk(Backwards(outs), k) == Walk(outs, k)
  {
    BackwardsMembers(outs);
    forall f, g | f in outs && g in outs && f != g
      ensures Separated(f, g)
    {
      var i :| 0 <= i < |outs| && outs[i] == f;
      var j :| 0 <= j < |outs| && outs[j] == g;
    }
    if Walk(outs, k).Some? {
      var f := WalkWitness(outs, k);
      WalkMember(outs, k, f);
      WalkMember(Backwards(outs), k, f);
    } else {
      WalkSilent(outs, k);
      WalkSilent(Backwards(outs), k);
    }
  }

  /**
   The keys a turn on `files[t]` treats as a reader would: what it puts, nothing newer answers otherwise; what
   it deletes, something newer answers or nothing older holds.
   */
  ghost predicate MayTurn(files: seq<File>, t: nat, truncation: Key)
    requires t < |files|
  {
    forall k: Key :: k >= truncation ==> TurnsWell(files, t, k)
  }

  predicate TurnsWell(files: seq<File>, t: nat, k: Key)
    requires t < |files|
  {
    match View(files[t], k)
    case None => true
    case Some(Put(v)) => Walk(files[..t], k) == None || Resolve(Walk(files[..t], k)) == Some(v)
    case Some(Delete) => Walk(files[..t], k).Some? || Resolve(Walk(files[t + 1..], k)) == None
  }

  /** What a turn makes of one file: the tiles of its contents less its deletions. */
  ghost predicate Turns(f: File, truncation: Key, p: Plan, outs: seq<File>) {
    ValidPlan(p) && p.children == [f] && p.drop && p.truncation == truncation && Tiled(p, outs)
  }

  lemma TurnWalk(files: seq<File>, t: nat, truncation: Key, p: Plan, outs: seq<File>, k: Key)
    requires t < |files| && DistinctNumbers(files) && Turns(files[t], truncation, p, outs) && k >= truncation
    ensures Walk(files, k) == OrElse(Walk(files[..t], k), OrElse(View(files[t], k), Walk(files[t + 1..], k)))
    ensures Walk(Turned(files, files[t], outs), k)
         == OrElse(AfterMerge(View(files[t], k), true), OrElse(Walk(files[..t], k), Walk(files[t + 1..], k)))
  {
    var f, newer, older := files[t], files[..t], files[t + 1..];
    assert files == newer + ([f] + older);
    WalkConcat(newer, [f] + older, k);
    WalkConcat([f], older, k);
    assert Walk([f], k) == View(f, k) by { assert [f][1..] == []; }
    TiledIsFaithful(p, outs);
    BackwardsWalk(outs, k);
    RejectOne(files, t);
    WalkConcat(Backwards(outs), newer + older, k);
    WalkConcat(newer, older, k);
  }

  ghost predicate ReadsAlike(files: seq<File>, files': seq<File>, truncation: Key) {
    forall k: Key :: k >= truncation ==> Resolve(Walk(files', k)) == Resolve(Walk(files, k))
  }

  lemma TurnKey(files: seq<File>, t: nat, truncation: Key, p: Plan, outs: seq<File>, k: Key)
    requires t < |files| && DistinctNumbers(files) && Turns(files[t], truncation, p, outs) && k >= truncation
    ensures TurnsWell(files, t, k) <==> Resolve(Walk(Turned(files, files[t], outs), k)) == Resolve(Walk(files, k))
  {
    TurnWalk(files, t, truncation, p, outs, k);
  }

  /** A turn changes no read exactly when every key of the file may be turned. */
  lemma TurnExactly(files: seq<File>, t: nat, truncation: Key, p: Plan, outs: seq<File>)
    requires t < |files| && DistinctNumbers(files) && Turns(files[t], truncation, p, outs)
    ensures MayTurn(files, t, truncation) <==> ReadsAlike(files, Turned(files, files[t], outs), truncation)
  {
    var turned := Turned(files, files[t], outs);
    forall k: Key | k >= truncation
      ensures TurnsWell(files, t, k) <==> Resolve(Walk(turned, k)) == Resolve(Walk(files, k))
    {
      TurnKey(files, t, truncation, p, outs, k);
    }
  }

  // ---------- the pass ----------

  /** Left where it is: already as it should be, and with no point deletion to let go. */
  predicate Skips(settled: set<nat>, f: File) {
    f.number in settled && NumTombstones(f.entries) == 0
  }

  function Skipped(files: seq<File>, settled: set<nat>): seq<File> {
    if files == [] then []
    else (if Skips(settled, files[0]) then [files[0]] else []) + Skipped(files[1..], settled)
  }

  /** The newest value put by a file the pass rewrites, whatever else the files say. */
  function FirstPut(files: seq<File>, settled: set<nat>, k: Key): Option<Op> {
    if files == [] then None
    else OrElse(if Skips(settled, files[0]) then None else AfterMerge(View(files[0], k), true),
                FirstPut(files[1..], settled, k))
  }

  /**
   Where the pass treats a key as a reader would: a key that reads as a value has no other value first among the
   rewritten files, and one that reads as deleted has none there at all and none showing in the files left alone.
   */
  predicate PassesWell(files: seq<File>, settled: set<nat>, k: Key) {
    match Walk(files, k)
    case None => true
    case Some(Put(v)) => FirstPut(files, settled, k) == None || FirstPut(files, settled, k) == Some(Put(v))
    case Some(Delete) => FirstPut(files, settled, k) == None && Resolve(Walk(Skipped(files, settled), k)) == None
  }

  ghost predicate MayPass(files: seq<File>, settled: set<nat>, truncation: Key) {
    forall k: Key :: k >= truncation ==> PassesWell(files, settled, k)
  }

  lemma SkippedHead(files: seq<File>, settled: set<nat>, k: Key)
    requires files != []
    ensures Walk(Skipped(files, settled), k)
         == OrElse(if Skips(settled, files[0]) then View(files[0], k) else None, Walk(Skipped(files[1..], settled), k))
  {
    var rest := Skipped(files[1..], settled);
    if Skips(settled, files[0]) {
      assert Skipped(files, settled)[0] == files[0] && Skipped(files, settled)[1..] == rest;
    } else {
      assert Skipped(files, settled) == rest;
    }
  }

  lemma {:induction false} FirstPutIsPut(files: seq<File>, settled: set<nat>, k: Key)
    ensures FirstPut(files, settled, k) != Some(Delete)
    ensures Walk(files, k) == None ==> FirstPut(files, settled, k) == None && Walk(Skipped(files, settled), k) == None
    ensures FirstPut(files, settled, k) == None && Walk(files, k).Some? && Walk(files, k).value.Put? ==>
              Walk(Skipped(files, settled), k) == Walk(files, k)
  {
    if files != [] {
      FirstPutIsPut(files[1..], settled, k);
      SkippedHead(files, settled, k);
    }
  }

  /** The rewritten files' values come first, newest first; then the files left alone. */
  ghost predicate PassReads(files: seq<File>, settled: set<nat>, files': seq<File>, truncation: Key) {
    forall k: Key :: k >= truncation ==>
      Walk(files', k) == OrElse(FirstPut(files, settled, k), Walk(Skipped(files, settled), k))
  }

  /** A pass changes no read exactly when every key passes well. */
  lemma PassExactly(files: seq<File>, settled: set<nat>, files': seq<File>, truncation: Key)
    requires PassReads(files, settled, files', truncation)
    ensures MayPass(files, settled, truncation) <==> ReadsAlike(files, files', truncation)
  {
    forall k: Key | k >= truncation
      ensures PassesWell(files, settled, k) <==> Resolve(Walk(files', k)) == Resolve(Walk(files, k))
    {
      FirstPutIsPut(files, settled, k);
    }
  }

  /** No two files speak about one key. */
  ghost predicate Apart(files: seq<File>) {
    forall i, j, k: Key :: 0 <= i < j < |files| ==> !(Touches(files[i], k) && Touches(files[j], k))
  }

  /** Files with no key in common may pass, whatever is settled. */
  lemma ApartMayPass(files: seq<File>, settled: set<nat>, truncation: Key)
    requires Apart(files)
    ensures MayPass(files, settled, truncation)
  {
    forall k: Key
      ensures PassesWell(files, settled, k)
    {
      ApartPassesWell(files, settled, k);
    }
  }

  lemma {:induction false} ApartPassesWell(files: seq<File>, settled: set<nat>, k: Key)
    requires Apart(files)
    ensures PassesWell(files, settled, k)
  {
    if files != [] {
      var rest := files[1..];
      if Touches(files[0], k) {
        assert forall g :: g in rest ==> !Touches(g, k);
        WalkSilent(rest, k);
        FirstPutIsPut(rest, settled, k);
      } else {
        forall i, j, l: Key | 0 <= i < j < |rest|
          ensures !(Touches(rest[i], l) && Touches(rest[j], l))
        {
          assert !(Touches(files[i + 1], l) && Touches(files[j + 1], l));
        }
        ApartPassesWell(rest, settled, k);
      }
      SkippedHead(files, settled, k);
    }
  }

  /** And so may files that delete nothing, if none is left alone. */
  lemma DeletionFreeMayPass(files: seq<File>, truncation: Key)
    requires forall f, k: Key :: f in files ==> View(f, k) != Some(Delete)
    ensures MayPass(files, {}, truncation)
  {
    forall k: Key
      ensures PassesWell(files, {}, k)
    {
      DeletionFreeWalk(files, k);
    }
  }

  lemma {:induction false} DeletionFreeWalk(files: seq<File>, k: Key)
    requires forall f :: f in files ==> View(f, k) != Some(Delete)
    ensures FirstPut(files, {}, k) == Walk(files, k) && Walk(files, k) != Some(Delete)
  {
    if files != [] {
      assert files[0] in files;
      DeletionFreeWalk(files[1..], k);
    }
  }

  /** One turn: the file is rewritten under numbers from the counter on, which puts it first. */
  method Turn(files: seq<File>, t: nat, truncation: Key, next: nat, store: nat)
    returns (files': seq<File>, next': nat, ghost p: Plan, ghost outs: seq<File>)
    requires ValidLevel(0, files) && t < |files| && forall f :: f in files ==> f.number < next
    ensures Turns(files[t], truncation, p, outs) && files' == Turned(files, files[t], outs)
    ensures forall o :: o in outs ==> Succeeds(o, files[t], store)
    ensures ValidLevel(0, files') && next <= next' && forall f :: f in files' ==> f.number < next'
  {
    var f := files[t];
    var stamp := Stamp(store, f.minTime, f.maxTime, f.watermark);
    assert f in files;
    var written;
    written, p := WriteOutputs([f], true, truncation, next, stamp);
    outs := written;
    files' := Backwards(written) + Reject(files, {f.number});
    next' := next + |written|;
    RejectOne(files, t);
    BackwardsMembers(written);
    TurnedNewest(files, t, written, next, stamp);
    forall o | o in outs
      ensures Succeeds(o, f, store)
    {
      DroppedOutputsHoldNone(p, outs, o);
    }
  }

  lemma TurnedNewest(files: seq<File>, t: nat, outs: seq<File>, next: nat, stamp: Stamp)
    requires ValidLevel(0, files) && t < |files| && (forall f :: f in files ==> f.number < next)
    requires Ordered(outs) && Stamped(outs, next, stamp)
    ensures ValidLevel(0, Turned(files, files[t], outs))
    ensures forall f :: f in Turned(files, files[t], outs) ==> f.number < next + |outs|
  {
    var back, rest := Backwards(outs), files[..t] + files[t + 1..];
    var all := back + rest;
    RejectOne(files, t);
    BackwardsMembers(outs);
    forall f | f in rest
      ensures f in files && f.number < next
    {
    }
    forall i, j | 0 <= i < j < |all|
      ensures all[i].number > all[j].number
    {
      if j < |back| {
        assert all[i] == outs[|outs| - 1 - i] && all[j] == outs[|outs| - 1 - j];
      } else if i < |back| {
        assert all[i] == outs[|outs| - 1 - i] && all[j] in rest;
      } else {
        assert all[i] == rest[i - |back|] && all[j] == rest[j - |back|];
      }
    }
    forall f | f in all
      ensures f.number < next + |outs| && ValidFile(f)
    {
      if f in back {
        var i :| 0 <= i < |outs| && outs[i] == f;
      }
    }
  }

  /** Partway: outputs in front, then what is still to come, then what was left alone. */
  ghost predicate Passing(files: seq<File>, i: nat, settled: set<nat>, now: seq<File>, front: seq<File>,
                          truncation: Key)
    requires i <= |files|
  {
    && now == front + files[..i] + Skipped(files[i..], settled)
    && forall k: Key :: k >= truncation ==> Walk(front, k) == FirstPut(files[i..], settled, k)
  }

  /** The next file stays where it is. */
  lemma OneSkipped(files: seq<File>, i: nat, settled: set<nat>, now: seq<File>, front: seq<File>, truncation: Key)
    requires 0 < i <= |files| && Passing(files, i, settled, now, front, truncation) && Skips(settled, files[i - 1])
    ensures Passing(files, i - 1, settled, now, front, truncation)
  {
    assert files[i - 1..][0] == files[i - 1] && files[i - 1..][1..] == files[i..];
    assert files[..i] == files[..i - 1] + [files[i - 1]];
  }

  /** The next file comes back in front. */
  lemma OneTurned(files: seq<File>, i: nat, settled: set<nat>, now: seq<File>, front: seq<File>, truncation: Key,
                  p: Plan, outs: seq<File>)
    requires 0 < i <= |files| && Passing(files, i, settled, now, front, truncation) && !Skips(settled, files[i - 1])
    requires DistinctNumbers(now) && Turns(files[i - 1], truncation, p, outs)
    ensures Passing(files, i - 1, settled, Turned(now, files[i - 1], outs), Backwards(outs) + front, truncation)
  {
    var f, t := files[i - 1], |front| + i - 1;
    assert files[i - 1..][0] == f && files[i - 1..][1..] == files[i..];
    assert files[..i] == files[..i - 1] + [f];
    assert now[t] == f && now[..t] == front + files[..i - 1] && now[t + 1..] == Skipped(files[i..], settled);
    RejectOne(now, t);
    assert Turned(now, f, outs) == Backwards(outs) + front + files[..i - 1] + Skipped(files[i..], settled);
    TiledIsFaithful(p, outs);
    forall k: Key | k >= truncation
      ensures Walk(Backwards(outs) + front, k) == FirstPut(files[i - 1..], settled, k)
    {
      BackwardsWalk(outs, k);
      WalkConcat(Backwards(outs), front, k);
      assert Walk([f], k) == View(f, k) by { assert [f][1..] == []; }
    }
  }

  lemma PassIsOver(files: seq<File>, settled: set<nat>, now: seq<File>, front: seq<File>, truncation: Key)
    requires Passing(files, 0, settled, now, front, truncation)
    ensures PassReads(files, settled, now, truncation)
  {
    assert files[0..] == files && now == front + Skipped(files, settled);
    forall k: Key | k >= truncation
      ensures Walk(now, k) == OrElse(FirstPut(files, settled, k), Walk(Skipped(files, settled), k))
    {
      WalkConcat(front, Skipped(files, settled), k);
    }
  }

  predicate Renewed(files: seq<File>, front: seq<File>, store: nat) {
    forall o :: o in front ==> exists f :: f in files && Succeeds(o, f, store)
  }

  lemma TurnedAreRenewed(files: seq<File>, front: seq<File>, f: File, outs: seq<File>, store: nat)
    requires Renewed(files, front, store) && f in files && forall o :: o in outs ==> Succeeds(o, f, store)
    ensures Renewed(files, Backwards(outs) + front, store)
  {
    BackwardsMembers(outs);
  }

  /** What a pass leaves: the settled files without a point deletion, and what became of the others. */
  predicate PassLeaves(files: seq<File>, settled: set<nat>, files': seq<File>, store: nat) {
    && (forall f :: f in files && f.number in settled && NumTombstones(f.entries) == 0 ==> f in files')
    && (forall o :: o in files' ==>
          NumTombstones(o.entries) == 0
          && ((o in files && o.number in settled) || exists f :: f in files && Succeeds(o, f, store)))
  }

  lemma {:induction false} SkippedMembers(files: seq<File>, settled: set<nat>)
    ensures forall f :: f in Skipped(files, settled) <==> f in files && Skips(settled, f)
  {
    if files != [] {
      SkippedMembers(files[1..], settled);
      assert forall f :: f in files <==> f == files[0] || f in files[1..];
    }
  }

  lemma PassLeft(files: seq<File>, settled: set<nat>, now: seq<File>, front: seq<File>, truncation: Key, store: nat)
    requires Passing(files, 0, settled, now, front, truncation) && Renewed(files, front, store)
    ensures PassLeaves(files, settled, now, store)
  {
    assert files[0..] == files && now == front + Skipped(files, settled);
    SkippedMembers(files, settled);
  }

  /** The whole pass, oldest file first: what every key reads as afterwards, and exactly when that is as before. */
  method CompactOnlyLevel(files: seq<File>, settled: set<nat>, truncation: Key, next: nat, store: nat)
    returns (files': seq<File>, next': nat)
    requires ValidLevel(0, files) && forall f :: f in files ==> f.number < next
    ensures ValidLevel(0, files') && next <= next' && forall f :: f in files' ==> f.number < next'
    ensures PassLeaves(files, settled, files', store)
    ensures PassReads(files, settled, files', truncation)
    ensures ReadsAlike(files, files', truncation) <==> MayPass(files, settled, truncation)
  {
    files', next' := files, next;
    var i := |files|;
    ghost var front: seq<File> := [];
    NotPassedYet(files, settled, truncation);
    while i > 0
      invariant 0 <= i <= |files| && Passing(files, i, settled, files', front, truncation)
      invariant Renewed(files, front, store)
      invariant ValidLevel(0, files') && next <= next' && forall f :: f in files' ==> f.number < next'
    {
      files', next', front := PassOne(files, i, settled, files', next', truncation, store, front);
      i := i - 1;
    }
    PassLeft(files, settled, files', front, truncation, store);
    PassIsOver(files, settled, files', front, truncation);
    PassExactly(files, settled, files', truncation);
  }

  lemma NotPassedYet(files: seq<File>, settled: set<nat>, truncation: Key)
    ensures Passing(files, |files|, settled, files, [], truncation)
  {
    assert files[|files|..] == [] && files[..|files|] == files;
  }

  /** One file of the pass: left where it is, or turned. */
  method PassOne(files: seq<File>, i: nat, settled: set<nat>, now: seq<File>, next: nat, truncation: Key, store: nat,
                 ghost front: seq<File>)
    returns (files': seq<File>, next': nat, ghost front': seq<File>)
    requires 0 < i <= |files| && Passing(files, i, settled, now, front, truncation) && Renewed(files, front, store)
    requires ValidLevel(0, now) && forall f :: f in now ==> f.number < next
    ensures Passing(files, i - 1, settled, files', front', truncation) && Renewed(files, front', store)
    ensures ValidLevel(0, files') && next <= next' && forall f :: f in files' ==> f.number < next'
  {
    var f := files[i - 1];
    if Skips(settled, f) {
      OneSkipped(files, i, settled, now, front, truncation);
      return now, next, front;
    }
    StillThere(files, i, settled, now, front, truncation);
    ghost var p, outs;
    files', next', p, outs := TurnFile(now, f, truncation, next, store);
    OneTurned(files, i, settled, now, front, truncation, p, outs);
    TurnedAreRenewed(files, front, f, outs, store);
    front' := Backwards(outs) + front;
  }

  lemma StillThere(files: seq<File>, i: nat, settled: set<nat>, now: seq<File>, front: seq<File>, truncation: Key)
    requires 0 < i <= |files| && Passing(files, i, settled, now, front, truncation)
    ensures files[i - 1] in now
  {
    assert now[|front| + i - 1] == files[i - 1];
  }

  /** Finds the file by its number, as it may have moved, and turns it. */
  method TurnFile(files: seq<File>, f: File, truncation: Key, next: nat, store: nat)
    returns (files': seq<File>, next': nat, ghost p: Plan, ghost outs: seq<File>)
    requires ValidLevel(0, files) && f in files && forall g :: g in files ==> g.number < next
    ensures Turns(f, truncation, p, outs) && files' == Turned(files, f, outs)
    ensures forall o :: o in outs ==> Succeeds(o, f, store)
    ensures ValidLevel(0, files') && next <= next' && forall g :: g in files' ==> g.number < next'
  {
    var t := 0;
    while files[t].number != f.number
      invariant 0 <= t < |files| && forall s :: 0 <= s < t ==> files[s] != f
      decreases |files| - t
    {
      t := t + 1;
    }
    DistinctMembers(files, files[t], f);
    files', next', p, outs := Turn(files, t, truncation, next, store);
  }
}

module Migrator {
  /**
   Moving files down the tiers: which file moves next, and why the moving ends.

   Files below level 0 move to the tier their age calls for, or one tier colder when their own is over its
   capacity. Every move is strictly colder, whatever the fresh number does to a file's jitter, so the loop
   that picks and moves comes to rest, and at rest nothing is hotter than it should be.
   */

  import opened Keys
  import opened Version
  import opened Installation
  import opened Tasks
  import opened Picker
  import opened Placement
  import opened Compactor

  datatype Migration = Migration(file: File, from: nat, to: nat)

  /** Everything that may move: level 0 never does, since a fresh number would reorder it. */
  function Movable(levels: Levels): seq<File> {
    if levels == [] then [] else Flat(levels[1..])
  }

  lemma {:induction false} FlatMembers(levels: Levels, f: File)
    ensures f in Flat(levels) <==> exists i :: 0 <= i < |levels| && f in levels[i]
  {
    if levels != [] {
      var rest := levels[1..];
      FlatMembers(rest, f);
      assert forall i :: 0 <= i < |rest| ==> rest[i] == levels[i + 1];
      assert forall i :: 0 < i < |levels| ==> levels[i] == rest[i - 1];
    }
  }

  /** Exactly the files of the levels below level 0. */
  lemma MovableIsBelow(levels: Levels, f: File)
    ensures f in Movable(levels) <==> exists i :: 1 <= i < |levels| && f in levels[i]
  {
    if levels != [] {
      var rest := levels[1..];
      FlatMembers(rest, f);
      assert forall i :: 0 <= i < |rest| ==> rest[i] == levels[i + 1];
      assert forall i :: 0 < i < |levels| ==> levels[i] == rest[i - 1];
    }
  }

  function Place0(ts: Tiers, f: File, now: nat): nat
    requires ts.tiers != []
  {
    Place(ts, f.number, f.minTime, now, 0)
  }

  function OnTier(files: seq<File>, ts: Tiers, t: nat): seq<File> {
    if files == [] then []
    else OnTier(files[..|files| - 1], ts, t)
         + if TierOf(ts.tiers, files[|files| - 1].store) == Some(t) then [files[|files| - 1]] else []
  }

  /** Each file of the tier as often as it is listed, and no other. */
  lemma {:induction false} OnTierMembers(files: seq<File>, ts: Tiers, t: nat)
    ensures forall f :: multiset(OnTier(files, ts, t))[f]
                     == if TierOf(ts.tiers, f.store) == Some(t) then multiset(files)[f] else 0
    ensures forall f :: f in OnTier(files, ts, t) <==> f in files && TierOf(ts.tiers, f.store) == Some(t)
  {
    if files != [] {
      var front, last := files[..|files| - 1], files[|files| - 1];
      OnTierMembers(front, ts, t);
      assert files == front + [last];
      assert multiset(files) == multiset(front) + multiset{last};
      assert forall f :: f in files <==> f in front || f == last;
    }
  }

  /** At rest: nothing hotter than its placement, no tier before the last over its capacity. */
  predicate Settled(levels: Levels, ts: Tiers, now: nat)
    requires ts.tiers != []
  {
    && (forall f :: f in Movable(levels) && TierOf(ts.tiers, f.store).Some? ==>
          Place0(ts, f, now) <= TierOf(ts.tiers, f.store).value)
    && (forall t :: 0 <= t < Last(ts) && ts.tiers[t].maxBytes.Some? ==>
          TotalBytes(OnTier(Movable(levels), ts, t)) <= ts.tiers[t].maxBytes.value)
  }

  /** A move of a file that is where it says, to a strictly colder tier. */
  predicate Colder(levels: Levels, ts: Tiers, m: Migration) {
    && m.file in Movable(levels) && TierOf(ts.tiers, m.file.store) == Some(m.from)
    && m.from < m.to < |ts.tiers| && ts.tiers[m.to].store != m.file.store
  }

  /** Why a file moves: it belongs exactly there, or it is the oldest of a tier that is over its capacity. */
  predicate Warranted(levels: Levels, ts: Tiers, m: Migration, now: nat)
    requires ts.tiers != []
  {
    || m.to == Place0(ts, m.file, now)
    || (&& m.to == m.from + 1 && m.from < |ts.tiers| && Over(OnTier(Movable(levels), ts, m.from), ts.tiers[m.from])
        && forall f :: f in OnTier(Movable(levels), ts, m.from) ==> m.file.minTime <= f.minTime)
  }

  /** A transient tier with work to do: a file that belongs colder, or more bytes than it may hold. */
  predicate Urgent(levels: Levels, ts: Tiers, t: nat, now: nat)
    requires ts.tiers != []
  {
    && t < |ts.tiers| && ts.tiers[t].durability == Transient
    && var files := OnTier(Movable(levels), ts, t);
       (exists f :: f in files && Place0(ts, f, now) > t) || (t < Last(ts) && Over(files, ts.tiers[t]))
  }

  /** The hottest urgent tier, taken before anything else. */
  predicate Preempts(levels: Levels, ts: Tiers, m: Migration, now: nat)
    requires ts.tiers != []
  {
    Urgent(levels, ts, m.from, now) && forall t :: 0 <= t < m.from ==> !Urgent(levels, ts, t, now)
  }

  // ---------- picking ----------

  method GroupByTier(levels: Levels, ts: Tiers) returns (byTier: seq<seq<File>>)
    ensures |byTier| == |ts.tiers| && forall t :: 0 <= t < |byTier| ==> byTier[t] == OnTier(Movable(levels), ts, t)
  {
    var files := Movable(levels);
    byTier := seq(|ts.tiers|, t => []);
    for i := 0 to |files|
      invariant |byTier| == |ts.tiers| && forall t :: 0 <= t < |byTier| ==> byTier[t] == OnTier(files[..i], ts, t)
    {
      var tier := TierOf(ts.tiers, files[i].store);
      assert files[..i + 1][..i] == files[..i];
      TierOfIs(ts.tiers, files[i].store);
      if tier.Some? {
        byTier := byTier[tier.value := byTier[tier.value] + [files[i]]];
      }
    }
    assert files[..|files|] == files;
  }

  method Oldest(files: seq<File>) returns (found: Option<File>)
    ensures found.None? <==> files == []
    ensures found.Some? ==> found.value in files && forall f :: f in files ==> found.value.minTime <= f.minTime
  {
    found := None;
    for i := 0 to |files|
      invariant found.None? <==> i == 0
      invariant found.Some? ==> found.value in files && forall j :: 0 <= j < i ==>
                found.value.minTime <= files[j].minTime
    {
      if found.None? || files[i].minTime < found.value.minTime {
        found := Some(files[i]);
      }
    }
  }

  /** The oldest file of a tier that should be colder. */
  method OldestMisplaced(files: seq<File>, ts: Tiers, t: nat, now: nat) returns (found: Option<File>)
    requires ts.tiers != [] && JitterFits(ts)
    ensures found.None? <==> forall f :: f in files ==> Place0(ts, f, now) <= t
    ensures found.Some? ==> found.value in files && Place0(ts, found.value, now) > t
    ensures found.Some? ==> forall f :: f in files && Place0(ts, f, now) > t ==> found.value.minTime <= f.minTime
  {
    found := None;
    for i := 0 to |files|
      invariant found.None? <==> forall j :: 0 <= j < i ==> Place0(ts, files[j], now) <= t
      invariant found.Some? ==> found.value in files && Place0(ts, found.value, now) > t
      invariant found.Some? ==> forall j :: 0 <= j < i && Place0(ts, files[j], now) > t ==>
                found.value.minTime <= files[j].minTime
    {
      var target := PlaceFile(ts, files[i].number, files[i].minTime, now);
      if target > t && (found.None? || files[i].minTime < found.value.minTime) {
        found := Some(files[i]);
      }
    }
  }

  predicate Over(files: seq<File>, tier: Tier) {
    tier.maxBytes.Some? && TotalBytes(files) > tier.maxBytes.value
  }

  /** The bytes are summed as the group is built. */
  method GroupBytes(files: seq<File>) returns (bytes: nat)
    ensures bytes == TotalBytes(files)
  {
    bytes := 0;
    for i := 0 to |files|
      invariant bytes == TotalBytes(files[..i])
    {
      assert files[..i + 1] == files[..i] + [files[i]];
      BytesConcat(files[..i], [files[i]]);
      bytes := bytes + files[i].bytes;
    }
    assert files[..|files|] == files;
  }

  /** Evicting from an over-full tier: its oldest file, one tier colder. */
  method PickEviction(levels: Levels, ts: Tiers, files: seq<File>, t: nat, ghost now: nat)
    returns (m: Option<Migration>)
    requires t < |ts.tiers| && files == OnTier(Movable(levels), ts, t)
    ensures m.Some? ==> Colder(levels, ts, m.value) && m.value.from == t && Warranted(levels, ts, m.value, now)
    ensures m.Some? ==> t < Last(ts) && Over(files, ts.tiers[t])
    ensures m.None? && DistinctStores(ts.tiers) && t < Last(ts) ==> !Over(files, ts.tiers[t])
  {
    OnTierMembers(Movable(levels), ts, t);
    var bytes := GroupBytes(files);
    if ts.tiers[t].maxBytes.None? || bytes <= ts.tiers[t].maxBytes.value || t >= Last(ts) {
      return None;
    }
    var victim := Oldest(files);
    if victim.None? {
      return None;
    }
    TierOfIs(ts.tiers, victim.value.store);
    if ts.tiers[t + 1].store == victim.value.store {
      return None;
    }
    return Some(Migration(victim.value, t, t + 1));
  }

  /** Moving a misplaced file to where it belongs. */
  method PickAged(levels: Levels, ts: Tiers, file: File, t: nat, now: nat) returns (m: Option<Migration>)
    requires ts.tiers != [] && JitterFits(ts) && file in OnTier(Movable(levels), ts, t) && Place0(ts, file, now) > t
    ensures m.Some? ==> Colder(levels, ts, m.value) && m.value.from == t && Warranted(levels, ts, m.value, now)
    ensures DistinctStores(ts.tiers) ==> m.Some?
  {
    OnTierMembers(Movable(levels), ts, t);
    TierOfIs(ts.tiers, file.store);
    var target := PlaceFile(ts, file.number, file.minTime, now);
    if ts.tiers[target].store == file.store {
      return None;
    }
    return Some(Migration(file, t, target));
  }

  /** Off a transient tier first, oldest first, by age and then by capacity. */
  method PickTransient(levels: Levels, ts: Tiers, byTier: seq<seq<File>>, now: nat) returns (m: Option<Migration>)
    requires ts.tiers != [] && JitterFits(ts) && |byTier| == |ts.tiers|
    requires forall t :: 0 <= t < |byTier| ==> byTier[t] == OnTier(Movable(levels), ts, t)
    ensures m.Some? ==> Colder(levels, ts, m.value) && Warranted(levels, ts, m.value, now)
    ensures DistinctStores(ts.tiers) && m.Some? ==> Preempts(levels, ts, m.value, now)
    ensures DistinctStores(ts.tiers) && m.None? ==> forall t :: 0 <= t < |ts.tiers| ==> !Urgent(levels, ts, t, now)
  {
    for t := 0 to |ts.tiers|
      invariant DistinctStores(ts.tiers) ==> forall s :: 0 <= s < t ==> !Urgent(levels, ts, s, now)
    {
      if ts.tiers[t].durability != Transient {
        continue;
      }
      var candidate := OldestMisplaced(byTier[t], ts, t, now);
      if candidate.Some? {
        m := PickAged(levels, ts, candidate.value, t, now);
        if m.Some? {
          return;
        }
        continue;
      }
      m := PickEviction(levels, ts, byTier[t], t, now);
      if m.Some? {
        return;
      }
    }
    return None;
  }

  /** Then capacity on any tier, hottest first. */
  method PickCapacity(levels: Levels, ts: Tiers, byTier: seq<seq<File>>, ghost now: nat) returns (m: Option<Migration>)
    requires ts.tiers != [] && |byTier| == |ts.tiers|
    requires forall t :: 0 <= t < |byTier| ==> byTier[t] == OnTier(Movable(levels), ts, t)
    ensures m.Some? ==> Colder(levels, ts, m.value) && Warranted(levels, ts, m.value, now)
    ensures m.None? && DistinctStores(ts.tiers) ==> forall t :: 0 <= t < Last(ts) ==> !Over(byTier[t], ts.tiers[t])
  {
    for t := 0 to |ts.tiers|
      invariant DistinctStores(ts.tiers) ==> forall i :: 0 <= i < t && i < Last(ts) ==> !Over(byTier[i], ts.tiers[i])
    {
      m := PickEviction(levels, ts, byTier[t], t, now);
      if m.Some? {
        return;
      }
    }
    return None;
  }

  /** Last, age between durable tiers. */
  method PickAge(levels: Levels, ts: Tiers, byTier: seq<seq<File>>, now: nat) returns (m: Option<Migration>)
    requires ts.tiers != [] && JitterFits(ts) && |byTier| == |ts.tiers|
    requires forall t :: 0 <= t < |byTier| ==> byTier[t] == OnTier(Movable(levels), ts, t)
    ensures m.Some? ==> Colder(levels, ts, m.value) && Warranted(levels, ts, m.value, now)
    ensures m.None? && DistinctStores(ts.tiers) ==>
              forall t, f :: 0 <= t < |byTier| && f in byTier[t] ==> Place0(ts, f, now) <= t
  {
    for t := 0 to |ts.tiers|
      invariant DistinctStores(ts.tiers) ==> forall i, f :: 0 <= i < t && f in byTier[i] ==> Place0(ts, f, now) <= i
    {
      for i := 0 to |byTier[t]|
        invariant DistinctStores(ts.tiers) ==> forall j :: 0 <= j < i ==> Place0(ts, byTier[t][j], now) <= t
      {
        var target := PlaceFile(ts, byTier[t][i].number, byTier[t][i].minTime, now);
        if target > t {
          m := PickAged(levels, ts, byTier[t][i], t, now);
          if m.Some? {
            return;
          }
        }
      }
    }
    return None;
  }

  /** `pick_migration`: any move it picks is colder, and it picks none only when the files are at rest. */
  method PickMigration(levels: Levels, ts: Tiers, now: nat) returns (m: Option<Migration>)
    requires ts.tiers != [] && JitterFits(ts)
    ensures m.Some? ==> Colder(levels, ts, m.value) && Warranted(levels, ts, m.value, now)
    ensures m.None? && DistinctStores(ts.tiers) ==> Settled(levels, ts, now)
    ensures DistinctStores(ts.tiers) && |ts.tiers| >= 2 && (exists t: nat :: Urgent(levels, ts, t, now)) ==>
              m.Some? && Preempts(levels, ts, m.value, now)
  {
    if |ts.tiers| < 2 {
      return None;
    }
    var byTier := GroupByTier(levels, ts);
    m := PickTransient(levels, ts, byTier, now);
    if m.None? {
      m := PickCapacity(levels, ts, byTier, now);
    }
    if m.None? {
      m := PickAge(levels, ts, byTier, now);
      if m.None? && DistinctStores(ts.tiers) {
        AtRest(levels, ts, byTier, now);
      }
    }
  }

  lemma AtRest(levels: Levels, ts: Tiers, byTier: seq<seq<File>>, now: nat)
    requires ts.tiers != [] && |byTier| == |ts.tiers|
    requires forall t :: 0 <= t < |byTier| ==> byTier[t] == OnTier(Movable(levels), ts, t)
    requires forall t :: 0 <= t < Last(ts) ==> !Over(byTier[t], ts.tiers[t])
    requires forall t, f :: 0 <= t < |byTier| && f in byTier[t] ==> Place0(ts, f, now) <= t
    ensures Settled(levels, ts, now)
  {
    forall f | f in Movable(levels) && TierOf(ts.tiers, f.store).Some?
      ensures Place0(ts, f, now) <= TierOf(ts.tiers, f.store).value
    {
      var t := TierOf(ts.tiers, f.store).value;
      TierOfIs(ts.tiers, f.store);
      OnTierMembers(Movable(levels), ts, t);
      assert f in byTier[t];
    }
  }

  // ---------- coming to rest ----------

  /** How far a file still is from the coldest tier. */
  function HeatOf(ts: Tiers, f: File): nat {
    var t := TierOf(ts.tiers, f.store);
    if t.Some? && t.value < |ts.tiers| then |ts.tiers| - t.value else 0
  }

  function Heat(ts: Tiers, files: seq<File>): nat {
    if files == [] then 0 else HeatOf(ts, files[0]) + Heat(ts, files[1..])
  }

  lemma {:induction false} HeatConcat(ts: Tiers, a: seq<File>, b: seq<File>)
    ensures Heat(ts, a + b) == Heat(ts, a) + Heat(ts, b)
  {
    if a == [] {
      assert a + b == b;
    } else {
      assert (a + b)[1..] == a[1..] + b;
      HeatConcat(ts, a[1..], b);
    }
  }

  lemma {:induction false} HeatInsert(ts: Tiers, f: File, files: seq<File>)
    ensures Heat(ts, InsertByKey(f, files)) == HeatOf(ts, f) + Heat(ts, files)
  {
    if files != [] && !KeyOrder(f, files[0]) {
      HeatInsert(ts, f, files[1..]);
      assert InsertByKey(f, files)[1..] == InsertByKey(f, files[1..]);
    } else {
      assert InsertByKey(f, files)[1..] == files;
    }
  }

  lemma {:induction false} HeatReject(ts: Tiers, files: seq<File>, f: File)
    requires DistinctNumbers(files) && f in files
    ensures Heat(ts, Reject(files, {f.number})) + HeatOf(ts, f) == Heat(ts, files)
  {
    if files[0] == f {
      RejectAbsent(files[1..], f.number);
      assert Reject(files, {f.number}) == files[1..];
    } else {
      var i :| 0 <= i < |files| && files[i] == f;
      assert files[0].number != f.number && files[1..][i - 1] == f;
      HeatReject(ts, files[1..], f);
      assert Reject(files, {f.number})[1..] == Reject(files[1..], {f.number});
    }
  }

  lemma {:induction false} HeatUpdate(ts: Tiers, levels: Levels, i: nat, files: seq<File>)
    requires i < |levels|
    ensures Heat(ts, Flat(levels[i := files])) + Heat(ts, levels[i]) == Heat(ts, Flat(levels)) + Heat(ts, files)
  {
    var after := levels[i := files];
    HeatConcat(ts, levels[0], Flat(levels[1..]));
    HeatConcat(ts, after[0], Flat(after[1..]));
    if i == 0 {
      assert after[1..] == levels[1..];
    } else {
      assert after[1..] == levels[1..][i - 1 := files];
      HeatUpdate(ts, levels[1..], i - 1, files);
    }
  }

  lemma LevelCools(ts: Tiers, files: seq<File>, m: Migration, moved: File)
    requires DistinctStores(ts.tiers) && m.from < m.to < |ts.tiers| && TierOf(ts.tiers, m.file.store) == Some(m.from)
    requires m.file in files && DistinctNumbers(files)
    requires moved == m.file.(number := moved.number, store := ts.tiers[m.to].store)
    ensures Heat(ts, Install([moved], Reject(files, {m.file.number}))) < Heat(ts, files)
  {
    TierOfStore(ts.tiers, m.to);
    var kept := Reject(files, {m.file.number});
    assert [moved][1..] == [];
    assert Install([], kept) == kept && Install([moved], kept) == InsertByKey(moved, kept);
    HeatReject(ts, files, m.file);
    HeatInsert(ts, moved, kept);
  }

  /** A move takes the files strictly closer to rest, whatever number and jitter the copy gets. */
  lemma MoveCools(ts: Tiers, levels: Levels, level: nat, m: Migration, number: nat)
    requires DistinctStores(ts.tiers) && Colder(levels, ts, m) && 0 < level < |levels| && m.file in levels[level]
    requires DistinctNumbers(levels[level])
    ensures var moved := m.file.(number := number, store := ts.tiers[m.to].store);
            Heat(ts, Movable(Rewritten(levels, level, m.file, [moved]))) < Heat(ts, Movable(levels))
  {
    var moved := m.file.(number := number, store := ts.tiers[m.to].store);
    var files := Install([moved], Reject(levels[level], {m.file.number}));
    LevelCools(ts, levels[level], m, moved);
    assert Rewritten(levels, level, m.file, [moved])[1..] == levels[1..][level - 1 := files];
    HeatUpdate(ts, levels[1..], level - 1, files);
  }

  /** Which level below level 0 a file lies in. */
  method FindLevel(levels: Levels, f: File) returns (level: nat)
    requires f in Movable(levels)
    ensures 0 < level < |levels| && f in levels[level]
  {
    MovableIsBelow(levels, f);
    ghost var i :| 1 <= i < |levels| && f in levels[i];
    level := 1;
    while f !in levels[level]
      invariant 0 < level <= i < |levels| && f in levels[i]
      decreases |levels| - level
    {
      level := level + 1;
    }
  }

  /**
   At a fixed clock, picking and moving ends, and ends with everything at rest. Reads, levels and
   watermarks are as they were throughout.
   */
  method Settle(engine: Engine, ts: Tiers, now: nat) returns (ghost path: seq<Point>)
    requires engine.Valid() && ts.tiers != [] && JitterFits(ts) && DistinctStores(ts.tiers)
    modifies engine`levels, engine`next
    ensures engine.Valid() && Settled(engine.levels, ts, now)
    ensures Passed(path, engine.truncation, engine.last)
    ensures path[0] == old(engine.At()) && path[|path| - 1] == engine.At()
  {
    NoTaskYet(engine.At(), engine.truncation, engine.last);
    path := [engine.At()];
    var m := PickMigration(engine.levels, ts, now);
    while m.Some?
      invariant engine.Valid()
      invariant Passed(path, engine.truncation, engine.last)
      invariant path[0] == old(engine.At()) && path[|path| - 1] == engine.At()
      invariant m.Some? ==> Colder(engine.levels, ts, m.value)
      invariant m.None? ==> Settled(engine.levels, ts, now)
      decreases Heat(ts, Movable(engine.levels))
    {
      path := MoveOne(engine, ts, m.value, path);
      m := PickMigration(engine.levels, ts, now);
    }
  }

  method MoveOne(engine: Engine, ts: Tiers, m: Migration, ghost path: seq<Point>) returns (ghost longer: seq<Point>)
    requires engine.Valid() && DistinctStores(ts.tiers) && Colder(engine.levels, ts, m)
    requires Passed(path, engine.truncation, engine.last) && path[|path| - 1] == engine.At()
    modifies engine`levels, engine`next
    ensures engine.Valid() && Passed(longer, engine.truncation, engine.last) && longer == path + [engine.At()]
    ensures Heat(ts, Movable(engine.levels)) < Heat(ts, Movable(old(engine.levels)))
  {
    var level := FindLevel(engine.levels, m.file);
    assert ValidLevel(level, engine.levels[level]);
    MoveCools(ts, engine.levels, level, m, engine.next);
    ghost var before := engine.At();
    engine.RunMigration(level, m.file, ts.tiers[m.to].store);
    longer := path + [engine.At()];
    TaskRearranges(before.levels, engine.levels, engine.truncation, before.next, engine.next, engine.last);
    OneMoreTask(path, engine.At(), engine.truncation, engine.last);
  }
}

/**
 The sharded block cache: per shard a recency list, an index into it and a byte count, and one budget
 charged for all of them together.
 */
module BlockCache {
  import opened Keys
  import opened Budget

  datatype BlockKey = BlockKey(file: nat, offset: nat)

  datatype Entry = Entry(key: BlockKey, block: Bytes, charge: nat)

  /** `lru` is most recent first; `index` is which list entry each key leads to. */
  datatype Shard = Shard(lru: seq<Entry>, index: map<BlockKey, Entry>, bytes: nat)

  const SHARDS: nat := 16

  function Charges(es: seq<Entry>): nat {
    if es == [] then 0 else es[0].charge + Charges(es[1..])
  }

  predicate DistinctKeys(es: seq<Entry>) {
    forall i, j :: 0 <= i < j < |es| ==> es[i].key != es[j].key
  }

  /** List and index are a bijection, and the count is exactly what the entries charge. */
  predicate Sound(s: Shard) {
    && DistinctKeys(s.lru) && s.bytes == Charges(s.lru)
    && (forall e :: e in s.lru ==> e.key in s.index && s.index[e.key] == e)
    && (forall k :: k in s.index ==> s.index[k].key == k && s.index[k] in s.lru)
  }

  // ---------- taking entries out ----------

  lemma {:induction false} ChargesConcat(a: seq<Entry>, b: seq<Entry>)
    ensures Charges(a + b) == Charges(a) + Charges(b)
  {
    if a == [] {
      assert a + b == b;
    } else {
      assert (a + b)[1..] == a[1..] + b;
      ChargesConcat(a[1..], b);
    }
  }

  /** Removing one entry from the list and its key from the index. */
  function Removed(s: Shard, i: nat): Shard
    requires i < |s.lru| && s.lru[i].charge <= s.bytes
  {
    Shard(s.lru[..i] + s.lru[i + 1..], s.index - {s.lru[i].key}, s.bytes - s.lru[i].charge)
  }

  lemma RemovedCharges(es: seq<Entry>, i: nat)
    requires i < |es|
    ensures Charges(es) == es[i].charge + Charges(es[..i] + es[i + 1..])
  {
    ChargesConcat(es[..i], es[i..]);
    ChargesConcat(es[..i], es[i + 1..]);
    assert es[..i] + es[i..] == es && es[i..][1..] == es[i + 1..];
  }

  function Rest(es: seq<Entry>, i: nat): seq<Entry>
    requires i < |es|
  {
    es[..i] + es[i + 1..]
  }

  lemma RestMembers(es: seq<Entry>, i: nat)
    requires DistinctKeys(es) && i < |es|
    ensures DistinctKeys(Rest(es, i))
    ensures forall e :: e in Rest(es, i) <==> e in es && e != es[i]
    ensures forall e :: e in Rest(es, i) ==> e.key != es[i].key
  {
    var rest := Rest(es, i);
    assert forall j :: 0 <= j < |rest| ==> rest[j] == es[if j < i then j else j + 1];
    forall e | e in es && e != es[i]
      ensures e in rest
    {
      var j :| 0 <= j < |es| && es[j] == e;
      assert e == rest[if j < i then j else j - 1];
    }
    forall e | e in rest
      ensures e in es && e.key != es[i].key
    {
      var j :| 0 <= j < |rest| && rest[j] == e;
    }
  }

  lemma RemovedIsSound(s: Shard, i: nat)
    requires Sound(s) && i < |s.lru|
    ensures s.lru[i].charge <= s.bytes && Sound(Removed(s, i))
    ensures forall e :: e in Removed(s, i).lru <==> e in s.lru && e != s.lru[i]
  {
    RemovedCharges(s.lru, i);
    RestMembers(s.lru, i);
    assert Removed(s, i).lru == Rest(s.lru, i);
  }

  /** Moves an entry already held to the front. */
  function ToFront(s: Shard, i: nat): Shard
    requires i < |s.lru|
  {
    s.(lru := [s.lru[i]] + Rest(s.lru, i))
  }

  lemma FrontMembers(e: Entry, rest: seq<Entry>)
    requires DistinctKeys(rest) && forall x :: x in rest ==> x.key != e.key
    ensures DistinctKeys([e] + rest) && Charges([e] + rest) == e.charge + Charges(rest)
    ensures forall x :: x in [e] + rest <==> x == e || x in rest
  {
    var all := [e] + rest;
    assert all[1..] == rest;
    forall i, j | 0 <= i < j < |all|
      ensures all[i].key != all[j].key
    {
      assert all[j] == rest[j - 1] && rest[j - 1] in rest;
      assert i > 0 ==> all[i] == rest[i - 1];
    }
  }

  /** The entry of `key` comes first, the others stay in their order. */
  predicate MovedUp(before: seq<Entry>, after: seq<Entry>, key: BlockKey) {
    exists i :: 0 <= i < |before| && before[i].key == key && after == [before[i]] + before[..i] + before[i + 1..]
  }

  lemma ToFrontIsSound(s: Shard, i: nat)
    requires Sound(s) && i < |s.lru|
    ensures Sound(ToFront(s, i)) && MovedUp(s.lru, ToFront(s, i).lru, s.lru[i].key)
  {
    RestMembers(s.lru, i);
    RemovedCharges(s.lru, i);
    FrontMembers(s.lru[i], Rest(s.lru, i));
    assert ToFront(s, i).lru == [s.lru[i]] + s.lru[..i] + s.lru[i + 1..];
  }

  /** What is left is the front of what there was, and the next entry after it would not have fitted. */
  predicate Tight(after: seq<Entry>, bytes: nat, before: seq<Entry>, capacity: nat) {
    after <= before && (after != before ==> bytes + before[|after|].charge > capacity)
  }

  /** Evicts from the back until the shard is within `capacity`, and no further. */
  method EvictTo(s: Shard, capacity: nat) returns (after: Shard, released: nat)
    requires Sound(s)
    ensures Sound(after) && after.bytes <= capacity && after.bytes + released == s.bytes
    ensures Tight(after.lru, after.bytes, s.lru, capacity)
  {
    after, released := s, 0;
    while after.bytes > capacity && after.lru != []
      invariant Sound(after) && after.bytes + released == s.bytes
      invariant Tight(after.lru, after.bytes, s.lru, capacity)
      decreases |after.lru|
    {
      var last := |after.lru| - 1;
      RemovedIsSound(after, last);
      released := released + after.lru[last].charge;
      assert Removed(after, last).lru == after.lru[..last];
      after := Removed(after, last);
    }
  }

  /** Erases every block of one file. */
  method EraseFile(s: Shard, file: nat) returns (after: Shard, released: nat)
    requires Sound(s)
    ensures Sound(after) && after.bytes + released == s.bytes
    ensures forall e :: e in after.lru <==> e in s.lru && e.key.file != file
  {
    after, released := s, 0;
    var i := 0;
    while i < |after.lru|
      invariant 0 <= i <= |after.lru| && Sound(after) && after.bytes + released == s.bytes
      invariant forall j :: 0 <= j < i ==> after.lru[j].key.file != file
      invariant forall e :: e in after.lru ==> e in s.lru
      invariant forall e :: e in s.lru && e.key.file != file ==> e in after.lru
      decreases |after.lru| - i
    {
      if after.lru[i].key.file != file {
        i := i + 1;
      } else {
        RemovedIsSound(after, i);
        released := released + after.lru[i].charge;
        after := Removed(after, i);
      }
    }
  }

  /** Finds a key's place in the list. */
  method Locate(s: Shard, key: BlockKey) returns (at: nat)
    requires Sound(s) && key in s.index
    ensures at < |s.lru| && s.lru[at] == s.index[key]
  {
    assert s.index[key] in s.lru;
    at := 0;
    while s.lru[at] != s.index[key]
      invariant at < |s.lru| && s.index[key] in s.lru[at..]
      decreases |s.lru| - at
    {
      assert s.lru[at..] == [s.lru[at]] + s.lru[at + 1..];
      at := at + 1;
    }
  }

  lemma AddedIsSound(s: Shard, e: Entry)
    requires Sound(s) && e.key !in s.index
    ensures Sound(Shard([e] + s.lru, s.index[e.key := e], s.bytes + e.charge))
  {
    FrontMembers(e, s.lru);
  }

  /** One shard's lookup: a hit becomes the most recent. */
  method Fetch(s: Shard, key: BlockKey) returns (after: Shard, block: Option<Bytes>)
    requires Sound(s)
    ensures Sound(after) && after.bytes == s.bytes && after.index == s.index
    ensures block == if key in s.index then Some(s.index[key].block) else None
    ensures if block.Some? then MovedUp(s.lru, after.lru, key) else after == s
  {
    if key !in s.index {
      return s, None;
    }
    var at := Locate(s, key);
    ToFrontIsSound(s, at);
    return ToFront(s, at), Some(s.lru[at].block);
  }

  /** A new block is kept if it fits at all, and pushes out no more than it must. */
  predicate Inserted(before: Shard, after: Shard, e: Entry, capacity: nat) {
    && Tight(after.lru, after.bytes, [e] + before.lru, capacity)
    && (e.charge <= capacity ==> e.key in after.index && after.index[e.key] == e)
    && (before.bytes + e.charge <= capacity ==> after.lru == [e] + before.lru)
  }

  /** A block already there only moves to the front. */
  predicate Took(before: Shard, after: Shard, e: Entry, capacity: nat) {
    if e.key in before.index then after.index == before.index && MovedUp(before.lru, after.lru, e.key)
    else Inserted(before, after, e, capacity)
  }

  /** One shard takes the block, the others do not change. */
  predicate OneTook(before: seq<Shard>, after: seq<Shard>, s: nat, e: Entry, capacity: nat) {
    && |after| == |before| && s < |before| && Took(before[s], after[s], e, capacity)
    && forall i :: 0 <= i < |before| && i != s ==> after[i] == before[i]
  }

  lemma TookUpdate(shards: seq<Shard>, s: nat, after: Shard, e: Entry, capacity: nat)
    requires s < |shards| && Took(shards[s], after, e, capacity)
    ensures OneTook(shards, shards[s := after], s, e, capacity)
  {
  }

  lemma {:induction false} ChargesPrefix(a: seq<Entry>, b: seq<Entry>)
    requires a <= b && a != b
    ensures Charges(a) + b[|a|].charge <= Charges(b)
  {
    ChargesConcat(a, b[|a|..]);
    assert b == a + b[|a|..];
  }

  lemma InsertedStays(before: Shard, after: Shard, e: Entry, capacity: nat)
    requires Sound(before) && Sound(after) && Tight(after.lru, after.bytes, [e] + before.lru, capacity)
    ensures Inserted(before, after, e, capacity)
  {
    var all := [e] + before.lru;
    assert all[1..] == before.lru && Charges(all) == e.charge + before.bytes;
    if after.lru != all {
      ChargesPrefix(after.lru, all);
    }
    if after.lru != [] {
      assert after.lru[0] == all[0] == e && e in after.lru;
    }
  }

  /** One shard's insert: a block already there only moves to the front, a new one may push others out. */
  method InsertInto(s: Shard, e: Entry, capacity: nat) returns (after: Shard, acquired: nat, released: nat)
    requires Sound(s) && s.bytes <= capacity
    ensures Sound(after) && after.bytes <= capacity && after.bytes + released == s.bytes + acquired
    ensures acquired == if e.key in s.index then 0 else e.charge
    ensures Took(s, after, e, capacity)
  {
    if e.key in s.index {
      var at := Locate(s, e.key);
      ToFrontIsSound(s, at);
      return ToFront(s, at), 0, 0;
    }
    AddedIsSound(s, e);
    after, released := EvictTo(Shard([e] + s.lru, s.index[e.key := e], s.bytes + e.charge), capacity);
    acquired := e.charge;
    InsertedStays(s, after, e, capacity);
  }

  // ---------- all shards ----------

  function Total(shards: seq<Shard>): nat {
    if shards == [] then 0 else shards[0].bytes + Total(shards[1..])
  }

  lemma {:induction false} TotalUpdate(shards: seq<Shard>, i: nat, s: Shard)
    requires i < |shards|
    ensures Total(shards[i := s]) + shards[i].bytes == Total(shards) + s.bytes
  {
    if i == 0 {
      assert shards[0 := s][1..] == shards[1..];
    } else {
      assert shards[i := s][1..] == shards[1..][i - 1 := s];
      TotalUpdate(shards[1..], i - 1, s);
    }
  }

  function Entries(shards: seq<Shard>): nat {
    if shards == [] then 0 else |shards[0].lru| + Entries(shards[1..])
  }

  lemma {:induction false} EntriesUpdate(shards: seq<Shard>, i: nat, s: Shard)
    requires i < |shards|
    ensures Entries(shards[i := s]) + |shards[i].lru| == Entries(shards) + |s.lru|
  {
    if i == 0 {
      assert shards[0 := s][1..] == shards[1..];
    } else {
      assert shards[i := s][1..] == shards[1..][i - 1 := s];
      EntriesUpdate(shards[1..], i - 1, s);
    }
  }

  predicate AllSound(shards: seq<Shard>, capacity: nat) {
    forall i :: 0 <= i < |shards| ==> Sound(shards[i]) && shards[i].bytes <= capacity
  }

  lemma SoundUpdate(shards: seq<Shard>, i: nat, s: Shard, capacity: nat)
    requires AllSound(shards, capacity) && i < |shards| && Sound(s) && s.bytes <= capacity
    ensures AllSound(shards[i := s], capacity)
  {
  }

  /** Erases a file from every shard in turn. */
  method EraseEverywhere(before: seq<Shard>, file: nat, capacity: nat) returns (shards: seq<Shard>, released: nat)
    requires AllSound(before, capacity)
    ensures |shards| == |before| && AllSound(shards, capacity) && Total(shards) + released == Total(before)
    ensures forall i, e :: 0 <= i < |shards| ==> (e in shards[i].lru <==> e in before[i].lru && e.key.file != file)
  {
    shards, released := before, 0;
    for i := 0 to |before|
      invariant |shards| == |before| && AllSound(shards, capacity) && Total(shards) + released == Total(before)
      invariant forall j, e :: 0 <= j < i ==> (e in shards[j].lru <==> e in before[j].lru && e.key.file != file)
      invariant forall j :: i <= j < |before| ==> shards[j] == before[j]
    {
      var after, freed := EraseFile(shards[i], file);
      TotalUpdate(shards, i, after);
      SoundUpdate(shards, i, after, capacity);
      shards, released := shards[i := after], released + freed;
    }
  }

  /** The list without its `n` least recent entries. */
  function Kept(lru: seq<Entry>, n: nat): seq<Entry> {
    if n >= |lru| then [] else lru[..|lru| - n]
  }

  predicate ShedAt(before: Shard, after: Shard, n: nat) {
    after.lru == Kept(before.lru, n)
  }

  /** Round robin from the back: `rounds` from every shard that had them, one more from those before `stop`. */
  predicate Shed(before: seq<Shard>, after: seq<Shard>, rounds: nat, stop: nat) {
    && |after| == |before| && stop <= |before|
    && forall i :: 0 <= i < |before| ==> ShedAt(before[i], after[i], if i < stop then rounds + 1 else rounds)
  }

  /** The entry that went last: without it there would have been too little. */
  predicate LastNeeded(before: seq<Shard>, after: seq<Shard>, released: nat, bytes: nat) {
    |after| == |before| && exists i :: 0 <= i < |before| && |after[i].lru| < |before[i].lru|
                                       && released - before[i].lru[|after[i].lru|].charge < bytes
  }

  function LeastRecent(s: Shard): Entry
    requires s.lru != []
  {
    s.lru[|s.lru| - 1]
  }

  function Popped(s: Shard): Shard
    requires s.lru != [] && LeastRecent(s).charge <= s.bytes
  {
    Removed(s, |s.lru| - 1)
  }

  lemma KeptOneLess(lru: seq<Entry>, n: nat)
    requires Kept(lru, n) != []
    ensures Kept(lru, n + 1) == Kept(lru, n)[..|Kept(lru, n)| - 1] && |Kept(lru, n + 1)| < |lru|
    ensures Kept(lru, n)[|Kept(lru, n)| - 1] == lru[|Kept(lru, n + 1)|]
  {
  }

  lemma PoppedSums(shards: seq<Shard>, i: nat, capacity: nat)
    requires AllSound(shards, capacity) && i < |shards| && shards[i].lru != []
    ensures LeastRecent(shards[i]).charge <= shards[i].bytes
    ensures Popped(shards[i]).lru == shards[i].lru[..|shards[i].lru| - 1]
    ensures var shards' := shards[i := Popped(shards[i])];
            && AllSound(shards', capacity) && Total(shards') + LeastRecent(shards[i]).charge == Total(shards)
            && Entries(shards') < Entries(shards)
  {
    RemovedIsSound(shards[i], |shards[i].lru| - 1);
    var after := Popped(shards[i]);
    assert after.lru == shards[i].lru[..|shards[i].lru| - 1];
    SoundUpdate(shards, i, after, capacity);
    TotalUpdate(shards, i, after);
    EntriesUpdate(shards, i, after);
  }

  /** One more entry goes. */
  lemma ShedOne(first: seq<Shard>, shards: seq<Shard>, rounds: nat, i: nat, after: Shard, released: nat, bytes: nat)
    requires Shed(first, shards, rounds, i) && i < |shards| && shards[i].lru != [] && released < bytes
    requires after.lru == shards[i].lru[..|shards[i].lru| - 1]
    ensures Shed(first, shards[i := after], rounds, i + 1)
    ensures LastNeeded(first, shards[i := after], released + LeastRecent(shards[i]).charge, bytes)
  {
    assert ShedAt(first[i], shards[i], rounds);
    KeptOneLess(first[i].lru, rounds);
    var shards' := shards[i := after];
    forall j | 0 <= j < |first|
      ensures ShedAt(first[j], shards'[j], if j < i + 1 then rounds + 1 else rounds)
    {
      assert ShedAt(first[j], shards[j], if j < i then rounds + 1 else rounds);
    }
    assert |shards'[i].lru| < |first[i].lru| && first[i].lru[|shards'[i].lru|] == LeastRecent(shards[i]);
  }

  /** A shard with nothing left has had its turn. */
  lemma ShedNone(first: seq<Shard>, shards: seq<Shard>, rounds: nat, i: nat)
    requires Shed(first, shards, rounds, i) && i < |shards| && shards[i].lru == []
    ensures Shed(first, shards, rounds, i + 1)
  {
    forall j | 0 <= j < |first|
      ensures ShedAt(first[j], shards[j], if j < i + 1 then rounds + 1 else rounds)
    {
      assert ShedAt(first[j], shards[j], if j < i then rounds + 1 else rounds);
    }
  }

  lemma ShedRound(first: seq<Shard>, shards: seq<Shard>, rounds: nat)
    requires Shed(first, shards, rounds, |first|)
    ensures Shed(first, shards, rounds + 1, 0)
  {
  }

  lemma NothingShed(shards: seq<Shard>)
    ensures Shed(shards, shards, 0, 0)
  {
  }

  /** One round: the least recent entry of each shard, stopping as soon as enough has been released. */
  method EvictRound(before: seq<Shard>, ghost first: seq<Shard>, ghost rounds: nat, bytes: nat, capacity: nat,
                    start: nat)
    returns (shards: seq<Shard>, released: nat, progress: bool, ghost stop: nat)
    requires AllSound(before, capacity) && start < bytes && Shed(first, before, rounds, 0)
    ensures AllSound(shards, capacity) && Total(shards) + released == Total(before) + start
    ensures progress ==> Entries(shards) < Entries(before) && LastNeeded(first, shards, released, bytes)
    ensures !progress ==> shards == before && forall i :: 0 <= i < |shards| ==> shards[i].lru == []
    ensures Shed(first, shards, rounds, stop) && (stop < |before| ==> released >= bytes)
  {
    shards, released, progress, stop := before, start, false, 0;
    for i := 0 to |before|
      invariant |shards| == |before| && AllSound(shards, capacity) && Total(shards) + released == Total(before) + start
      invariant progress ==> Entries(shards) < Entries(before) && LastNeeded(first, shards, released, bytes)
      invariant !progress ==> shards == before && released == start && forall j :: 0 <= j < i ==> shards[j].lru == []
      invariant stop == i && Shed(first, shards, rounds, i)
    {
      if released >= bytes {
        return;
      }
      stop := i + 1;
      if shards[i].lru == [] {
        ShedNone(first, shards, rounds, i);
        continue;
      }
      PoppedSums(shards, i, capacity);
      ShedOne(first, shards, rounds, i, Popped(shards[i]), released, bytes);
      released := released + LeastRecent(shards[i]).charge;
      shards := shards[i := Popped(shards[i])];
      progress := true;
    }
  }

  /** Rounds until enough has been released or a round finds nothing. */
  method EvictRounds(before: seq<Shard>, bytes: nat, capacity: nat)
    returns (shards: seq<Shard>, released: nat, ghost rounds: nat, ghost stop: nat)
    requires AllSound(before, capacity)
    ensures |shards| == |before| && AllSound(shards, capacity) && Total(shards) + released == Total(before)
    ensures released >= bytes || forall i :: 0 <= i < |shards| ==> shards[i].lru == []
    ensures Shed(before, shards, rounds, stop) && (shards == before || LastNeeded(before, shards, released, bytes))
  {
    shards, released, rounds, stop := before, 0, 0, 0;
    NothingShed(before);
    var progress := true;
    while released < bytes && progress
      invariant |shards| == |before| && AllSound(shards, capacity) && Total(shards) + released == Total(before)
      invariant !progress ==> forall i :: 0 <= i < |shards| ==> shards[i].lru == []
      invariant Shed(before, shards, rounds, stop) && (released < bytes && progress ==> stop == 0)
      invariant shards == before || LastNeeded(before, shards, released, bytes)
      decreases Entries(shards), progress
    {
      shards, released, progress, stop := EvictRound(shards, before, rounds, bytes, capacity, released);
      if stop == |before| {
        ShedRound(before, shards, rounds);
        rounds, stop := rounds + 1, 0;
      }
    }
  }

  class ShardedLru {
    const capacity: nat
    const entryBytes: nat
    const budget: MemoryBudget?
    const hash: BlockKey -> nat
    var shards: seq<Shard>

    /** Its own part of being valid: nothing about the budget. */
    ghost predicate Own()
      reads this
    {
      |shards| == SHARDS && AllSound(shards, capacity)
    }

    ghost predicate Valid()
      reads this, budget
    {
      Own() && (budget != null ==> Total(shards) <= budget.used)
    }

    /** What everyone else holds of the budget. */
    ghost function Others(): int
      reads this, budget
    {
      if budget == null then 0 else budget.used - Total(shards)
    }

    function ShardOf(key: BlockKey): nat {
      hash(key) % SHARDS
    }

    constructor (capacityBytes: nat, entryBytes: nat, budget: MemoryBudget?, hash: BlockKey -> nat)
      ensures Valid() && this.budget == budget && Others() == if budget == null then 0 else budget.used
      ensures this.entryBytes == entryBytes && this.hash == hash && Total(shards) == 0
      ensures capacity == (if capacityBytes < SHARDS then 1 else capacityBytes / SHARDS)
    {
      this.capacity := Max(1, capacityBytes / SHARDS);
      this.entryBytes, this.budget, this.hash := entryBytes, budget, hash;
      shards := seq(SHARDS, i => Shard([], map[], 0));
      new;
      EmptyTotal(shards);
    }

    method Get(key: BlockKey) returns (block: Option<Bytes>)
      requires Valid()
      modifies this`shards
      ensures Valid() && Others() == old(Others())
      ensures block == var s := old(shards)[ShardOf(key)]; if key in s.index then Some(s.index[key].block) else None
      ensures forall i :: 0 <= i < SHARDS && i != ShardOf(key) ==> shards[i] == old(shards)[i]
      ensures var s, s' := old(shards)[ShardOf(key)], shards[ShardOf(key)];
              if block.Some? then s'.index == s.index && MovedUp(s.lru, s'.lru, key) else s' == s
    {
      var i := hash(key) % SHARDS;
      var after;
      after, block := Fetch(shards[i], key);
      TotalUpdate(shards, i, after);
      SoundUpdate(shards, i, after, capacity);
      shards := shards[i := after];
    }

    /** Charged for what went in, credited for what that pushed out; the shard ends within its capacity. */
    method Insert(key: BlockKey, block: Bytes)
      requires Valid()
      modifies this`shards, budget
      ensures Valid() && Others() == old(Others())
      ensures OneTook(old(shards), shards, ShardOf(key), Entry(key, block, |block| + entryBytes), capacity)
    {
      var i := hash(key) % SHARDS;
      var after, acquired, released := InsertInto(shards[i], Entry(key, block, |block| + entryBytes), capacity);
      TotalUpdate(shards, i, after);
      SoundUpdate(shards, i, after, capacity);
      TookUpdate(shards, i, after, Entry(key, block, |block| + entryBytes), capacity);
      shards := shards[i := after];
      if budget != null {
        var within := budget.TryAcquireOver(acquired);
        if released > 0 {
          budget.Release(released);
        }
      }
    }

    method EvictFile(file: nat)
      requires Valid()
      modifies this`shards, budget
      ensures Valid() && Others() == old(Others())
      ensures forall i, e :: 0 <= i < SHARDS ==> (e in shards[i].lru <==> e in old(shards)[i].lru && e.key.file != file)
    {
      var after, released := EraseEverywhere(shards, file, capacity);
      shards := after;
      if budget != null && released > 0 {
        budget.Release(released);
      }
    }

    /** Releases what was asked for, or everything there is, evenly from the shards and no more than needed. */
    method EvictAtLeast(bytes: nat) returns (released: nat)
      requires Valid()
      modifies this`shards, budget
      ensures Valid() && Others() == old(Others()) && Total(shards) + released == Total(old(shards))
      ensures released >= bytes || forall i :: 0 <= i < SHARDS ==> shards[i].lru == []
      ensures shards == old(shards) || LastNeeded(old(shards), shards, released, bytes)
      ensures exists rounds, stop :: Shed(old(shards), shards, rounds, stop)
    {
      if bytes == 0 {
        NothingShed(shards);
        return 0;
      }
      var after;
      ghost var rounds, stop;
      after, released, rounds, stop := EvictRounds(shards, bytes, capacity);
      shards := after;
      if budget != null && released > 0 {
        budget.Release(released);
      }
    }

    /** Whatever is still held comes off the shared budget. */
    method Close()
      requires Valid()
      modifies this`shards, budget
      ensures budget != null ==> budget.used == old(Others()) && Total(shards) == 0
    {
      if budget != null {
        budget.Release(Total(shards));
        shards := seq(SHARDS, i => Shard([], map[], 0));
        EmptyTotal(shards);
      }
    }
  }

  lemma {:induction false} EmptyTotal(shards: seq<Shard>)
    requires forall i :: 0 <= i < |shards| ==> shards[i].bytes == 0
    ensures Total(shards) == 0
  {
    if shards != [] {
      EmptyTotal(shards[1..]);
    }
  }
}

module Process {
  /**
   One budget and everything that charges it: the arenas of any number of memtables, block caches and range
   caches. After every operation of any of them the counter is exactly what they hold together, so each has its
   own share to give back and no release can take the counter below zero.
   */

  import opened Keys
  import opened Budget
  import opened Arena
  import opened BlockCache
  import opened RangeCache

  class Process {
    const budget: MemoryBudget
    var arenas: seq<BumpArena>
    var blocks: seq<ShardedLru>
    var ranges: seq<Cache>

    /** What each of them holds, in order. */
    ghost var ofArenas: seq<nat>
    ghost var ofBlocks: seq<nat>
    ghost var ofRanges: seq<nat>

    ghost predicate Takes(arena: BumpArena, bytes: nat)
      reads arena
    {
      arena.budget == budget && arena.Own() && bytes == arena.usage
    }

    ghost predicate Arenas()
      reads this, arenas
    {
      && |ofArenas| == |arenas| && AllDistinct(arenas)
      && forall i :: 0 <= i < |arenas| ==> Takes(arenas[i], ofArenas[i])
    }

    ghost predicate Holds(cache: ShardedLru, bytes: nat)
      reads cache
    {
      cache.budget == budget && cache.Own() && bytes == Total(cache.shards)
    }

    ghost predicate Blocks()
      reads this, blocks
    {
      && |ofBlocks| == |blocks| && AllDistinct(blocks)
      && forall i :: 0 <= i < |blocks| ==> Holds(blocks[i], ofBlocks[i])
    }

    ghost predicate Keeps(cache: Cache, bytes: nat)
      reads cache
    {
      cache.budget == budget && cache.Own() && bytes == cache.held
    }

    ghost predicate Ranges()
      reads this, ranges
    {
      && |ofRanges| == |ranges| && AllDistinct(ranges)
      && forall i :: 0 <= i < |ranges| ==> Keeps(ranges[i], ofRanges[i])
    }

    /** The counter is the sum of all holdings. */
    ghost predicate Valid()
      reads this, budget, arenas, blocks, ranges
    {
      && Arenas() && Blocks() && Ranges()
      && budget.used == Sum(ofArenas) + Sum(ofBlocks) + Sum(ofRanges)
    }

    constructor (total: nat)
      ensures Valid() && fresh(budget) && budget.total == total && arenas == [] && blocks == [] && ranges == []
    {
      budget := new MemoryBudget(total);
      arenas, blocks, ranges, ofArenas, ofBlocks, ofRanges := [], [], [], [], [], [];
    }

    /** Every holder's share is within the counter, whatever the others have been doing. */
    lemma ArenaIsValid(i: nat)
      requires Valid() && i < |arenas|
      ensures arenas[i].Valid() && arenas[i].budget == budget
    {
      SumHolds(ofArenas, i);
    }

    lemma BlocksAreValid(i: nat)
      requires Valid() && i < |blocks|
      ensures blocks[i].Valid() && blocks[i].budget == budget
    {
      SumHolds(ofBlocks, i);
    }

    lemma RangesAreValid(i: nat)
      requires Valid() && i < |ranges|
      ensures ranges[i].Valid() && ranges[i].budget == budget
    {
      SumHolds(ofRanges, i);
    }

    // ---------- arenas ----------

    /** An arena joins at any time, with whatever it already holds, charged to nobody or to another budget so far. */
    method Attach(arena: BumpArena)
      requires Valid() && arena.Valid() && arena !in arenas && arena.budget != budget
      modifies this`arenas, this`ofArenas, arena`budget, arena.budget, budget
      ensures Valid() && arenas == old(arenas) + [arena] && ofArenas == old(ofArenas) + [arena.usage]
      ensures blocks == old(blocks) && ranges == old(ranges)
    {
      arena.SetBudget(budget);
      SumConcat(ofArenas, [arena.usage]);
      assert Sum([arena.usage]) == arena.usage by { assert [arena.usage][1..] == []; }
      DistinctWith(arenas, arena);
      arenas, ofArenas := arenas + [arena], ofArenas + [arena.usage];
    }

    method AllocateFrom(i: nat, bytes: nat) returns (r: Region)
      requires Valid() && i < |arenas|
      modifies this`ofArenas, arenas[i], budget
      ensures Valid() && ofArenas == old(ofArenas)[i := arenas[i].usage]
      ensures arenas[i].regions == old(arenas[i].regions) + [r] && r.length == if bytes == 0 then 1 else bytes
    {
      ArenaIsValid(i);
      r := arenas[i].Allocate(bytes);
      SettleArena(i);
    }

    method AllocateAlignedFrom(i: nat, bytes: nat) returns (r: Region)
      requires Valid() && i < |arenas|
      modifies this`ofArenas, arenas[i], budget
      ensures Valid() && ofArenas == old(ofArenas)[i := arenas[i].usage]
      ensures bytes > 0 ==> arenas[i].regions == old(arenas[i].regions) + [r] && r.length == bytes
    {
      ArenaIsValid(i);
      r := arenas[i].AllocateAligned(bytes);
      SettleArena(i);
    }

    /** After an operation of one arena its share is written down anew. */
    ghost method SettleArena(i: nat)
      requires i < |arenas| && Blocks() && Ranges() && Takes(arenas[i], arenas[i].usage)
      requires |ofArenas| == |arenas| && AllDistinct(arenas)
      requires forall j :: 0 <= j < |arenas| && j != i ==> Takes(arenas[j], ofArenas[j])
      requires budget.used - arenas[i].usage == Sum(ofArenas) + Sum(ofBlocks) + Sum(ofRanges) - ofArenas[i]
      modifies this`ofArenas
      ensures Valid() && ofArenas == old(ofArenas)[i := arenas[i].usage]
    {
      SumUpdate(ofArenas, i, arenas[i].usage);
      ofArenas := ofArenas[i := arenas[i].usage];
    }

    /** Takes an arena that has given its share back off the list. */
    method RemoveArena(i: nat)
      requires i < |arenas| == |ofArenas| && AllDistinct(arenas) && Blocks() && Ranges()
      requires forall j :: 0 <= j < |arenas| && j != i ==> Takes(arenas[j], ofArenas[j])
      requires budget.used + ofArenas[i] == Sum(ofArenas) + Sum(ofBlocks) + Sum(ofRanges)
      modifies this`arenas, this`ofArenas
      ensures Valid() && arenas == old(arenas[..i] + arenas[i + 1..])
    {
      SumWithout(ofArenas, i);
      DistinctWithout(arenas, i);
      ghost var all, held := arenas, ofArenas;
      arenas, ofArenas := arenas[..i] + arenas[i + 1..], ofArenas[..i] + ofArenas[i + 1..];
      forall j | 0 <= j < |arenas|
        ensures Takes(arenas[j], ofArenas[j])
      {
        WithoutAt(all, i, j);
        WithoutAt(held, i, j);
      }
    }

    /** A memtable is destroyed: its arena's share comes off the counter with it. */
    method DestroyArena(i: nat)
      requires Valid() && i < |arenas|
      modifies this`arenas, this`ofArenas, budget
      ensures Valid() && arenas == old(arenas[..i] + arenas[i + 1..])
      ensures budget.used == old(budget.used) - old(ofArenas)[i]
    {
      ArenaIsValid(i);
      arenas[i].Destroy();
      RemoveArena(i);
    }

    /** An arena leaves for another budget, or for none. */
    method Detach(i: nat, to: MemoryBudget?)
      requires Valid() && i < |arenas| && to != budget
      modifies this`arenas, this`ofArenas, arenas[i], budget, to
      ensures Valid() && arenas == old(arenas[..i] + arenas[i + 1..])
      ensures budget.used == old(budget.used) - old(ofArenas)[i]
    {
      ArenaIsValid(i);
      arenas[i].SetBudget(to);
      RemoveArena(i);
    }

    // ---------- block caches ----------

    method OpenBlockCache(capacityBytes: nat, entryBytes: nat, hash: BlockKey -> nat)
      requires Valid()
      modifies this`blocks, this`ofBlocks
      ensures Valid() && |blocks| == |old(blocks)| + 1 && blocks[..|old(blocks)|] == old(blocks)
      ensures var cache := blocks[|old(blocks)|];
              && cache.entryBytes == entryBytes && cache.hash == hash
              && cache.capacity == (if capacityBytes < SHARDS then 1 else capacityBytes / SHARDS)
    {
      var cache := new ShardedLru(capacityBytes, entryBytes, budget, hash);
      SumConcat(ofBlocks, [0]);
      DistinctWith(blocks, cache);
      blocks, ofBlocks := blocks + [cache], ofBlocks + [0];
    }

    method GetBlock(i: nat, key: BlockKey) returns (block: Option<Bytes>)
      requires Valid() && i < |blocks|
      modifies blocks[i]
      ensures Valid()
      ensures block == var s := old(blocks[i].shards)[blocks[i].ShardOf(key)];
                       if key in s.index then Some(s.index[key].block) else None
    {
      BlocksAreValid(i);
      block := blocks[i].Get(key);
    }

    ghost method SettleBlocks(i: nat)
      requires i < |blocks| && Arenas() && Ranges() && Holds(blocks[i], Total(blocks[i].shards))
      requires |ofBlocks| == |blocks| && AllDistinct(blocks)
      requires forall j :: 0 <= j < |blocks| && j != i ==> Holds(blocks[j], ofBlocks[j])
      requires budget.used - Total(blocks[i].shards) == Sum(ofArenas) + Sum(ofBlocks) + Sum(ofRanges) - ofBlocks[i]
      modifies this`ofBlocks
      ensures Valid() && ofBlocks == old(ofBlocks)[i := Total(blocks[i].shards)]
    {
      SumUpdate(ofBlocks, i, Total(blocks[i].shards));
      ofBlocks := ofBlocks[i := Total(blocks[i].shards)];
    }

    /** A block that fits at all is held afterwards. */
    method InsertBlock(i: nat, key: BlockKey, block: Bytes)
      requires Valid() && i < |blocks|
      modifies this`ofBlocks, blocks[i], budget
      ensures Valid()
      ensures |block| + blocks[i].entryBytes <= blocks[i].capacity ==>
                key in blocks[i].shards[blocks[i].ShardOf(key)].index
    {
      BlocksAreValid(i);
      blocks[i].Insert(key, block);
      SettleBlocks(i);
    }

    method EvictFile(i: nat, file: nat)
      requires Valid() && i < |blocks|
      modifies this`ofBlocks, blocks[i], budget
      ensures Valid()
      ensures forall s, e :: 0 <= s < SHARDS ==>
                (e in blocks[i].shards[s].lru <==> e in old(blocks[i].shards)[s].lru && e.key.file != file)
    {
      BlocksAreValid(i);
      blocks[i].EvictFile(file);
      SettleBlocks(i);
    }

    /** Shedding: the counter falls by what is reported, which is what was asked for or all there is. */
    method EvictAtLeast(i: nat, bytes: nat) returns (released: nat)
      requires Valid() && i < |blocks|
      modifies this`ofBlocks, blocks[i], budget
      ensures Valid() && budget.used + released == old(budget.used)
      ensures released >= bytes || ofBlocks[i] == 0
    {
      BlocksAreValid(i);
      released := blocks[i].EvictAtLeast(bytes);
      SettleBlocks(i);
      if released < bytes {
        NothingHeld(blocks[i].shards, blocks[i].capacity);
      }
    }

    method RemoveBlockCache(i: nat)
      requires i < |blocks| == |ofBlocks| && AllDistinct(blocks) && Arenas() && Ranges()
      requires forall j :: 0 <= j < |blocks| && j != i ==> Holds(blocks[j], ofBlocks[j])
      requires budget.used + ofBlocks[i] == Sum(ofArenas) + Sum(ofBlocks) + Sum(ofRanges)
      modifies this`blocks, this`ofBlocks
      ensures Valid() && blocks == old(blocks[..i] + blocks[i + 1..])
    {
      SumWithout(ofBlocks, i);
      DistinctWithout(blocks, i);
      ghost var all, held := blocks, ofBlocks;
      blocks, ofBlocks := blocks[..i] + blocks[i + 1..], ofBlocks[..i] + ofBlocks[i + 1..];
      forall j | 0 <= j < |blocks|
        ensures Holds(blocks[j], ofBlocks[j])
      {
        WithoutAt(all, i, j);
        WithoutAt(held, i, j);
      }
    }

    method CloseBlockCache(i: nat)
      requires Valid() && i < |blocks|
      modifies this`blocks, this`ofBlocks, blocks[i], budget
      ensures Valid() && blocks == old(blocks[..i] + blocks[i + 1..])
      ensures budget.used == old(budget.used) - old(ofBlocks)[i]
    {
      BlocksAreValid(i);
      blocks[i].Close();
      RemoveBlockCache(i);
    }

    // ---------- range caches ----------

    method OpenRangeCache(max: nat)
      requires Valid()
      modifies this`ranges, this`ofRanges
      ensures Valid() && |ranges| == |old(ranges)| + 1 && ranges[..|old(ranges)|] == old(ranges)
      ensures ranges[|old(ranges)|].max == max
    {
      var cache := new Cache(max, budget);
      SumConcat(ofRanges, [0]);
      DistinctWith(ranges, cache);
      ranges, ofRanges := ranges + [cache], ofRanges + [0];
    }

    ghost method SettleRange(i: nat)
      requires i < |ranges| && Arenas() && Blocks() && Keeps(ranges[i], ranges[i].held)
      requires |ofRanges| == |ranges| && AllDistinct(ranges)
      requires forall j :: 0 <= j < |ranges| && j != i ==> Keeps(ranges[j], ofRanges[j])
      requires budget.used - ranges[i].held == Sum(ofArenas) + Sum(ofBlocks) + Sum(ofRanges) - ofRanges[i]
      modifies this`ofRanges
      ensures Valid() && ofRanges == old(ofRanges)[i := ranges[i].held]
    {
      SumUpdate(ofRanges, i, ranges[i].held);
      ofRanges := ofRanges[i := ranges[i].held];
    }

    method ReadThrough(i: nat, n: nat, offset: nat, len: Option<nat>, granularity: nat, below: map<nat, Bytes>)
      returns (r: Option<Bytes>)
      requires Valid() && i < |ranges| && Truthful(ranges[i].index, ranges[i].payload, below)
      requires offset < WORDS && (len.Some? ==> len.value < WORDS)
      modifies this`ofRanges, ranges[i], budget
      ensures Valid() && Truthful(ranges[i].index, ranges[i].payload, below)
      ensures PlanHolds(offset, len, granularity) ==>
                r == if n in below then Some(Answer(below[n], offset, len)) else None
    {
      RangesAreValid(i);
      r := ranges[i].Get(n, offset, len, granularity, below);
      SettleRange(i);
    }

    method WriteThrough(i: nat, n: nat, bytes: Bytes, below: map<nat, Bytes>) returns (below': map<nat, Bytes>)
      requires Valid() && i < |ranges| && Truthful(ranges[i].index, ranges[i].payload, below)
      modifies this`ofRanges, ranges[i], budget
      ensures Valid() && Truthful(ranges[i].index, ranges[i].payload, below')
      ensures below' == if n in below then below else below[n := bytes]
    {
      RangesAreValid(i);
      below' := ranges[i].Put(n, bytes, below);
      SettleRange(i);
    }

    method Forget(i: nat, n: nat, below: map<nat, Bytes>)
      requires Valid() && i < |ranges| && Truthful(ranges[i].index, ranges[i].payload, below)
      modifies this`ofRanges, ranges[i], budget
      ensures Valid() && Truthful(ranges[i].index, ranges[i].payload, below - {n})
    {
      RangesAreValid(i);
      ranges[i].Remove(n, below);
      SettleRange(i);
    }

    method LosePayload(i: nat, n: nat, offset: nat)
      requires Valid() && i < |ranges| && (n, offset) in ranges[i].payload
      modifies this`ofRanges, ranges[i], budget
      ensures Valid() && budget.used + |old(ranges[i].payload)[(n, offset)]| == old(budget.used)
    {
      RangesAreValid(i);
      ranges[i].Lose(n, offset);
      SettleRange(i);
    }
  }

  /** Shards with nothing listed hold nothing. */
  lemma {:induction false} NothingHeld(shards: seq<Shard>, capacity: nat)
    requires AllSound(shards, capacity) && forall i :: 0 <= i < |shards| ==> shards[i].lru == []
    ensures Total(shards) == 0
  {
    if shards != [] {
      NothingHeld(shards[1..], capacity);
    }
  }
}

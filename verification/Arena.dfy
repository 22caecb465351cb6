/**
 The bump arena behind a memtable: regions are handed out of the current block, a large request gets a
 block of its own, and every block is charged to the budget the moment it is taken.
 */
module Arena {
  import opened Budget

  const BLOCK_BYTES: nat := 4096
  const ALIGNMENT: nat := 16

  /** The bookkeeping pointer each block costs beside its bytes. */
  const LINK_BYTES: nat := 8

  /** Bytes `[at, at + length)` of one block; blocks themselves start aligned. */
  datatype Region = Region(block: nat, at: nat, length: nat)

  predicate Overlap(a: Region, b: Region) {
    a.block == b.block && a.at < b.at + b.length && b.at < a.at + a.length
  }

  function Charged(blocks: seq<nat>): nat {
    if blocks == [] then 0 else Charged(blocks[..|blocks| - 1]) + blocks[|blocks| - 1] + LINK_BYTES
  }

  /** Where the free part of the current block is. */
  datatype Cursor = Cursor(block: nat, head: nat, remaining: nat)

  predicate Within(r: Region, blocks: seq<nat>) {
    r.block < |blocks| && r.at + r.length <= blocks[r.block]
  }

  /** The region does not reach into what is still free. */
  predicate Clear(r: Region, c: Cursor) {
    c.remaining > 0 && r.block == c.block ==> r.at + r.length <= c.head
  }

  /** Every region lies in its block, no two overlap, and none reaches into what is still free. */
  predicate Laid(blocks: seq<nat>, c: Cursor, regions: seq<Region>) {
    && (c.remaining > 0 ==> c.block < |blocks| && c.head + c.remaining <= blocks[c.block])
    && (forall i :: 0 <= i < |regions| ==> Within(regions[i], blocks) && Clear(regions[i], c))
    && (forall i, j :: 0 <= i < j < |regions| ==> !Overlap(regions[i], regions[j]))
  }

  /**
   Where a request lands and what is left after it: in the current block while it fits, in a block of its own when
   it is large, which leaves the current one as it was, and otherwise at the start of a fresh block.
   */
  predicate Served(blocks: seq<nat>, c: Cursor, blocks': seq<nat>, c': Cursor, r: Region, padding: nat, bytes: nat) {
    if padding + bytes <= c.remaining then
      && blocks' == blocks && r == Region(c.block, c.head + padding, bytes)
      && c' == Cursor(c.block, c.head + padding + bytes, c.remaining - padding - bytes)
    else if bytes > BLOCK_BYTES / 4 then
      blocks' == blocks + [bytes] && r == Region(|blocks|, 0, bytes) && c' == c
    else
      && blocks' == blocks + [BLOCK_BYTES] && r == Region(|blocks|, 0, bytes)
      && c' == Cursor(|blocks|, bytes, BLOCK_BYTES - bytes)
  }

  /** What a request gives up of the current block is less than a quarter of one beyond its padding. */
  lemma LittleIsGivenUp(blocks: seq<nat>, c: Cursor, blocks': seq<nat>, c': Cursor, r: Region, padding: nat, bytes: nat)
    requires Served(blocks, c, blocks', c', r, padding, bytes) && c'.block != c.block
    ensures c.remaining < padding + BLOCK_BYTES / 4
  {
    assert c' != c;
  }

  lemma LaidWithBlock(blocks: seq<nat>, bytes: nat, c: Cursor, regions: seq<Region>)
    requires Laid(blocks, c, regions)
    ensures Laid(blocks + [bytes], c, regions)
    ensures Laid(blocks + [bytes], Cursor(|blocks|, 0, bytes), regions)
  {
    forall i | 0 <= i < |regions|
      ensures Within(regions[i], blocks + [bytes]) && regions[i].block != |blocks|
    {
      assert Within(regions[i], blocks);
    }
  }

  /** A region that lies in its block, is clear of the cursor and of all before it, may join them. */
  lemma LaidWith(blocks: seq<nat>, c: Cursor, regions: seq<Region>, r: Region)
    requires Laid(blocks, c, regions) && Within(r, blocks) && Clear(r, c)
    requires forall i :: 0 <= i < |regions| ==> !Overlap(regions[i], r)
    ensures Laid(blocks, c, regions + [r])
  {
  }

  lemma LaidAfterBump(blocks: seq<nat>, c: Cursor, regions: seq<Region>, padding: nat, bytes: nat)
    requires Laid(blocks, c, regions) && 0 < bytes && padding + bytes <= c.remaining
    ensures Laid(blocks, Cursor(c.block, c.head + padding + bytes, c.remaining - padding - bytes),
                 regions + [Region(c.block, c.head + padding, bytes)])
  {
    var r := Region(c.block, c.head + padding, bytes);
    var after := Cursor(c.block, c.head + padding + bytes, c.remaining - padding - bytes);
    forall i | 0 <= i < |regions|
      ensures Within(regions[i], blocks) && Clear(regions[i], after) && !Overlap(regions[i], r)
    {
      assert Clear(regions[i], c);
    }
    LaidWith(blocks, after, regions, r);
  }

  lemma LaidAfterOwn(blocks: seq<nat>, c: Cursor, regions: seq<Region>, bytes: nat)
    requires Laid(blocks, c, regions)
    ensures Laid(blocks + [bytes], c, regions + [Region(|blocks|, 0, bytes)])
  {
    LaidWithBlock(blocks, bytes, c, regions);
    forall i | 0 <= i < |regions|
      ensures regions[i].block != |blocks|
    {
      assert Within(regions[i], blocks);
    }
    LaidWith(blocks + [bytes], c, regions, Region(|blocks|, 0, bytes));
  }

  lemma ChargedSnoc(blocks: seq<nat>, bytes: nat)
    ensures Charged(blocks + [bytes]) == Charged(blocks) + bytes + LINK_BYTES
  {
    assert (blocks + [bytes])[..|blocks|] == blocks;
  }

  lemma Boundary(head: nat, padding: nat)
    requires padding == if head % ALIGNMENT == 0 then 0 else ALIGNMENT - head % ALIGNMENT
    ensures padding < ALIGNMENT && (head + padding) % ALIGNMENT == 0
  {
  }

  class BumpArena {
    var budget: MemoryBudget?
    var blocks: seq<nat>
    var cursor: Cursor
    var usage: nat
    ghost var regions: seq<Region>

    /** Its own part of being valid: nothing about the budget. */
    ghost predicate Own()
      reads this
    {
      usage == Charged(blocks) && Laid(blocks, cursor, regions)
    }

    ghost predicate Valid()
      reads this, budget
    {
      Own() && (budget != null ==> usage <= budget.used)
    }

    /** What everyone else holds of the budget. */
    ghost function Others(): int
      reads this, budget
    {
      if budget == null then 0 else budget.used - usage
    }

    constructor ()
      ensures Valid() && budget == null && usage == 0 && regions == []
    {
      budget, blocks, cursor, usage, regions := null, [], Cursor(0, 0, 0), 0, [];
    }

    /** Charged unconditionally: the allocation has already happened. */
    method NewBlock(bytes: nat) returns (block: nat)
      requires Valid()
      modifies this`blocks, this`usage, budget
      ensures Others() == old(Others()) && usage == Charged(blocks) && (budget != null ==> usage <= budget.used)
      ensures blocks == old(blocks) + [bytes] && block == |old(blocks)|
    {
      block := |blocks|;
      ChargedSnoc(blocks, bytes);
      blocks := blocks + [bytes];
      usage := usage + bytes + LINK_BYTES;
      if budget != null {
        var within := budget.TryAcquireOver(bytes + LINK_BYTES);
      }
    }

    /** Hands out the next bytes of the current block. */
    method Bump(padding: nat, bytes: nat) returns (r: Region)
      requires Valid() && 0 < bytes && padding + bytes <= cursor.remaining
      modifies this`cursor, this`regions
      ensures Valid() && Others() == old(Others()) && regions == old(regions) + [r]
      ensures Served(blocks, old(cursor), blocks, cursor, r, padding, bytes)
    {
      LaidAfterBump(blocks, cursor, regions, padding, bytes);
      r := Region(cursor.block, cursor.head + padding, bytes);
      cursor := Cursor(cursor.block, cursor.head + padding + bytes, cursor.remaining - padding - bytes);
      regions := regions + [r];
    }

    /** A block taken whole by one request; the current block stays the one being bumped through. */
    method OwnBlock(bytes: nat) returns (r: Region)
      requires Valid()
      modifies this`blocks, this`usage, this`regions, budget
      ensures Valid() && Others() == old(Others())
      ensures regions == old(regions) + [r] && r == Region(|old(blocks)|, 0, bytes)
      ensures blocks == old(blocks) + [bytes]
    {
      LaidAfterOwn(blocks, cursor, regions, bytes);
      var block := NewBlock(bytes);
      r := Region(block, 0, bytes);
      regions := regions + [r];
    }

    /** A fresh current block; the tail of the old one is given up. */
    method FreshBlock()
      requires Valid()
      modifies this`blocks, this`usage, this`cursor, budget
      ensures Valid() && Others() == old(Others())
      ensures blocks == old(blocks) + [BLOCK_BYTES] && cursor == Cursor(|old(blocks)|, 0, BLOCK_BYTES)
    {
      LaidWithBlock(blocks, BLOCK_BYTES, cursor, regions);
      var block := NewBlock(BLOCK_BYTES);
      cursor := Cursor(block, 0, BLOCK_BYTES);
    }

    /** A large request gets a block of its own rather than wasting the tail of the current one. */
    method Fallback(bytes: nat) returns (r: Region)
      requires Valid() && bytes > 0
      modifies this`blocks, this`usage, this`cursor, this`regions, budget
      ensures Valid() && Others() == old(Others()) && regions == old(regions) + [r]
      ensures forall padding: nat :: padding + bytes > old(cursor).remaining ==>
                Served(old(blocks), old(cursor), blocks, cursor, r, padding, bytes)
    {
      if bytes > BLOCK_BYTES / 4 {
        r := OwnBlock(bytes);
      } else {
        FreshBlock();
        r := Bump(0, bytes);
      }
    }

    /** A region of the size asked for, disjoint from every region handed out before it. */
    method Allocate(bytes: nat) returns (r: Region)
      requires Valid()
      modifies this, budget
      ensures Valid() && Others() == old(Others()) && budget == old(budget)
      ensures regions == old(regions) + [r]
      ensures Served(old(blocks), old(cursor), blocks, cursor, r, 0, if bytes == 0 then 1 else bytes)
    {
      var wanted := if bytes == 0 then 1 else bytes;
      if wanted <= cursor.remaining {
        r := Bump(0, wanted);
      } else {
        r := Fallback(wanted);
      }
    }

    /** The same on an aligned boundary. Nothing is handed out for nothing, though the boundary is moved up to. */
    method AllocateAligned(bytes: nat) returns (r: Region)
      requires Valid()
      modifies this, budget
      ensures Valid() && Others() == old(Others()) && budget == old(budget)
      ensures regions == (if bytes == 0 then old(regions) else old(regions) + [r])
      ensures r.length == bytes && r.at % ALIGNMENT == 0
      ensures exists padding: nat :: padding < ALIGNMENT && (old(cursor).head + padding) % ALIGNMENT == 0
                                     && Served(old(blocks), old(cursor), blocks, cursor, r, padding, bytes)
    {
      var slop := cursor.head % ALIGNMENT;
      var padding := if slop == 0 then 0 else ALIGNMENT - slop;
      Boundary(cursor.head, padding);
      if bytes + padding <= cursor.remaining {
        if bytes == 0 {
          Skip(padding);
          r := Region(cursor.block, cursor.head, 0);
        } else {
          r := Bump(padding, bytes);
        }
      } else if bytes == 0 {
        FreshBlock();
        r := Region(cursor.block, 0, 0);
      } else {
        r := Fallback(bytes);
      }
      assert Served(old(blocks), old(cursor), blocks, cursor, r, padding, bytes);
    }

    method Skip(padding: nat)
      requires Valid() && padding <= cursor.remaining
      modifies this`cursor
      ensures Valid() && Others() == old(Others())
      ensures cursor == Cursor(old(cursor).block, old(cursor).head + padding, old(cursor).remaining - padding)
    {
      forall i | 0 <= i < |regions|
        ensures Clear(regions[i], Cursor(cursor.block, cursor.head + padding, cursor.remaining - padding))
      {
        assert Clear(regions[i], cursor);
      }
      cursor := Cursor(cursor.block, cursor.head + padding, cursor.remaining - padding);
    }

    /** At any point: what is already held moves from the one budget to the other. */
    method SetBudget(to: MemoryBudget?)
      requires Valid()
      modifies this`budget, budget, to
      ensures Valid() && budget == to
      ensures to == old(budget) ==> (to != null ==> to.used == old(to.used))
      ensures to != old(budget) ==> (old(budget) != null ==> old(budget).used == old(budget.used) - usage)
      ensures to != old(budget) ==> (to != null ==> to.used == old(to.used) + usage)
    {
      if budget == to {
        return;
      }
      if budget != null {
        budget.Release(usage);
      }
      budget := to;
      if budget != null && usage > 0 {
        var within := budget.TryAcquireOver(usage);
      }
    }

    method Destroy()
      requires Valid()
      modifies budget
      ensures budget != null ==> budget.used == old(Others())
    {
      if budget != null {
        budget.Release(usage);
      }
    }
  }
}

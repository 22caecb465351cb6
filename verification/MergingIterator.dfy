module MergingIterator {
  /**
   The k-way merge every scan and every compaction runs on.

   Children are ordered newest first. On equal keys the earlier child wins, and a child's range
   tombstones hide keys of strictly later children only. Both directions are a linear scan over the
   children's cursors, so both skip shadowed keys in a loop.
   */

  import opened Keys
  import opened Records

  // ---------- what the merge means ----------

  predicate Holds(es: seq<Entry>, k: Key) {
    Lookup(es, k).Some?
  }

  /** A child before `i` carries a range tombstone over `k`. */
  predicate Shadowed(ranges: seq<seq<Range>>, i: nat, k: Key) {
    exists j :: 0 <= j < i && j < |ranges| && Covers(ranges[j], k)
  }

  /** The newest child holding `k`, unless a strictly newer child covers the key. */
  function MergedEntry(children: seq<seq<Entry>>, ranges: seq<seq<Range>>, k: Key, i: nat := 0): Option<Op>
    decreases |children| - i
  {
    if i >= |children| then None
    else if !Holds(children[i], k) then MergedEntry(children, ranges, k, i + 1)
    else if Shadowed(ranges, i, k) then None
    else Lookup(children[i], k)
  }

  /** `out` is the merge: ascending, once per key, with exactly the merged entries. */
  ghost predicate IsMerge(out: seq<Entry>, children: seq<seq<Entry>>, ranges: seq<seq<Range>>) {
    Sorted(out) && forall k: Key :: Lookup(out, k) == MergedEntry(children, ranges, k)
  }

  function Reversed(es: seq<Entry>): seq<Entry> {
    if es == [] then [] else Reversed(es[1..]) + [es[0]]
  }

  lemma {:induction false} MergedAtHolder(children: seq<seq<Entry>>, ranges: seq<seq<Range>>, k: Key, i: nat, from: nat)
    requires from <= i < |children| && Holds(children[i], k)
    requires forall j :: from <= j < i ==> !Holds(children[j], k)
    ensures MergedEntry(children, ranges, k, from)
         == if Shadowed(ranges, i, k) then None else Lookup(children[i], k)
    decreases i - from
  {
    if from < i {
      MergedAtHolder(children, ranges, k, i, from + 1);
    }
  }

  lemma {:induction false} MergedNowhere(children: seq<seq<Entry>>, ranges: seq<seq<Range>>, k: Key, from: nat)
    requires forall j :: from <= j < |children| ==> !Holds(children[j], k)
    ensures MergedEntry(children, ranges, k, from) == None
    decreases |children| - from
  {
    if from < |children| {
      MergedNowhere(children, ranges, k, from + 1);
    }
  }

  /** The two directions deliver the same entries in opposite orders. */
  lemma ReverseScanMirrors(forward: seq<Entry>, backward: seq<Entry>,
                           children: seq<seq<Entry>>, ranges: seq<seq<Range>>)
    requires IsMerge(forward, children, ranges) && IsMerge(Reversed(backward), children, ranges)
    ensures backward == Reversed(forward)
  {
    forall k: Key
      ensures Lookup(forward, k) == Lookup(Reversed(backward), k)
    {
      assert Lookup(forward, k) == MergedEntry(children, ranges, k);
    }
    SortedIsUnique(forward, Reversed(backward));
    ReversedTwice(backward);
  }

  lemma {:induction false} ReversedTwice(es: seq<Entry>)
    ensures Reversed(Reversed(es)) == es
  {
    if es != [] {
      ReversedTwice(es[1..]);
      ReversedConcat(Reversed(es[1..]), [es[0]]);
    }
  }

  lemma {:induction false} ReversedConcat(a: seq<Entry>, b: seq<Entry>)
    ensures Reversed(a + b) == Reversed(b) + Reversed(a)
  {
    if a == [] {
      assert a + b == b;
    } else {
      assert (a + b)[1..] == a[1..] + b;
      ReversedConcat(a[1..], b);
    }
  }

  // ---------- cursors ----------

  /** Entries a forward scan has left behind: keys below `from`, and `from` itself when `past`. */
  predicate Behind(from: Key, past: bool, k: Key) {
    if past then k <= from else k < from
  }

  /** Entries a backward scan has left behind; an absent bound leaves nothing behind. */
  predicate Beyond(from: Option<Key>, past: bool, k: Key) {
    from.Some? && if past then k >= from.value else k > from.value
  }

  /** How far the cursors can still move forward. */
  function Ahead(children: seq<seq<Entry>>, pos: seq<int>): int
    requires |pos| == |children|
  {
    if pos == [] then 0 else |children[0]| - pos[0] + Ahead(children[1..], pos[1..])
  }

  lemma {:induction false} AheadShrinks(children: seq<seq<Entry>>, before: seq<int>, after: seq<int>)
    requires |before| == |after| == |children|
    requires forall i :: 0 <= i < |before| ==> before[i] <= after[i]
    ensures Ahead(children, after) <= Ahead(children, before)
    ensures (exists i :: 0 <= i < |before| && before[i] < after[i]) ==> Ahead(children, after) < Ahead(children, before)
  {
    if before != [] {
      AheadShrinks(children[1..], before[1..], after[1..]);
      if i :| 0 <= i < |before| && before[i] < after[i] {
        assert i > 0 ==> before[1..][i - 1] < after[1..][i - 1];
      }
    }
  }

  lemma {:induction false} AheadBounds(children: seq<seq<Entry>>, pos: seq<int>)
    requires |pos| == |children|
    requires forall i :: 0 <= i < |pos| ==> -1 <= pos[i] <= |children[i]|
    ensures 0 <= Ahead(children, pos)
    ensures Ahead(children, seq(|children|, _ => -1)) >= Ahead(children, pos)
  {
    if pos != [] {
      assert seq(|children|, _ => -1)[1..] == seq(|children[1..]|, _ => -1);
      AheadBounds(children[1..], pos[1..]);
    } else {
      assert seq(|children|, _ => -1) == [];
    }
  }

  datatype Carrier = Carrier(child: nat, ranges: seq<Range>)

  /** The carriers are exactly the children that have tombstones, in child order. */
  ghost predicate CarriersOf(carriers: seq<Carrier>, ranges: seq<seq<Range>>) {
    && (forall c :: 0 <= c < |carriers| ==>
          carriers[c].child < |ranges| && carriers[c].ranges == ranges[carriers[c].child])
    && (forall c, d :: 0 <= c < d < |carriers| ==> carriers[c].child < carriers[d].child)
    && (forall i :: 0 <= i < |ranges| && ranges[i] != [] ==> exists c :: 0 <= c < |carriers| && carriers[c].child == i)
  }

  lemma AppendedLookup(before: seq<Entry>, e: Entry)
    requires forall i :: 0 <= i < |before| ==> before[i].key < e.key
    ensures forall k: Key :: Lookup(before + [e], k) == if k == e.key then Some(e.op) else Lookup(before, k)
    ensures forall k: Key :: k > e.key ==> Lookup(before + [e], k) == None
  {
    forall k: Key
      ensures Lookup(before + [e], k) == if k == e.key then Some(e.op) else Lookup(before, k)
      ensures k > e.key ==> Lookup(before + [e], k) == None
    {
      LookupConcat(before, [e], k);
      LookupFinds(before, k);
    }
  }

  lemma PrependedLookup(e: Entry, before: seq<Entry>)
    requires forall i :: 0 <= i < |before| ==> before[i].key > e.key
    ensures forall k: Key :: Lookup([e] + before, k) == if k == e.key then Some(e.op) else Lookup(before, k)
    ensures forall k: Key :: k < e.key ==> Lookup([e] + before, k) == None
  {
    forall k: Key
      ensures Lookup([e] + before, k) == if k == e.key then Some(e.op) else Lookup(before, k)
      ensures k < e.key ==> Lookup([e] + before, k) == None
    {
      LookupConcat([e], before, k);
      LookupFinds(before, k);
    }
  }

  class Merge {
    const children: seq<seq<Entry>>
    const carriers: seq<Carrier>
    ghost const ranges: seq<seq<Range>>
    var pos: seq<int>
    var current: int

    ghost predicate Valid()
      reads this
    {
      && |ranges| == |children| == |pos|
      && (forall i :: 0 <= i < |children| ==> Sorted(children[i]) && Disjoint(ranges[i]))
      && (forall i :: 0 <= i < |children| ==> -1 <= pos[i] <= |children[i]|)
      && CarriersOf(carriers, ranges)
      && -1 <= current < |children|
      && (current >= 0 ==> OnEntry(current))
    }

    predicate OnEntry(i: nat)
      requires i < |children| && |pos| == |children|
      reads this
    {
      0 <= pos[i] < |children[i]|
    }

    /** The entry the merge stands on. */
    function At(): Entry
      requires Valid() && current >= 0
      reads this
    {
      children[current][pos[current]]
    }

    ghost function Merged(k: Key): Option<Op> {
      MergedEntry(children, ranges, k)
    }

    ghost function Left(): int
      requires Valid()
      reads this
    {
      Ahead(children, pos)
    }

    /** Every cursor stands on its first entry the scan has not left behind. */
    ghost predicate ForwardCut(from: Key, past: bool)
      requires Valid()
      reads this
    {
      && (forall i :: 0 <= i < |children| ==> 0 <= pos[i])
      && (forall i, t :: 0 <= i < |children| && 0 <= t < |children[i]|
                     ==> (t < pos[i] <==> Behind(from, past, children[i][t].key)))
    }

    /** Every cursor stands on its last entry the scan has not left behind. */
    ghost predicate BackwardCut(from: Option<Key>, past: bool)
      requires Valid()
      reads this
    {
      && (forall i :: 0 <= i < |children| ==> pos[i] < |children[i]|)
      && (forall i, t :: 0 <= i < |children| && 0 <= t < |children[i]|
                     ==> (t > pos[i] <==> Beyond(from, past, children[i][t].key)))
    }

    /** On the least merged key not behind `from`, or exhausted because there is none. */
    ghost predicate OnLeast(from: Key, past: bool)
      requires Valid()
      reads this
    {
      if current >= 0 then
        && ForwardCut(At().key, false)
        && !Behind(from, past, At().key)
        && Merged(At().key) == Some(At().op)
        && (forall k: Key :: !Behind(from, past, k) && k < At().key ==> Merged(k) == None)
      else
        forall k: Key :: !Behind(from, past, k) ==> Merged(k) == None
    }

    /** On the greatest merged key not beyond `from`, or exhausted because there is none. */
    ghost predicate OnGreatest(from: Option<Key>, past: bool)
      requires Valid()
      reads this
    {
      if current >= 0 then
        && BackwardCut(Some(At().key), false)
        && !Beyond(from, past, At().key)
        && Merged(At().key) == Some(At().op)
        && (forall k: Key :: !Beyond(from, past, k) && k > At().key ==> Merged(k) == None)
      else
        forall k: Key :: !Beyond(from, past, k) ==> Merged(k) == None
    }

    constructor (entries: seq<seq<Entry>>, tombstones: seq<seq<Range>>)
      requires |entries| == |tombstones|
      requires forall i :: 0 <= i < |entries| ==> Sorted(entries[i]) && Disjoint(tombstones[i])
      ensures Valid() && children == entries && ranges == tombstones && current == -1
    {
      children, ranges := entries, tombstones;
      pos, current := seq(|entries|, _ => 0), -1;
      var kept: seq<Carrier> := [];
      for i := 0 to |tombstones|
        invariant forall c :: 0 <= c < |kept| ==> kept[c].child < i && kept[c].ranges == tombstones[kept[c].child]
        invariant forall c, d :: 0 <= c < d < |kept| ==> kept[c].child < kept[d].child
        invariant forall t :: 0 <= t < i && tombstones[t] != [] ==> exists c :: 0 <= c < |kept| && kept[c].child == t
      {
        if tombstones[i] != [] {
          ghost var before := kept;
          kept := kept + [Carrier(i, tombstones[i])];
          assert kept[|before|].child == i;
          forall t | 0 <= t < i && tombstones[t] != []
            ensures exists c :: 0 <= c < |kept| && kept[c].child == t
          {
            var c :| 0 <= c < |before| && before[c].child == t;
            assert kept[c].child == t;
          }
        }
      }
      carriers := kept;
    }

    /** Whether a newer child's tombstone covers what the pick landed on. */
    method IsShadowed() returns (shadowed: bool)
      requires Valid() && current >= 0
      ensures shadowed == Shadowed(ranges, current, At().key)
    {
      var k := At().key;
      for c := 0 to |carriers|
        invariant forall d :: 0 <= d < c ==> carriers[d].child < current && !Covers(carriers[d].ranges, k)
      {
        if carriers[c].child >= current {
          break;
        }
        var covered := IsCovered(carriers[c].ranges, k);
        if covered {
          return true;
        }
      }
      forall j | 0 <= j < current && j < |ranges|
        ensures !Covers(ranges[j], k)
      {
        if ranges[j] != [] {
          var c :| 0 <= c < |carriers| && carriers[c].child == j;
        }
      }
      return false;
    }

    // ---------- forward ----------

    /** On the least child key not behind `from`, which the merge may still be hiding. */
    ghost predicate LandedForward(from: Key, past: bool)
      requires Valid()
      reads this
    {
      && (current >= 0 ==> ForwardCut(At().key, false) && !Behind(from, past, At().key))
      && (current >= 0 ==> Merged(At().key) == if Shadowed(ranges, current, At().key) then None else Some(At().op))
      && (forall k: Key :: !Behind(from, past, k) && (current >= 0 ==> k < At().key) ==> Merged(k) == None)
    }

    method PickSmallestRaw(ghost from: Key, ghost past: bool)
      requires Valid() && ForwardCut(from, past)
      modifies this`current
      ensures Valid() && LandedForward(from, past)
    {
      current := -1;
      for i := 0 to |children|
        invariant -1 <= current < i
        invariant current >= 0 ==> OnEntry(current)
        invariant forall j :: 0 <= j < i && OnEntry(j) ==>
                    current >= 0 && children[current][pos[current]].key <= children[j][pos[j]].key
        invariant forall j :: 0 <= j < current && OnEntry(j) ==>
                    children[current][pos[current]].key < children[j][pos[j]].key
      {
        if OnEntry(i) {
          if current < 0 || children[i][pos[i]].key < children[current][pos[current]].key {
            current := i;
          }
        }
      }
      assert current >= 0 ==> ForwardCut(At().key, false);
      PickedSmallest(from, past);
    }

    /** What a raw forward pick says about the merge at the picked key. */
    lemma PickedSmallest(from: Key, past: bool)
      requires Valid() && ForwardCut(from, past)
      requires current >= 0 ==> ForwardCut(At().key, false)
      requires forall j :: 0 <= j < |children| && OnEntry(j) ==>
                 current >= 0 && (j < current ==> At().key < children[j][pos[j]].key)
      ensures LandedForward(from, past)
    {
      if current >= 0 {
        forall i | 0 <= i < current
          ensures !Holds(children[i], At().key)
        {
          LookupFinds(children[i], At().key);
        }
        LookupAt(children[current], pos[current]);
        MergedAtHolder(children, ranges, At().key, current, 0);
      }
      forall k: Key | !Behind(from, past, k) && (current >= 0 ==> k < At().key)
        ensures Merged(k) == None
      {
        forall j | 0 <= j < |children|
          ensures !Holds(children[j], k)
        {
          forall t | 0 <= t < |children[j]|
            ensures children[j][t].key != k
          {
            assert t < pos[j] <==> Behind(from, past, children[j][t].key);
          }
          LookupFinds(children[j], k);
        }
        MergedNowhere(children, ranges, k, 0);
      }
    }

    /** Advances every other child sitting on the emitted key, then the current one. */
    method StepForward()
      requires Valid() && current >= 0 && ForwardCut(At().key, false)
      modifies this
      ensures current == -1 && Valid() && ForwardCut(old(At().key), true)
      ensures Left() < old(Left())
    {
      var k := At().key;
      var at := current;
      ghost var start := pos;
      for i := 0 to |children|
        invariant |pos| == |children|
        invariant forall j :: 0 <= j < |children| ==>
                    pos[j] == (if j < i && j != at && start[j] < |children[j]| && children[j][start[j]].key == k
                               then start[j] + 1 else start[j])
      {
        if i != at && pos[i] < |children[i]| && children[i][pos[i]].key == k {
          pos := pos[i := pos[i] + 1];
        }
      }
      pos := pos[at := pos[at] + 1];
      current := -1;
      assert start[at] < pos[at];
      AheadShrinks(children, start, pos);
      forall i, t | 0 <= i < |children| && 0 <= t < |children[i]|
        ensures t < pos[i] <==> Behind(k, true, children[i][t].key)
      {
        assert t < start[i] <==> children[i][t].key < k;
      }
    }

    /** One turn of the skip loop. */
    method SkipForward()
      requires Valid() && current >= 0 && ForwardCut(At().key, false)
      modifies this
      ensures Valid() && LandedForward(old(At().key), true)
      ensures 0 <= Left() < old(Left())
    {
      ghost var skipped := At().key;
      StepForward();
      PickSmallestRaw(skipped, true);
      AheadBounds(children, pos);
    }

    lemma LandedPast(from: Key, past: bool, skipped: Key)
      requires Valid() && LandedForward(skipped, true) && !Behind(from, past, skipped)
      requires forall k: Key :: !Behind(from, past, k) && k <= skipped ==> Merged(k) == None
      ensures LandedForward(from, past)
    {
    }

    /** Steps over a hidden entry: nothing the merge shows lies between. */
    method SkipHidden(ghost from: Key, ghost past: bool)
      requires Valid() && LandedForward(from, past) && current >= 0 && Merged(At().key) == None
      modifies this
      ensures Valid() && LandedForward(from, past) && 0 <= Left() < old(Left())
    {
      ghost var skipped := At().key;
      SkipForward();
      LandedPast(from, past, skipped);
    }

    method PickSmallest(ghost from: Key, ghost past: bool)
      requires Valid() && ForwardCut(from, past)
      modifies this
      ensures Valid() && OnLeast(from, past)
      ensures Left() <= old(Left())
    {
      PickSmallestRaw(from, past);
      while current >= 0
        invariant Valid() && LandedForward(from, past)
        invariant Left() <= old(Left())
        decreases if Valid() then Left() else 0
      {
        var hidden := IsShadowed();
        if !hidden {
          break;
        }
        SkipHidden(from, past);
      }
    }

    method SeekToFirst()
      requires Valid()
      modifies this
      ensures Valid() && OnLeast(EMPTY_KEY, false)
    {
      pos, current := seq(|children|, _ => 0), -1;
      PickSmallest(EMPTY_KEY, false);
    }

    /** Positions every child at its first entry with key at or above `target`. */
    method Seek(target: Key)
      requires Valid()
      modifies this
      ensures Valid() && OnLeast(target, false)
    {
      var at: seq<int> := [];
      for i := 0 to |children|
        invariant |at| == i
        invariant forall j :: 0 <= j < i ==> 0 <= at[j] <= |children[j]|
        invariant forall j, t :: 0 <= j < i && 0 <= t < |children[j]| ==> (t < at[j] <==> children[j][t].key < target)
      {
        var p := 0;
        while p < |children[i]| && children[i][p].key < target
          invariant 0 <= p <= |children[i]|
          invariant forall t :: 0 <= t < p ==> children[i][t].key < target
        {
          p := p + 1;
        }
        at := at + [p];
      }
      pos, current := at, -1;
      PickSmallest(target, false);
    }

    method Next()
      requires Valid() && current >= 0 && ForwardCut(At().key, false)
      modifies this
      ensures Valid() && OnLeast(old(At().key), true)
      ensures Left() < old(Left())
    {
      ghost var k := At().key;
      StepForward();
      PickSmallest(k, true);
    }

    /** A whole forward scan. */
    method Forward() returns (out: seq<Entry>)
      requires Valid()
      modifies this
      ensures Valid() && IsMerge(out, children, ranges)
    {
      out := [];
      SeekToFirst();
      while current >= 0
        invariant Valid() && (current >= 0 ==> ForwardCut(At().key, false))
        invariant current >= 0 ==> Merged(At().key) == Some(At().op)
        invariant Sorted(out)
        invariant current >= 0 ==> forall i :: 0 <= i < |out| ==> out[i].key < At().key
        invariant forall k: Key :: (current >= 0 ==> k < At().key) ==> Lookup(out, k) == Merged(k)
        decreases if Valid() then Left() else 0
      {
        ghost var before := out;
        var e := At();
        out := out + [e];
        AppendedLookup(before, e);
        Next();
        AheadBounds(children, pos);
      }
    }

    // ---------- backward ----------

    ghost predicate LandedBackward(from: Option<Key>, past: bool)
      requires Valid()
      reads this
    {
      && (current >= 0 ==> BackwardCut(Some(At().key), false) && !Beyond(from, past, At().key))
      && (current >= 0 ==> Merged(At().key) == if Shadowed(ranges, current, At().key) then None else Some(At().op))
      && (forall k: Key :: !Beyond(from, past, k) && (current >= 0 ==> k > At().key) ==> Merged(k) == None)
    }

    method PickLargestRaw(ghost from: Option<Key>, ghost past: bool)
      requires Valid() && BackwardCut(from, past)
      modifies this`current
      ensures Valid() && LandedBackward(from, past)
    {
      current := -1;
      for i := 0 to |children|
        invariant -1 <= current < i
        invariant current >= 0 ==> OnEntry(current)
        invariant forall j :: 0 <= j < i && OnEntry(j) ==>
                    current >= 0 && children[current][pos[current]].key >= children[j][pos[j]].key
        invariant forall j :: 0 <= j < current && OnEntry(j) ==>
                    children[current][pos[current]].key > children[j][pos[j]].key
      {
        if OnEntry(i) {
          if current < 0 || children[i][pos[i]].key > children[current][pos[current]].key {
            current := i;
          }
        }
      }
      assert current >= 0 ==> BackwardCut(Some(At().key), false);
      PickedLargest(from, past);
    }

    /** What a raw backward pick says about the merge at the picked key. */
    lemma PickedLargest(from: Option<Key>, past: bool)
      requires Valid() && BackwardCut(from, past)
      requires current >= 0 ==> BackwardCut(Some(At().key), false)
      requires forall j :: 0 <= j < |children| && OnEntry(j) ==>
                 current >= 0 && (j < current ==> At().key > children[j][pos[j]].key)
      ensures LandedBackward(from, past)
    {
      if current >= 0 {
        forall i | 0 <= i < current
          ensures !Holds(children[i], At().key)
        {
          LookupFinds(children[i], At().key);
        }
        LookupAt(children[current], pos[current]);
        MergedAtHolder(children, ranges, At().key, current, 0);
      }
      forall k: Key | !Beyond(from, past, k) && (current >= 0 ==> k > At().key)
        ensures Merged(k) == None
      {
        forall j | 0 <= j < |children|
          ensures !Holds(children[j], k)
        {
          forall t | 0 <= t < |children[j]|
            ensures children[j][t].key != k
          {
            assert t > pos[j] <==> Beyond(from, past, children[j][t].key);
          }
          LookupFinds(children[j], k);
        }
        MergedNowhere(children, ranges, k, 0);
      }
    }

    ghost function LeftBackward(): int
      requires Valid()
      reads this
    {
      Ahead(children, seq(|children|, _ => -1)) - Ahead(children, pos)
    }

    method StepBackward()
      requires Valid() && current >= 0 && BackwardCut(Some(At().key), false)
      modifies this
      ensures current == -1 && Valid() && BackwardCut(Some(old(At().key)), true)
      ensures LeftBackward() < old(LeftBackward())
    {
      var k := At().key;
      var at := current;
      ghost var start := pos;
      for i := 0 to |children|
        invariant |pos| == |children|
        invariant forall j :: 0 <= j < |children| ==>
                    pos[j] == (if j < i && j != at && start[j] >= 0 && children[j][start[j]].key == k
                               then start[j] - 1 else start[j])
      {
        if i != at && pos[i] >= 0 && children[i][pos[i]].key == k {
          pos := pos[i := pos[i] - 1];
        }
      }
      pos := pos[at := pos[at] - 1];
      current := -1;
      assert pos[at] < start[at];
      AheadShrinks(children, pos, start);
      forall i, t | 0 <= i < |children| && 0 <= t < |children[i]|
        ensures t > pos[i] <==> Beyond(Some(k), true, children[i][t].key)
      {
        assert t > start[i] <==> children[i][t].key > k;
      }
    }

    /** One turn of the skip loop. */
    method SkipBackward()
      requires Valid() && current >= 0 && BackwardCut(Some(At().key), false)
      modifies this
      ensures Valid() && LandedBackward(Some(old(At().key)), true)
      ensures 0 <= LeftBackward() < old(LeftBackward())
    {
      ghost var skipped := At().key;
      StepBackward();
      PickLargestRaw(Some(skipped), true);
      AheadBounds(children, pos);
    }

    lemma LandedShort(from: Option<Key>, past: bool, skipped: Key)
      requires Valid() && LandedBackward(Some(skipped), true) && !Beyond(from, past, skipped)
      requires forall k: Key :: !Beyond(from, past, k) && k >= skipped ==> Merged(k) == None
      ensures LandedBackward(from, past)
    {
    }

    method SkipHiddenBack(ghost from: Option<Key>, ghost past: bool)
      requires Valid() && LandedBackward(from, past) && current >= 0 && Merged(At().key) == None
      modifies this
      ensures Valid() && LandedBackward(from, past) && 0 <= LeftBackward() < old(LeftBackward())
    {
      ghost var skipped := At().key;
      SkipBackward();
      LandedShort(from, past, skipped);
    }

    method PickLargest(ghost from: Option<Key>, ghost past: bool)
      requires Valid() && BackwardCut(from, past)
      modifies this
      ensures Valid() && OnGreatest(from, past)
      ensures LeftBackward() <= old(LeftBackward())
    {
      PickLargestRaw(from, past);
      while current >= 0
        invariant Valid() && LandedBackward(from, past)
        invariant LeftBackward() <= old(LeftBackward())
        decreases if Valid() then LeftBackward() else 0
      {
        var hidden := IsShadowed();
        if !hidden {
          break;
        }
        SkipHiddenBack(from, past);
      }
    }

    method SeekToLast()
      requires Valid()
      modifies this
      ensures Valid() && OnGreatest(None, false)
    {
      pos, current := seq(|children|, i requires 0 <= i < |children| => |children[i]| - 1), -1;
      PickLargest(None, false);
    }

    /** Positions every child at its last entry with key at or below `target`. */
    method SeekForPrev(target: Key)
      requires Valid()
      modifies this
      ensures Valid() && OnGreatest(Some(target), false)
    {
      var at: seq<int> := [];
      for i := 0 to |children|
        invariant |at| == i
        invariant forall j :: 0 <= j < i ==> -1 <= at[j] < |children[j]|
        invariant forall j, t :: 0 <= j < i && 0 <= t < |children[j]| ==> (t > at[j] <==> children[j][t].key > target)
      {
        var p := |children[i]| - 1;
        while p >= 0 && children[i][p].key > target
          invariant -1 <= p < |children[i]|
          invariant forall t :: p < t < |children[i]| ==> children[i][t].key > target
        {
          p := p - 1;
        }
        at := at + [p];
      }
      pos, current := at, -1;
      PickLargest(Some(target), false);
    }

    method Prev()
      requires Valid() && current >= 0 && BackwardCut(Some(At().key), false)
      modifies this
      ensures Valid() && OnGreatest(Some(old(At().key)), true)
      ensures LeftBackward() < old(LeftBackward())
    {
      ghost var k := At().key;
      StepBackward();
      PickLargest(Some(k), true);
    }

    ghost function Standing(): Option<Key>
      requires Valid()
      reads this
    {
      if current >= 0 then Some(At().key) else None
    }

    /** What a backward scan has emitted, in key order, when it stands on `at`. */
    ghost predicate ScannedDown(done: seq<Entry>, at: Option<Key>) {
      && Sorted(done)
      && (at.Some? ==> forall i :: 0 <= i < |done| ==> done[i].key > at.value)
      && forall k: Key :: (at.Some? ==> k > at.value) ==> Lookup(done, k) == Merged(k)
    }

    lemma ScanDown(done: seq<Entry>, e: Entry, next: Option<Key>)
      requires ScannedDown(done, Some(e.key)) && Merged(e.key) == Some(e.op)
      requires next.Some? ==> next.value < e.key
      requires forall k: Key :: k < e.key && (next.Some? ==> k > next.value) ==> Merged(k) == None
      ensures ScannedDown([e] + done, next)
    {
      PrependedLookup(e, done);
    }

    /** A whole backward scan: the forward scan, reversed. */
    method Backward() returns (out: seq<Entry>)
      requires Valid()
      modifies this
      ensures Valid() && IsMerge(Reversed(out), children, ranges)
    {
      out := [];
      ghost var done := Reversed(out);
      SeekToLast();
      while current >= 0
        invariant Valid() && (current >= 0 ==> BackwardCut(Some(At().key), false))
        invariant current >= 0 ==> Merged(At().key) == Some(At().op)
        invariant done == Reversed(out) && ScannedDown(done, Standing())
        decreases if Valid() then LeftBackward() else 0
      {
        var e := At();
        ReversedConcat(out, [e]);
        out := out + [e];
        Prev();
        ScanDown(done, e, Standing());
        done := [e] + done;
        AheadBounds(children, pos);
      }
    }
  }
}

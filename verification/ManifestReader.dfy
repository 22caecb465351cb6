module ManifestReader {
  /** A reader of a store that any number of writers are rolling: the pointer first, then the snapshot it names. */

  import opened Keys
  import opened Ownership
  import opened Chunks

  /** What a query of the table returns for one attempt: its items, each once, in whatever order. */
  ghost predicate Listing(s: Catalog, items: seq<Tagged>, a: nat) {
    && a in s.attempts
    && (forall i, j :: 0 <= i < j < |Of(items, a)| ==> Of(items, a)[i].address != Of(items, a)[j].address)
    && forall x :: x in Of(items, a) <==>
         exists i: nat :: (a, i) in s.table && x == Item(Rank(Printed(i)), |s.attempts[a].chunks|, s.table[(a, i)])
  }

  lemma ListingOfAWhole(s: Catalog, items: seq<Tagged>, a: nat)
    requires Snapshots(s) && Listing(s, items, a)
    requires forall i: nat :: i < |s.attempts[a].chunks| ==> (a, i) in s.table
    ensures forall x :: x in Of(items, a) <==> x in ItemsOf(s.attempts[a].chunks)
  {
    var chunks := s.attempts[a].chunks;
    forall x
      ensures x in Of(items, a) <==> x in ItemsOf(chunks)
    {
      if x in Of(items, a) {
        var i: nat :| (a, i) in s.table && x == Item(Rank(Printed(i)), |s.attempts[a].chunks|, s.table[(a, i)]);
        assert ItemsOf(chunks)[i] == x;
      }
      if x in ItemsOf(chunks) {
        var i: nat :| i < |chunks| && ItemsOf(chunks)[i] == x;
        assert (a, i) in s.table;
      }
    }
  }

  /** The attempt the pointer named at `m` still has every chunk at `n`. */
  lemma StillWhole(ss: seq<Catalog>, m: nat, n: nat, a: nat)
    requires Run(ss) && m <= n < |ss| && ss[m].history != [] && Generation(ss[n]) == Generation(ss[m])
    requires ss[m].history[|ss[m].history| - 1].attempt == Some(a) && a in ss[m].attempts
    ensures Snapshots(ss[n]) && a in ss[n].attempts && ss[n].attempts[a].chunks == ss[m].attempts[a].chunks
    ensures forall i: nat :: i < |ss[m].attempts[a].chunks| ==> (a, i) in ss[n].table
  {
    RunKeeps(ss, n);
    RunsOnward(ss, m, n);
    forall i: nat | i < |ss[m].attempts[a].chunks|
      ensures (a, i) in ss[n].table
    {
      ReaderSeesTheInstaller(ss, m, n, i);
    }
  }

  lemma {:induction false} DistinctCount(items: seq<Item>)
    requires forall i, j :: 0 <= i < j < |items| ==> items[i].address != items[j].address
    ensures |set x | x in items| == |items|
  {
    if items != [] {
      var front, last := items[..|items| - 1], items[|items| - 1];
      DistinctCount(front);
      assert items == front + [last];
      assert (set x | x in items) == (set x | x in front) + {last};
    }
  }

  /** A listing that holds every chunk once is complete, in whatever order it came. */
  lemma WholeIsComplete(items: seq<Tagged>, a: nat, chunks: seq<Bytes>)
    requires 0 < |chunks| <= 10000 && forall x :: x in Of(items, a) <==> x in ItemsOf(chunks)
    requires forall i, j :: 0 <= i < j < |Of(items, a)| ==> Of(items, a)[i].address != Of(items, a)[j].address
    ensures Complete(items, a)
  {
    var of, own := Of(items, a), ItemsOf(chunks);
    forall i, j | 0 <= i < j < |own|
      ensures own[i].address != own[j].address
    {
      PrintedOrders(i, j);
      RankOrders(Printed(i), Printed(j));
    }
    DistinctCount(of);
    DistinctCount(own);
    assert (set x | x in of) == (set x | x in own);
    assert own[0] in own;
    assert of[0] in own;
  }

  /**
   However long after reading the pointer the query runs, and whatever residue and rival snapshots lie
   beside it: while the generation stands, the reader gets the bytes its installer wrote.
   */
  method ReadNamedSnapshot(ghost ss: seq<Catalog>, ghost m: nat, ghost n: nat, a: nat, items: seq<Tagged>)
    returns (r: Fetched<Bytes>)
    requires Run(ss) && m <= n < |ss| && ss[m].history != [] && Generation(ss[n]) == Generation(ss[m])
    requires ss[m].history[|ss[m].history| - 1].attempt == Some(a) && a in ss[m].attempts
    requires |ss[m].attempts[a].chunks| <= 10000 && Listing(ss[n], items, a)
    requires forall b, i, j :: 0 <= i < j < |Of(items, b)| ==> Of(items, b)[i].address != Of(items, b)[j].address
    ensures r == Found(Joined(ss[m].attempts[a].chunks))
  {
    ghost var chunks := ss[m].attempts[a].chunks;
    StillWhole(ss, m, n, a);
    ListingOfAWhole(ss[n], items, a);
    WholeIsComplete(items, a, chunks);
    ghost var chosen;
    r, chosen := GetSnapshot(items, Some(a));
    NamedSnapshotReadsBack(items, a, chunks, r);
  }
}

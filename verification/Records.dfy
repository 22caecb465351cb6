module Records {
  /**
   Point entries and range tombstones: what one sorted file is made of.

   Entries are a strictly sorted sequence. Range tombstones are half-open, and a file carries them as
   a sorted cover whose members neither overlap nor touch.
   */

  import opened Keys

  type Value = Bytes

  datatype Op = Put(value: Value) | Delete

  datatype Entry = Entry(key: Key, op: Op)

  datatype Range = Range(lower: Key, upper: Key)

  // ---------- point entries ----------

  predicate Sorted(es: seq<Entry>) {
    forall i, j :: 0 <= i < j < |es| ==> es[i].key < es[j].key
  }

  /** The entry recorded for `k`. */
  function Lookup(es: seq<Entry>, k: Key): Option<Op> {
    if es == [] then None
    else if es[0].key == k then Some(es[0].op)
    else Lookup(es[1..], k)
  }

  lemma {:induction false} LookupFinds(es: seq<Entry>, k: Key)
    ensures Lookup(es, k).Some? <==> exists i :: 0 <= i < |es| && es[i].key == k
    ensures Lookup(es, k).Some? ==> exists i :: 0 <= i < |es| && es[i] == Entry(k, Lookup(es, k).value)
  {
    if es != [] && es[0].key != k {
      var rest := es[1..];
      LookupFinds(rest, k);
      if i :| 0 <= i < |es| && es[i].key == k {
        assert rest[i - 1] == es[i];
      }
      if Lookup(rest, k).Some? {
        var i :| 0 <= i < |rest| && rest[i] == Entry(k, Lookup(rest, k).value);
        assert es[i + 1] == rest[i];
      }
    }
  }

  lemma {:induction false} LookupAt(es: seq<Entry>, i: nat)
    requires Sorted(es) && i < |es|
    ensures Lookup(es, es[i].key) == Some(es[i].op)
  {
    if i > 0 {
      assert es[0].key < es[i].key;
      LookupAt(es[1..], i - 1);
    }
  }

  lemma {:induction false} LookupConcat(a: seq<Entry>, b: seq<Entry>, k: Key)
    ensures Lookup(a + b, k) == OrElse(Lookup(a, k), Lookup(b, k))
  {
    if a == [] {
      assert a + b == b;
    } else {
      assert (a + b)[1..] == a[1..] + b;
      LookupConcat(a[1..], b, k);
    }
  }

  /** A sorted sequence is determined by its lookups. */
  lemma {:induction false} SortedIsUnique(a: seq<Entry>, b: seq<Entry>)
    requires Sorted(a) && Sorted(b)
    requires forall k: Key :: Lookup(a, k) == Lookup(b, k)
    ensures a == b
  {
    if a == [] || b == [] {
      assert a != [] ==> Lookup(a, a[0].key) == Lookup(b, a[0].key);
      assert b != [] ==> Lookup(a, b[0].key) == Lookup(b, b[0].key);
    } else {
      LookupFinds(a, b[0].key);
      LookupFinds(b, a[0].key);
      assert Lookup(a, a[0].key) == Lookup(b, a[0].key);
      assert Lookup(a, b[0].key) == Lookup(b, b[0].key);
      assert a[0] == b[0];
      forall k: Key
        ensures Lookup(a[1..], k) == Lookup(b[1..], k)
      {
        if k == a[0].key {
          LookupFinds(a[1..], k);
          LookupFinds(b[1..], k);
        } else {
          assert Lookup(a, k) == Lookup(b, k);
        }
      }
      SortedIsUnique(a[1..], b[1..]);
    }
  }

  // ---------- range tombstones ----------

  predicate InRange(r: Range, k: Key) {
    r.lower <= k < r.upper
  }

  predicate Covers(rs: seq<Range>, k: Key) {
    exists i :: 0 <= i < |rs| && InRange(rs[i], k)
  }

  /** Sorted, no member empty, and a gap between every two: neither overlapping nor adjacent. */
  predicate Disjoint(rs: seq<Range>) {
    && (forall i :: 0 <= i < |rs| ==> rs[i].lower < rs[i].upper)
    && (forall i, j :: 0 <= i < j < |rs| ==> rs[i].upper < rs[j].lower)
  }

  /** The half-open slice between two optional bounds; an absent bound is unbounded. */
  predicate Within(lower: Option<Key>, upper: Option<Key>, k: Key) {
    (lower.Some? ==> lower.value <= k) && (upper.Some? ==> k < upper.value)
  }

  predicate RangeOrder(a: Range, b: Range) {
    if a.lower != b.lower then a.lower < b.lower else a.upper <= b.upper
  }

  method SortRanges(rs: seq<Range>) returns (out: seq<Range>)
    ensures forall r :: r in out <==> r in rs
    ensures forall i, j :: 0 <= i < j < |out| ==> RangeOrder(out[i], out[j])
  {
    out := [];
    for n := 0 to |rs|
      invariant forall r :: r in out <==> r in rs[..n]
      invariant forall i, j :: 0 <= i < j < |out| ==> RangeOrder(out[i], out[j])
    {
      var at := 0;
      while at < |out| && RangeOrder(out[at], rs[n])
        invariant 0 <= at <= |out|
        invariant forall i :: 0 <= i < at ==> RangeOrder(out[i], rs[n])
      {
        at := at + 1;
      }
      assert rs[..n + 1] == rs[..n] + [rs[n]];
      assert out == out[..at] + out[at..];
      out := out[..at] + [rs[n]] + out[at..];
    }
    assert rs[..|rs|] == rs;
  }

  lemma CoversOne(r: Range, k: Key)
    ensures Covers([r], k) <==> InRange(r, k)
  {
    assert InRange(r, k) ==> InRange([r][0], k);
  }

  /** One range taken into a merged list it does not start before the end of. */
  method MergeOne(before: seq<Range>, range: Range) returns (merged: seq<Range>)
    requires Disjoint(before) && (before != [] ==> before[|before| - 1].lower <= range.lower)
    ensures Disjoint(merged) && forall k: Key :: Covers(merged, k) <==> Covers(before, k) || InRange(range, k)
    ensures merged != [] ==> merged[|merged| - 1].lower <= range.lower
  {
    forall k: Key
      ensures Covers([range], k) <==> InRange(range, k)
    {
      CoversOne(range, k);
    }
    if range.lower >= range.upper {
      return before;
    }
    if before == [] || before[|before| - 1].upper < range.lower {
      CoversConcat(before, [range]);
      return before + [range];
    }
    var front, last := before[..|before| - 1], before[|before| - 1];
    var wider := if range.upper > last.upper then Range(last.lower, range.upper) else last;
    assert before == front + [last];
    CoversConcat(front, [last]);
    CoversConcat(front, [wider]);
    forall k: Key
      ensures Covers([wider], k) <==> Covers([last], k) || InRange(range, k)
    {
      CoversOne(wider, k);
      CoversOne(last, k);
    }
    merged := front + [wider];
  }

  /** The union of a set of ranges, as a sorted cover of the same keys with a gap between members. */
  method MergeRanges(rs: seq<Range>) returns (merged: seq<Range>)
    ensures Disjoint(merged)
    ensures forall k: Key :: Covers(merged, k) <==> Covers(rs, k)
  {
    var sorted := SortRanges(rs);
    merged := [];
    for n := 0 to |sorted|
      invariant Disjoint(merged)
      invariant forall k: Key :: Covers(merged, k) <==> Covers(sorted[..n], k)
      invariant merged != [] && n < |sorted| ==> merged[|merged| - 1].lower <= sorted[n].lower
    {
      assert sorted[..n + 1] == sorted[..n] + [sorted[n]];
      CoversConcat(sorted[..n], [sorted[n]]);
      forall k: Key
        ensures Covers([sorted[n]], k) <==> InRange(sorted[n], k)
      {
        CoversOne(sorted[n], k);
      }
      merged := MergeOne(merged, sorted[n]);
      assert n + 1 < |sorted| ==> RangeOrder(sorted[n], sorted[n + 1]);
    }
    assert sorted[..|sorted|] == sorted;
    CoversSameMembers(sorted, rs);
  }

  lemma CoversConcat(a: seq<Range>, b: seq<Range>)
    ensures forall k: Key :: Covers(a + b, k) <==> Covers(a, k) || Covers(b, k)
  {
    forall k: Key
      ensures Covers(a + b, k) <==> Covers(a, k) || Covers(b, k)
    {
      if i :| 0 <= i < |a| && InRange(a[i], k) {
        assert InRange((a + b)[i], k);
      }
      if i :| 0 <= i < |b| && InRange(b[i], k) {
        assert InRange((a + b)[|a| + i], k);
      }
    }
  }

  lemma CoversSameMembers(a: seq<Range>, b: seq<Range>)
    requires forall r :: r in a <==> r in b
    ensures forall k: Key :: Covers(a, k) <==> Covers(b, k)
  {
    forall k: Key
      ensures Covers(a, k) <==> Covers(b, k)
    {
      if i :| 0 <= i < |a| && InRange(a[i], k) {
        assert a[i] in b;
      }
      if i :| 0 <= i < |b| && InRange(b[i], k) {
        assert b[i] in a;
      }
    }
  }

  /** The part of a cover that lies inside one slice of the keyspace. */
  method ClipRanges(rs: seq<Range>, lower: Option<Key>, upper: Option<Key>) returns (clipped: seq<Range>)
    requires Disjoint(rs)
    ensures Disjoint(clipped)
    ensures forall k: Key :: Covers(clipped, k) <==> Covers(rs, k) && Within(lower, upper, k)
  {
    clipped := [];
    for n := 0 to |rs|
      invariant Disjoint(clipped) && (clipped != [] && n < |rs| ==> clipped[|clipped| - 1].upper < rs[n].lower)
      invariant Clips(clipped, rs[..n], lower, upper)
    {
      ClipStep(rs, n, clipped, lower, upper);
      clipped := Clipped(clipped, rs[n], lower, upper);
    }
    assert rs[..|rs|] == rs;
  }

  ghost predicate Clips(clipped: seq<Range>, rs: seq<Range>, lower: Option<Key>, upper: Option<Key>) {
    forall k: Key :: Covers(clipped, k) <==> Covers(rs, k) && Within(lower, upper, k)
  }

  function ClipLow(r: Range, lower: Option<Key>): Key {
    if lower.Some? && lower.value > r.lower then lower.value else r.lower
  }

  function ClipHigh(r: Range, upper: Option<Key>): Key {
    if upper.Some? && upper.value < r.upper then upper.value else r.upper
  }

  /** The part of one range inside the slice, if there is any, put at the end. */
  function Clipped(clipped: seq<Range>, r: Range, lower: Option<Key>, upper: Option<Key>): seq<Range> {
    var piece := Range(ClipLow(r, lower), ClipHigh(r, upper));
    if piece.lower < piece.upper then clipped + [piece] else clipped
  }

  lemma ClipCovers(clipped: seq<Range>, r: Range, lower: Option<Key>, upper: Option<Key>, k: Key)
    ensures Covers(Clipped(clipped, r, lower, upper), k) <==>
            Covers(clipped, k) || (InRange(r, k) && Within(lower, upper, k))
  {
    var piece := Range(ClipLow(r, lower), ClipHigh(r, upper));
    CoversConcat(clipped, [piece]);
    CoversOne(piece, k);
  }

  lemma ClipStep(rs: seq<Range>, n: nat, clipped: seq<Range>, lower: Option<Key>, upper: Option<Key>)
    requires n < |rs| && Disjoint(rs) && Disjoint(clipped)
             && (clipped != [] ==> clipped[|clipped| - 1].upper < rs[n].lower)
    requires Clips(clipped, rs[..n], lower, upper)
    ensures var after := Clipped(clipped, rs[n], lower, upper);
            && Disjoint(after) && Clips(after, rs[..n + 1], lower, upper)
            && (after != [] && n + 1 < |rs| ==> after[|after| - 1].upper < rs[n + 1].lower)
  {
    assert rs[..n + 1] == rs[..n] + [rs[n]];
    CoversConcat(rs[..n], [rs[n]]);
    forall k: Key
      ensures Covers(Clipped(clipped, rs[n], lower, upper), k) <==> Covers(rs[..n + 1], k) && Within(lower, upper, k)
    {
      ClipCovers(clipped, rs[n], lower, upper, k);
      CoversOne(rs[n], k);
    }
    assert n + 1 < |rs| ==> rs[n].upper < rs[n + 1].lower;
  }


  /** `std::upper_bound` on the lower bounds, then one look to the left. */
  method IsCovered(rs: seq<Range>, k: Key) returns (covered: bool)
    requires Disjoint(rs)
    ensures covered == Covers(rs, k)
  {
    var lo, hi := 0, |rs|;
    while lo < hi
      invariant 0 <= lo <= hi <= |rs|
      invariant forall i :: 0 <= i < lo ==> rs[i].lower <= k
      invariant forall i :: hi <= i < |rs| ==> k < rs[i].lower
    {
      var mid := (lo + hi) / 2;
      if k < rs[mid].lower { hi := mid; } else { lo := mid + 1; }
    }
    if lo == 0 {
      return false;
    }
    assert forall i :: 0 <= i < lo - 1 ==> rs[i].upper < rs[lo - 1].lower;
    covered := k < rs[lo - 1].upper;
    if covered {
      assert InRange(rs[lo - 1], k);
    }
  }

  /** A cover that starts its last member below `bound` and does not cover `bound` ends there. */
  lemma CoverEnds(rs: seq<Range>, bound: Key)
    requires Disjoint(rs) && rs != [] && rs[|rs| - 1].lower < bound && !Covers(rs, bound)
    ensures rs[|rs| - 1].upper <= bound
  {
    var last := rs[|rs| - 1];
    assert InRange(last, bound) ==> Covers(rs, bound);
  }

  /**
   A union of several members can never span a gap: a closed span is wholly covered exactly when one
   member contains it. The keys asked about may be any that include the span's start and the members' ends,
   so this holds over byte strings as it does over all ranks.
   */
  lemma OneRangeCoversSpan(rs: seq<Range>, lo: Key, hi: Key, keys: iset<Key>)
    requires Disjoint(rs) && lo <= hi && lo in keys && forall i :: 0 <= i < |rs| ==> rs[i].upper in keys
    ensures (forall k :: k in keys && lo <= k <= hi ==> Covers(rs, k))
       <==> (exists i :: 0 <= i < |rs| && rs[i].lower <= lo && hi < rs[i].upper)
  {
    if forall k :: k in keys && lo <= k <= hi ==> Covers(rs, k) {
      assert Covers(rs, lo);
      var i :| 0 <= i < |rs| && InRange(rs[i], lo);
      assert rs[i].upper in keys && !Covers(rs, rs[i].upper);
    }
    if i :| 0 <= i < |rs| && rs[i].lower <= lo && hi < rs[i].upper {
      forall k | k in keys && lo <= k <= hi
        ensures Covers(rs, k)
      {
        assert InRange(rs[i], k);
      }
    }
  }
}

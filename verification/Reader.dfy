module Reader {
  /**
   The read path as it runs: spans recorded in the manifest rule files out, and below level 0 a binary
   search finds the only file that can answer. The result is the positional read, for every key.
   */

  import opened Keys
  import opened Records
  import opened Version
  import opened Store
  import opened Skiplist

  predicate MayHold(f: File, k: Key) {
    SmallestKey(f) <= k <= LargestKey(f)
  }

  predicate MayCover(f: File, k: Key) {
    f.ranges != [] && SmallestRangeKey(f) <= k < LargestRangeKey(f)
  }

  lemma SpansAdmit(f: File, k: Key)
    requires ValidFile(f)
    ensures Lookup(f.entries, k).Some? ==> MayHold(f, k)
    ensures Covers(f.ranges, k) ==> MayCover(f, k)
  {
    LookupFinds(f.entries, k);
  }

  /** One file: the point entry is asked first, then its own tombstones, and either span may skip it. */
  method AskFile(f: File, k: Key) returns (found: Option<Op>)
    requires ValidFile(f)
    ensures found == View(f, k)
  {
    SpansAdmit(f, k);
    if MayHold(f, k) {
      var entry := Lookup(f.entries, k);
      if entry.Some? {
        return entry;
      }
    }
    if MayCover(f, k) {
      var covered := IsCovered(f.ranges, k);
      if covered {
        return Some(Delete);
      }
    }
    return None;
  }

  predicate CarriesRanges(files: seq<File>) {
    exists f :: f in files && f.ranges != []
  }

  /** Without tombstones a deep level's data spans are disjoint and ascend together. */
  lemma SpansAscend(level: nat, files: seq<File>, i: nat, j: nat)
    requires level > 0 && ValidLevel(level, files) && !CarriesRanges(files) && i < j < |files|
    ensures LargestKey(files[i]) < SmallestKey(files[j]) && LargestKey(files[i]) < LargestKey(files[j])
  {
    var f, g := files[i], files[j];
    assert f in files && g in files && KeyOrder(f, g);
    SmallestIsTouched(f);
    SmallestIsTouched(g);
    if Before(g, f) {
      BeforeOrders(g, f, SmallestKey(g), SmallestKey(f));
    }
  }

  /** `lower_bound` on the largest key. */
  method FirstReaching(level: nat, files: seq<File>, k: Key) returns (at: nat)
    requires level > 0 && ValidLevel(level, files) && !CarriesRanges(files)
    ensures at <= |files|
    ensures forall j :: 0 <= j < at ==> LargestKey(files[j]) < k
    ensures forall j :: at <= j < |files| ==> k <= LargestKey(files[j])
  {
    var lo, hi := 0, |files|;
    while lo < hi
      invariant 0 <= lo <= hi <= |files|
      invariant forall j :: 0 <= j < lo ==> LargestKey(files[j]) < k
      invariant forall j :: hi <= j < |files| ==> k <= LargestKey(files[j])
    {
      var mid := (lo + hi) / 2;
      forall i, j | 0 <= i < j < |files|
        ensures LargestKey(files[i]) < LargestKey(files[j])
      {
        SpansAscend(level, files, i, j);
      }
      if LargestKey(files[mid]) < k {
        lo := mid + 1;
      } else {
        hi := mid;
      }
    }
    return lo;
  }

  /** The one file the search lands on is the only one that can speak about the key. */
  lemma OnlyOneSpeaks(level: nat, files: seq<File>, k: Key, at: nat)
    requires level > 0 && ValidLevel(level, files) && !CarriesRanges(files) && at <= |files|
    requires forall j :: 0 <= j < at ==> LargestKey(files[j]) < k
    requires forall j :: at <= j < |files| ==> k <= LargestKey(files[j])
    ensures Walk(files, k) == if at < |files| then View(files[at], k) else None
  {
    forall j | 0 <= j < |files| && j != at
      ensures !Touches(files[j], k)
    {
      assert files[j] in files;
      if at < j { SpansAscend(level, files, at, j); }
      if Touches(files[j], k) { TouchSpan(files[j], k); }
    }
    if at < |files| && Touches(files[at], k) {
      WalkMember(files, k, files[at]);
    } else {
      WalkSilent(files, k);
    }
  }

  lemma {:induction false} WalkFrom(files: seq<File>, i: nat, k: Key)
    requires i < |files|
    ensures Walk(files[i..], k) == OrElse(View(files[i], k), Walk(files[i + 1..], k))
  {
    assert files[i..][0] == files[i] && files[i..][1..] == files[i + 1..];
  }

  method AskLevel(level: nat, files: seq<File>, k: Key) returns (found: Option<Op>)
    requires ValidLevel(level, files)
    ensures found == Walk(files, k)
  {
    if level > 0 && !CarriesRanges(files) {
      var at := FirstReaching(level, files, k);
      OnlyOneSpeaks(level, files, k, at);
      if at < |files| {
        found := AskFile(files[at], k);
      } else {
        found := None;
      }
    } else {
      for i := 0 to |files|
        invariant Walk(files, k) == Walk(files[i..], k)
      {
        assert files[i] in files;
        WalkFrom(files, i, k);
        found := AskFile(files[i], k);
        if found.Some? {
          return;
        }
      }
      return None;
    }
  }

  method AskLevels(levels: Levels, k: Key) returns (found: Option<Op>)
    requires ValidLevels(levels)
    ensures found == WalkLevels(levels, k)
  {
    assert levels[0..] == levels;
    for i := 0 to |levels|
      invariant WalkLevels(levels, k) == WalkLevels(levels[i..], k)
    {
      assert levels[i..][0] == levels[i] && levels[i..][1..] == levels[i + 1..];
      found := AskLevel(i, levels[i], k);
      if found.Some? {
        return;
      }
    }
    return None;
  }

  /** `get`: absence below the truncation point, then both memtables, then the levels. */
  method Get(mem: Memtable, imm: Memtable?, levels: Levels, truncation: Key, k: Key) returns (value: Option<Value>)
    requires mem.Valid() && (imm != null ==> imm.Valid()) && ValidLevels(levels)
    ensures value == Visible([mem.AsMem()] + (if imm == null then [] else [imm.AsMem()]), levels, truncation, k)
  {
    ghost var frozen := if imm == null then [] else [imm.AsMem()];
    assert ([mem.AsMem()] + frozen)[1..] == frozen;
    assert WalkMems(frozen, k) == if imm == null then None else MemView(imm.AsMem(), k) by {
      assert imm != null ==> frozen[1..] == [];
    }
    if k < truncation {
      return None;
    }
    var found := mem.Lookup(k);
    if found.None? && imm != null {
      found := imm.Lookup(k);
    }
    if found.None? {
      found := AskLevels(levels, k);
    }
    return Resolve(found);
  }
}

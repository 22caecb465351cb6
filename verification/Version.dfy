module Version {
  /**
   Files, levels and the positional read.

   There are no sequence numbers. A reader walks sources newest first: level 0 by descending file
   number, then each deeper level. A file's own entry wins over its own range tombstone, and the
   tombstone answers for everything older.
   */

  import opened Keys
  import opened Records

  /** The embedder's log positions a file's data lies within; either bound may be absent. */
  datatype Watermark = Watermark(low: Option<nat>, high: Option<nat>)

  datatype File = File(
    number: nat,
    store: nat,
    entries: seq<Entry>,
    ranges: seq<Range>,
    bytes: nat,
    minTime: nat,
    maxTime: nat,
    watermark: Watermark)

  type Levels = seq<seq<File>>

  predicate ValidFile(f: File) {
    Sorted(f.entries) && Disjoint(f.ranges) && (f.entries != [] || f.ranges != [])
  }

  // ---------- recorded metadata ----------

  /** Empty key when the file holds no entries. */
  function SmallestKey(f: File): Key {
    if f.entries == [] then EMPTY_KEY else f.entries[0].key
  }

  function LargestKey(f: File): Key {
    if f.entries == [] then EMPTY_KEY else f.entries[|f.entries| - 1].key
  }

  function SmallestRangeKey(f: File): Key {
    if f.ranges == [] then EMPTY_KEY else f.ranges[0].lower
  }

  function LargestRangeKey(f: File): Key {
    if f.ranges == [] then EMPTY_KEY else f.ranges[|f.ranges| - 1].upper
  }

  /** The span a file affects: data and deletions together. */
  function EffectiveSmallest(f: File): Key {
    if f.ranges == [] then SmallestKey(f)
    else if f.entries == [] then SmallestRangeKey(f)
    else if SmallestRangeKey(f) < SmallestKey(f) then SmallestRangeKey(f)
    else SmallestKey(f)
  }

  /** A tombstone's exclusive bound is used here as an inclusive one. */
  function EffectiveLargest(f: File): Key {
    if f.ranges == [] then LargestKey(f)
    else if f.entries == [] then LargestRangeKey(f)
    else if LargestKey(f) < LargestRangeKey(f) then LargestRangeKey(f)
    else LargestKey(f)
  }

  function NumTombstones(es: seq<Entry>): nat {
    if es == [] then 0 else (if es[0].op.Delete? then 1 else 0) + NumTombstones(es[1..])
  }

  lemma {:induction false} NoTombstones(es: seq<Entry>)
    ensures NumTombstones(es) == 0 <==> forall e :: e in es ==> e.op.Put?
  {
    if es != [] {
      NoTombstones(es[1..]);
      assert forall e :: e in es <==> e == es[0] || e in es[1..];
    }
  }

  // ---------- the positional read ----------

  /** What one file says about a key: its entry, else a deletion its tombstones imply, else nothing. */
  function View(f: File, k: Key): Option<Op> {
    if Lookup(f.entries, k).Some? then Lookup(f.entries, k)
    else if Covers(f.ranges, k) then Some(Delete)
    else None
  }

  predicate Touches(f: File, k: Key) {
    View(f, k).Some?
  }

  /** Newest first, first answer wins. */
  function Walk(files: seq<File>, k: Key): Option<Op> {
    if files == [] then None else OrElse(View(files[0], k), Walk(files[1..], k))
  }

  function WalkLevels(levels: Levels, k: Key): Option<Op> {
    if levels == [] then None else OrElse(Walk(levels[0], k), WalkLevels(levels[1..], k))
  }

  /** A deletion and silence read the same once nothing older is left to ask. */
  function Resolve(found: Option<Op>): Option<Value> {
    match found
    case Some(Put(v)) => Some(v)
    case _ => None
  }

  lemma {:induction false} WalkConcat(a: seq<File>, b: seq<File>, k: Key)
    ensures Walk(a + b, k) == OrElse(Walk(a, k), Walk(b, k))
  {
    if a == [] {
      assert a + b == b;
    } else {
      assert (a + b)[1..] == a[1..] + b;
      WalkConcat(a[1..], b, k);
    }
  }

  lemma {:induction false} WalkLevelsConcat(a: Levels, b: Levels, k: Key)
    ensures WalkLevels(a + b, k) == OrElse(WalkLevels(a, k), WalkLevels(b, k))
  {
    if a == [] {
      assert a + b == b;
    } else {
      assert (a + b)[1..] == a[1..] + b;
      WalkLevelsConcat(a[1..], b, k);
    }
  }

  lemma {:induction false} WalkSilent(files: seq<File>, k: Key)
    ensures Walk(files, k).None? <==> forall f :: f in files ==> !Touches(f, k)
  {
    if files != [] {
      WalkSilent(files[1..], k);
      assert files[0] in files;
      assert forall f :: f in files <==> f == files[0] || f in files[1..];
    }
  }

  lemma {:induction false} WalkLevelsSilent(levels: Levels, k: Key)
    ensures WalkLevels(levels, k).None? <==> forall i :: 0 <= i < |levels| ==> Walk(levels[i], k).None?
  {
    if levels != [] {
      var rest := levels[1..];
      WalkLevelsSilent(rest, k);
      assert forall i :: 0 <= i < |rest| ==> rest[i] == levels[i + 1];
      assert forall i :: 1 <= i < |levels| ==> levels[i] == rest[i - 1];
    }
  }

  /** Pulls one level out of the walk. */
  lemma WalkSplit(levels: Levels, n: nat, k: Key)
    requires n < |levels|
    ensures WalkLevels(levels, k)
         == OrElse(WalkLevels(levels[..n], k), OrElse(Walk(levels[n], k), WalkLevels(levels[n + 1..], k)))
  {
    assert levels == levels[..n] + levels[n..];
    WalkLevelsConcat(levels[..n], levels[n..], k);
    assert levels[n..][0] == levels[n] && levels[n..][1..] == levels[n + 1..];
  }

  // ---------- key-disjoint levels ----------

  /** Every key `f` speaks about is below every key `g` speaks about. */
  predicate Before(f: File, g: File) {
    && (f.entries != [] ==> LargestKey(f) < EffectiveSmallest(g))
    && (f.ranges != [] ==> LargestRangeKey(f) <= EffectiveSmallest(g))
  }

  predicate Separated(f: File, g: File) {
    Before(f, g) || Before(g, f)
  }

  predicate KeyDisjoint(files: seq<File>) {
    forall f, g :: f in files && g in files && f != g ==> Separated(f, g)
  }

  /** The order of `sort_level` below level 0. */
  predicate KeyOrder(f: File, g: File) {
    SmallestKey(f) < SmallestKey(g) || (SmallestKey(f) == SmallestKey(g) && f.number < g.number)
  }

  predicate KeySorted(files: seq<File>) {
    forall i, j :: 0 <= i < j < |files| ==> KeyOrder(files[i], files[j])
  }

  predicate NewestFirst(files: seq<File>) {
    forall i, j :: 0 <= i < j < |files| ==> files[i].number > files[j].number
  }

  predicate DistinctNumbers(files: seq<File>) {
    forall i, j :: 0 <= i < j < |files| ==> files[i].number != files[j].number
  }

  predicate ValidFiles(files: seq<File>) {
    forall f :: f in files ==> ValidFile(f)
  }

  predicate ValidLevel(level: nat, files: seq<File>) {
    && ValidFiles(files)
    && DistinctNumbers(files)
    && (level == 0 ==> NewestFirst(files))
    && (level > 0 ==> KeyDisjoint(files) && KeySorted(files))
  }

  predicate ValidLevels(levels: Levels) {
    forall i :: 0 <= i < |levels| ==> ValidLevel(i, levels[i])
  }

  /** What a file touches lies inside its effective span, with tombstone bounds exclusive above. */
  lemma TouchSpan(f: File, k: Key)
    requires ValidFile(f) && Touches(f, k)
    ensures EffectiveSmallest(f) <= k <= EffectiveLargest(f)
    ensures (f.entries != [] && k <= LargestKey(f)) || (f.ranges != [] && k < LargestRangeKey(f))
  {
    LookupFinds(f.entries, k);
    if Lookup(f.entries, k).Some? {
      var i :| 0 <= i < |f.entries| && f.entries[i].key == k;
    } else {
      var i :| 0 <= i < |f.ranges| && InRange(f.ranges[i], k);
    }
  }

  lemma SmallestIsTouched(f: File)
    requires ValidFile(f)
    ensures Touches(f, EffectiveSmallest(f))
    ensures EffectiveSmallest(f) <= EffectiveLargest(f)
  {
    if f.entries != [] {
      LookupAt(f.entries, 0);
    }
    if f.ranges != [] {
      assert InRange(f.ranges[0], f.ranges[0].lower);
    }
    TouchSpan(f, EffectiveSmallest(f));
  }

  lemma BeforeOrders(f: File, g: File, k: Key, l: Key)
    requires ValidFile(f) && ValidFile(g) && Before(f, g)
    requires Touches(f, k) && Touches(g, l)
    ensures k < l
  {
    TouchSpan(f, k);
    TouchSpan(g, l);
  }

  /** The keys that decide whether `f` lies before `g`: the ends of what `f` holds, and where `g` starts. */
  function Ends(f: File, g: File): set<Key> {
    {LargestKey(f), EffectiveSmallest(g)} + (if f.ranges == [] then {} else {f.ranges[|f.ranges| - 1].lower})
  }

  /** If everything `f` touches is below where `g` starts, the spans say so too. */
  lemma BeforeFromTouches(f: File, g: File)
    requires ValidFile(f) && ValidFile(g)
    requires forall k :: k in Ends(f, g) && Touches(f, k) ==> k < EffectiveSmallest(g)
    ensures Before(f, g)
  {
    if f.entries != [] {
      LookupAt(f.entries, |f.entries| - 1);
      assert Touches(f, LargestKey(f));
    }
    if f.ranges != [] {
      var last := f.ranges[|f.ranges| - 1];
      assert InRange(last, last.lower) && Covers(f.ranges, last.lower) && Touches(f, last.lower);
      assert Covers(f.ranges, EffectiveSmallest(g)) ==> Touches(f, EffectiveSmallest(g));
      CoverEnds(f.ranges, EffectiveSmallest(g));
    }
  }

  /** In a key-disjoint level at most one file speaks about a key, and the walk finds it. */
  lemma {:induction false} WalkMember(files: seq<File>, k: Key, f: File)
    requires ValidFiles(files) && KeyDisjoint(files)
    requires f in files && Touches(f, k)
    ensures Walk(files, k) == View(f, k)
  {
    if files[0] != f {
      if Touches(files[0], k) {
        assert Separated(files[0], f);
        if Before(files[0], f) { BeforeOrders(files[0], f, k, k); } else { BeforeOrders(f, files[0], k, k); }
      }
      WalkMember(files[1..], k, f);
    }
  }

  lemma {:induction false} WalkWitness(files: seq<File>, k: Key) returns (f: File)
    requires Walk(files, k).Some?
    ensures f in files && Touches(f, k) && View(f, k) == Walk(files, k)
  {
    if Touches(files[0], k) {
      f := files[0];
    } else {
      f := WalkWitness(files[1..], k);
    }
  }

  // ---------- selecting files ----------

  function Numbers(files: seq<File>): set<nat> {
    set f | f in files :: f.number
  }

  function Select(files: seq<File>, numbers: set<nat>): seq<File> {
    if files == [] then []
    else (if files[0].number in numbers then [files[0]] else []) + Select(files[1..], numbers)
  }

  function Reject(files: seq<File>, numbers: set<nat>): seq<File> {
    if files == [] then []
    else (if files[0].number in numbers then [] else [files[0]]) + Reject(files[1..], numbers)
  }

  lemma {:induction false} RejectAbsent(files: seq<File>, number: nat)
    requires forall i :: 0 <= i < |files| ==> files[i].number != number
    ensures Reject(files, {number}) == files
  {
    if files != [] {
      RejectAbsent(files[1..], number);
    }
  }

  /** Taking one file out by its number leaves the others, in order. */
  lemma {:induction false} RejectOne(files: seq<File>, t: nat)
    requires t < |files| && DistinctNumbers(files)
    ensures Reject(files, {files[t].number}) == files[..t] + files[t + 1..]
  {
    if t == 0 {
      RejectAbsent(files[1..], files[0].number);
    } else {
      RejectOne(files[1..], t - 1);
      assert files[1..][..t - 1] == files[1..t] && files[1..][t..] == files[t + 1..];
      assert files[..t] == [files[0]] + files[1..t];
    }
  }

  lemma {:induction false} SelectMembers(files: seq<File>, numbers: set<nat>)
    ensures forall f :: f in Select(files, numbers) <==> f in files && f.number in numbers
    ensures forall f :: f in Reject(files, numbers) <==> f in files && f.number !in numbers
  {
    if files != [] {
      SelectMembers(files[1..], numbers);
      assert forall f :: f in files <==> f == files[0] || f in files[1..];
    }
  }

  /** Two files that survive a removal stood in the same order before it. */
  lemma {:induction false} RejectKeepsPairs(files: seq<File>, numbers: set<nat>, i: nat, j: nat)
    returns (p: nat, q: nat)
    requires i < j < |Reject(files, numbers)|
    ensures p < q < |files|
    ensures files[p] == Reject(files, numbers)[i] && files[q] == Reject(files, numbers)[j]
  {
    var rest := files[1..];
    if files[0].number in numbers {
      p, q := RejectKeepsPairs(rest, numbers, i, j);
      p, q := p + 1, q + 1;
    } else if i == 0 {
      SelectMembers(rest, numbers);
      var g := Reject(rest, numbers)[j - 1];
      assert g in rest;
      var t :| 0 <= t < |rest| && rest[t] == g;
      p, q := 0, t + 1;
    } else {
      p, q := RejectKeepsPairs(rest, numbers, i - 1, j - 1);
      p, q := p + 1, q + 1;
    }
  }

  lemma ValidLevelReject(level: nat, files: seq<File>, numbers: set<nat>)
    requires ValidLevel(level, files)
    ensures ValidLevel(level, Reject(files, numbers))
  {
    SelectMembers(files, numbers);
    var rest := Reject(files, numbers);
    forall i, j | 0 <= i < j < |rest|
      ensures rest[i].number != rest[j].number
      ensures level == 0 ==> rest[i].number > rest[j].number
      ensures level > 0 ==> KeyOrder(rest[i], rest[j])
    {
      var p, q := RejectKeepsPairs(files, numbers, i, j);
    }
  }

  lemma DistinctMembers(files: seq<File>, f: File, g: File)
    requires DistinctNumbers(files) && f in files && g in files && f.number == g.number
    ensures f == g
  {
    var i :| 0 <= i < |files| && files[i] == f;
    var j :| 0 <= j < |files| && files[j] == g;
  }

  /**
   Files can be taken out of a level and asked last, provided no taken file is newer than a file
   left behind that speaks about the same key.
   */
  lemma {:induction false} WalkPartition(files: seq<File>, numbers: set<nat>, k: Key)
    requires forall i, j :: 0 <= i < j < |files| && files[i].number in numbers && files[j].number !in numbers
                        ==> !(Touches(files[i], k) && Touches(files[j], k))
    ensures Walk(files, k) == OrElse(Walk(Reject(files, numbers), k), Walk(Select(files, numbers), k))
  {
    if files != [] {
      var rest := files[1..];
      forall i, j | 0 <= i < j < |rest| && rest[i].number in numbers && rest[j].number !in numbers
        ensures !(Touches(rest[i], k) && Touches(rest[j], k))
      {
        assert rest[i] == files[i + 1] && rest[j] == files[j + 1];
      }
      WalkPartition(rest, numbers, k);
      WalkConcat(if files[0].number in numbers then [files[0]] else [], Select(rest, numbers), k);
      WalkConcat(if files[0].number in numbers then [] else [files[0]], Reject(rest, numbers), k);
      assert Walk([files[0]], k) == View(files[0], k);
      if files[0].number in numbers && Touches(files[0], k) {
        SelectMembers(rest, numbers);
        WalkSilent(Reject(rest, numbers), k);
        forall f | f in Reject(rest, numbers)
          ensures !Touches(f, k)
        {
          var j :| 0 <= j < |rest| && rest[j] == f;
          assert files[j + 1] == f;
        }
      }
    }
  }

  /** Files that say nothing about a key can be dropped without changing what is read for it. */
  lemma WalkReject(files: seq<File>, numbers: set<nat>, k: Key)
    requires forall f :: f in files && f.number in numbers ==> !Touches(f, k)
    ensures Walk(Reject(files, numbers), k) == Walk(files, k)
  {
    WalkPartition(files, numbers, k);
    SelectMembers(files, numbers);
    WalkSilent(Select(files, numbers), k);
  }

  // ---------- overlap ----------

  /** The closed-interval question compaction asks of a candidate's effective span. */
  predicate Meets(f: File, first: Key, last: Key) {
    !(EffectiveLargest(f) < first) && !(last < EffectiveSmallest(f))
  }

  function Overlapping(files: seq<File>, first: Key, last: Key): seq<File> {
    if files == [] then []
    else (if Meets(files[0], first, last) then [files[0]] else []) + Overlapping(files[1..], first, last)
  }

  lemma {:induction false} OverlappingMembers(files: seq<File>, first: Key, last: Key)
    ensures forall f :: f in Overlapping(files, first, last) <==> f in files && Meets(f, first, last)
    ensures |Overlapping(files, first, last)| <= |files|
  {
    if files != [] {
      OverlappingMembers(files[1..], first, last);
      assert forall f :: f in files <==> f == files[0] || f in files[1..];
    }
  }

  lemma {:induction false} SelectIsOverlapping(files: seq<File>, first: Key, last: Key, numbers: set<nat>)
    requires forall f :: f in files ==> (f.number in numbers <==> Meets(f, first, last))
    ensures Select(files, numbers) == Overlapping(files, first, last)
  {
    if files != [] {
      assert files[0] in files;
      SelectIsOverlapping(files[1..], first, last, numbers);
    }
  }

  /** An overlap query keeps the level's order: it is the selection of its own members. */
  lemma OverlappingIsSelection(files: seq<File>, first: Key, last: Key)
    requires DistinctNumbers(files)
    ensures Overlapping(files, first, last) == Select(files, Numbers(Overlapping(files, first, last)))
  {
    var found := Overlapping(files, first, last);
    OverlappingMembers(files, first, last);
    forall f | f in files
      ensures f.number in Numbers(found) <==> Meets(f, first, last)
    {
      if f.number in Numbers(found) {
        var g :| g in found && g.number == f.number;
        DistinctMembers(files, f, g);
      }
    }
    SelectIsOverlapping(files, first, last, Numbers(found));
  }

  // ---------- installing files below level 0 ----------

  function InsertByKey(f: File, files: seq<File>): seq<File> {
    if files == [] then [f]
    else if KeyOrder(f, files[0]) then [f] + files
    else [files[0]] + InsertByKey(f, files[1..])
  }

  /** The level `sort_level` leaves after `added` joins `files`. */
  function Install(added: seq<File>, files: seq<File>): seq<File> {
    if added == [] then files else InsertByKey(added[0], Install(added[1..], files))
  }

  lemma {:induction false} InsertSorts(f: File, files: seq<File>)
    requires KeySorted(files)
    requires forall g :: g in files ==> g.number != f.number
    ensures KeySorted(InsertByKey(f, files))
    ensures forall g :: g in InsertByKey(f, files) <==> g == f || g in files
  {
    if files != [] && !KeyOrder(f, files[0]) {
      var rest := files[1..];
      assert forall g :: g in rest ==> g in files;
      InsertSorts(f, rest);
      assert files[0] in files;
      var ins := InsertByKey(f, rest);
      forall i | 0 <= i < |ins|
        ensures KeyOrder(files[0], ins[i])
      {
        if ins[i] != f {
          assert ins[i] in rest;
          var j :| 0 <= j < |rest| && rest[j] == ins[i];
          assert files[j + 1] == ins[i];
        }
      }
      assert forall g :: g in files <==> g == files[0] || g in rest;
    }
  }

  lemma DistinctFront(added: seq<File>, files: seq<File>)
    requires added != [] && DistinctNumbers(added + files)
    ensures DistinctNumbers(added[1..] + files)
    ensures forall g :: g in added[1..] || g in files ==> g.number != added[0].number
  {
    var all, rest := added + files, added[1..] + files;
    assert all == [added[0]] + rest;
    assert forall i :: 0 <= i < |rest| ==> rest[i] == all[i + 1];
    forall g | g in added[1..] || g in files
      ensures g.number != added[0].number
    {
      assert g in rest;
      var i :| 0 <= i < |rest| && rest[i] == g;
      assert all[0] == added[0] && all[i + 1] == g;
    }
  }

  lemma {:induction false} InstallSorts(added: seq<File>, files: seq<File>)
    requires KeySorted(files) && DistinctNumbers(added + files)
    ensures KeySorted(Install(added, files))
    ensures forall g :: g in Install(added, files) <==> g in added || g in files
  {
    if added != [] {
      DistinctFront(added, files);
      InstallSorts(added[1..], files);
      InsertSorts(added[0], Install(added[1..], files));
      assert forall g :: g in added <==> g == added[0] || g in added[1..];
    }
  }

  lemma KeySortedIsDistinct(files: seq<File>)
    requires KeySorted(files) && (forall f, g :: f in files && g in files && f.number == g.number ==> f == g)
    ensures DistinctNumbers(files)
  {
    forall i, j | 0 <= i < j < |files|
      ensures files[i].number != files[j].number
    {
      assert KeyOrder(files[i], files[j]);
    }
  }
}

module Skiplist {
  /**
   The memtable: a skip list with one node per key, towers of forward links, and a list of recorded
   ranges beside it.

   Nodes live in a bump arena and are never freed, so a pointer is an index into it and a store through a
   pointer updates that cell. Cell 0 is the head, which nothing links to, so a link of 0 is the end of a
   level. At every level a node links to the least node of that height with a greater key: that is the
   whole of the tower and link invariant, and searching, splicing and walking are proved from it. The
   abstract value is the `Mem` the rest of the model writes to.
   */

  import opened Keys
  import opened Records
  import opened Version
  import opened Store

  const MAX_HEIGHT: nat := 12
  const HEAD: nat := 0
  const END: nat := 0

  /** The head stands before every key, so it is given a key below them all. */
  const BEFORE_EVERY_KEY: real := -1.0

  /** One node; its height is the number of its links. */
  datatype Cell = Cell(key: real, op: Op, next: seq<nat>)

  type Arena = seq<Cell>

  // ---------- towers and links ----------

  predicate Reaches(a: Arena, n: nat, i: nat) {
    n < |a| && i < |a[n].next|
  }

  /** `to` is the least of the first `count` nodes that is tall enough and greater than `n`. */
  predicate Links(a: Arena, n: nat, to: nat, i: nat, count: nat)
    requires n < |a| && count <= |a|
  {
    if to == END then
      forall m :: 0 < m < count && Reaches(a, m, i) ==> a[m].key <= a[n].key
    else
      && to < count && Reaches(a, to, i) && a[n].key < a[to].key
      && forall m :: 0 < m < count && Reaches(a, m, i) && a[n].key < a[m].key ==> a[to].key <= a[m].key
  }

  predicate LevelOk(a: Arena, i: nat, count: nat)
    requires count <= |a|
  {
    forall n :: 0 <= n < count && Reaches(a, n, i) ==> Links(a, n, a[n].next[i], i, count)
  }

  predicate Apart(a: Arena, m: nat, n: nat) {
    m < |a| && n < |a| && a[m].key != a[n].key
  }

  predicate Spaced(a: Arena) {
    && |a| > 0 && a[HEAD].key == BEFORE_EVERY_KEY && |a[HEAD].next| == MAX_HEIGHT
    && (forall n :: 0 < n < |a| ==> 0.0 <= a[n].key && 1 <= |a[n].next| <= MAX_HEIGHT)
    && (forall m, n :: 0 < m < n < |a| ==> Apart(a, m, n))
  }

  predicate Towers(a: Arena) {
    Spaced(a) && forall i :: 0 <= i < MAX_HEIGHT ==> LevelOk(a, i, |a|)
  }

  /** `at` is the least node at or above `key`, or the end when there is none. */
  predicate LeastFrom(a: Arena, at: nat, key: real) {
    if at == END then forall m :: 0 < m < |a| ==> a[m].key < key
    else at < |a| && key <= a[at].key && forall m :: 0 < m < |a| && key <= a[m].key ==> a[at].key <= a[m].key
  }

  /** `at` is the greatest node below `key`, or the head when there is none. */
  predicate GreatestBelow(a: Arena, at: nat, key: real) {
    at < |a| && a[at].key < key && forall m :: 0 < m < |a| && a[m].key < key ==> a[m].key <= a[at].key
  }

  /** `p` is where a node with this key is spliced in at level `i`. */
  predicate SpliceAt(a: Arena, p: nat, i: nat, key: real) {
    Reaches(a, p, i) && a[p].key < key && var q := a[p].next[i]; q < |a| && (q == END || key <= a[q].key)
  }

  predicate Fingers(a: Arena, prev: seq<nat>, from: nat, key: real) {
    forall i :: from <= i < |prev| ==> SpliceAt(a, prev[i], i, key)
  }

  /** At the bottom level every node is tall enough, so the splice point separates the keys. */
  lemma BottomSplits(a: Arena, p: nat, key: Key)
    requires Towers(a) && SpliceAt(a, p, 0, key)
    ensures LeastFrom(a, a[p].next[0], key) && GreatestBelow(a, p, key)
  {
    assert LevelOk(a, 0, |a|);
    assert forall m :: 0 < m < |a| ==> Reaches(a, m, 0);
  }

  // ---------- linking a tower in ----------

  /**
   The last cell is a new tower: the levels below `i` link it in, those from `i` up do not know it yet.
   */
  predicate Woven(a: Arena, i: nat) {
    && |a| > 1
    && (forall j :: 0 <= j < i ==> LevelOk(a, j, |a|))
    && var known := |a| - 1; forall j :: i <= j < MAX_HEIGHT ==> LevelOk(a, j, known)
  }

  /** The two stores that link one level of the new tower in. */
  function Spliced(a: Arena, p: nat, i: nat): Arena
    requires |a| > 0 && Reaches(a, p, i) && Reaches(a, |a| - 1, i)
  {
    var node := |a| - 1;
    var linked := a[node := a[node].(next := a[node].next[i := a[p].next[i]])];
    linked[p := linked[p].(next := linked[p].next[i := node])]
  }

  /** The new node comes between `p` and its successor, and between no other two. */
  lemma StillLinked(a: Arena, p: nat, i: nat, n: nat, known: nat)
    requires |a| == known + 1 && p < known && n < known && Reaches(a, p, i) && Reaches(a, n, i)
    requires Links(a, p, a[p].next[i], i, known) && SpliceAt(a, p, i, a[known].key)
    requires Links(a, n, a[n].next[i], i, known)
    requires a[n].key < a[p].key ==> p != HEAD
    requires a[n].key >= a[p].key ==> n != HEAD && a[n].key != a[p].key && a[n].key != a[known].key
    ensures Links(a, n, a[n].next[i], i, known + 1)
  {
  }

  predicate SameCells(a: Arena, b: Arena) {
    |a| == |b| && forall n :: 0 <= n < |a| ==> a[n].key == b[n].key && |a[n].next| == |b[n].next|
  }

  lemma SpacedAlike(a: Arena, b: Arena)
    requires Spaced(a) && SameCells(a, b)
    ensures Spaced(b)
  {
    forall m, n | 0 < m < n < |b|
      ensures Apart(b, m, n)
    {
      assert Apart(a, m, n);
    }
  }

  /** Where a link must lead is a matter of keys and heights alone. */
  lemma LinksAlike(a: Arena, b: Arena, n: nat, to: nat, i: nat, count: nat)
    requires SameCells(a, b) && n < |a| && count <= |a| && Links(a, n, to, i, count)
    ensures Links(b, n, to, i, count)
  {
    assert forall m :: 0 <= m < |a| ==> Reaches(b, m, i) == Reaches(a, m, i);
  }

  lemma LevelAlike(a: Arena, b: Arena, i: nat, count: nat)
    requires SameCells(a, b) && count <= |a| && LevelOk(a, i, count)
    requires forall n :: 0 <= n < count && Reaches(a, n, i) ==> a[n].next[i] == b[n].next[i]
    ensures LevelOk(b, i, count)
  {
    forall n | 0 <= n < count && Reaches(b, n, i)
      ensures Links(b, n, b[n].next[i], i, count)
    {
      assert Reaches(a, n, i) && Links(a, n, a[n].next[i], i, count);
      LinksAlike(a, b, n, a[n].next[i], i, count);
    }
  }

  lemma SplicedCells(a: Arena, p: nat, i: nat)
    requires |a| > 0 && Reaches(a, p, i) && Reaches(a, |a| - 1, i)
    ensures var after := Spliced(a, p, i);
            && SameCells(a, after)
            && (forall n, j :: 0 <= n < |a| && 0 <= j < |a[n].next| && j != i ==> a[n].next[j] == after[n].next[j])
  {
  }

  /** Every level but the spliced one stands. */
  lemma OthersStand(a: Arena, p: nat, i: nat, j: nat, count: nat)
    requires |a| > 0 && Reaches(a, p, i) && Reaches(a, |a| - 1, i) && i != j
    requires count <= |a| && LevelOk(a, j, count)
    ensures |Spliced(a, p, i)| == |a| && LevelOk(Spliced(a, p, i), j, count)
  {
    SplicedCells(a, p, i);
    LevelAlike(a, Spliced(a, p, i), j, count);
  }

  /** The new links themselves, and every other node's. */
  lemma SplicedLinks(a: Arena, p: nat, i: nat, n: nat, known: nat)
    requires Spaced(a) && |a| == known + 1 && n <= known && Reaches(a, n, i) && Reaches(a, known, i)
    requires p < known && SpliceAt(a, p, i, a[known].key) && Links(a, p, a[p].next[i], i, known)
    requires n < known ==> Links(a, n, a[n].next[i], i, known)
    ensures Links(a, n, if n == known then a[p].next[i] else if n == p then known else a[n].next[i], i, known + 1)
  {
    assert a[p].next[i] != END ==> Apart(a, a[p].next[i], known);
    assert 0 < n < known ==> Apart(a, n, known);
    assert 0 < n < p ==> Apart(a, n, p);
    assert 0 < p < n ==> Apart(a, p, n);
    if n != known && n != p {
      StillLinked(a, p, i, n, known);
    }
  }

  lemma SplicedLevel(a: Arena, p: nat, i: nat)
    requires Spaced(a) && Woven(a, i) && i < MAX_HEIGHT && Reaches(a, |a| - 1, i)
    requires p < |a| - 1 && SpliceAt(a, p, i, a[|a| - 1].key)
    ensures |Spliced(a, p, i)| == |a| && LevelOk(Spliced(a, p, i), i, |a|)
  {
    var known, after := |a| - 1, Spliced(a, p, i);
    SplicedCells(a, p, i);
    forall n | 0 <= n < |a| && Reaches(after, n, i)
      ensures Links(after, n, after[n].next[i], i, |a|)
    {
      assert LevelOk(a, i, known) && Reaches(a, n, i);
      assert Links(a, p, a[p].next[i], i, known);
      SplicedLinks(a, p, i, n, known);
      LinksAlike(a, after, n, after[n].next[i], i, |a|);
    }
  }

  lemma SplicedIsWoven(a: Arena, p: nat, i: nat)
    requires Spaced(a) && Woven(a, i) && i < MAX_HEIGHT && Reaches(a, |a| - 1, i)
    requires p < |a| - 1 && SpliceAt(a, p, i, a[|a| - 1].key)
    ensures Spaced(Spliced(a, p, i)) && Woven(Spliced(a, p, i), i + 1)
  {
    var after := Spliced(a, p, i);
    SplicedLevel(a, p, i);
    SplicedCells(a, p, i);
    SpacedAlike(a, after);
    forall j | 0 <= j < i
      ensures LevelOk(after, j, |a|)
    {
      OthersStand(a, p, i, j, |a|);
    }
    var known := |a| - 1;
    forall j | i < j < MAX_HEIGHT
      ensures LevelOk(after, j, known)
    {
      OthersStand(a, p, i, j, known);
    }
  }

  /** Splicing one level leaves the splice points of the levels above it as they were. */
  lemma FingersKept(a: Arena, prev: seq<nat>, i: nat)
    requires |a| > 0 && i < |prev| && Fingers(a, prev, i, a[|a| - 1].key) && Reaches(a, |a| - 1, i)
    requires forall p :: p in prev ==> p < |a| - 1
    ensures Fingers(Spliced(a, prev[i], i), prev, i + 1, a[|a| - 1].key)
  {
    assert prev[i] in prev;
  }

  /** Above its own height a new tower changes nothing. */
  lemma WovenThrough(a: Arena)
    requires Spaced(a) && Woven(a, |a[|a| - 1].next|)
    ensures Towers(a)
  {
    var node := |a| - 1;
    forall i | |a[node].next| <= i < MAX_HEIGHT
      ensures LevelOk(a, i, |a|)
    {
      assert LevelOk(a, i, |a| - 1) && !Reaches(a, node, i);
      forall n | 0 <= n < |a| && Reaches(a, n, i)
        ensures Links(a, n, a[n].next[i], i, |a|)
      {
        assert Links(a, n, a[n].next[i], i, |a| - 1);
      }
    }
  }

  /** A cell beside the list, linked to nothing and by nothing. */
  lemma UnwovenYet(a: Arena, c: Cell)
    requires Towers(a) && 0.0 <= c.key && 1 <= |c.next| <= MAX_HEIGHT
    requires forall n :: 0 < n < |a| ==> a[n].key != c.key
    ensures Spaced(a + [c]) && Woven(a + [c], 0)
  {
    var b := a + [c];
    forall m, n | 0 < m < n < |b|
      ensures Apart(b, m, n)
    {
      assert n < |a| ==> Apart(a, m, n);
    }
    forall i | 0 <= i < MAX_HEIGHT
      ensures LevelOk(b, i, |a|)
    {
      assert LevelOk(a, i, |a|);
      assert forall m :: 0 <= m < |a| ==> Reaches(b, m, i) == Reaches(a, m, i);
      forall n | 0 <= n < |a| && Reaches(b, n, i)
        ensures Links(b, n, b[n].next[i], i, |a|)
      {
        assert Links(a, n, a[n].next[i], i, |a|);
      }
    }
  }

  /** Above the tallest tower a new one is spliced in after the head. */
  lemma HeadFingers(a: Arena, prev: seq<nat>, height: nat, key: Key)
    requires Towers(a) && |prev| <= height <= MAX_HEIGHT && Fingers(a, prev, 0, key)
    requires forall n :: 0 < n < |a| ==> |a[n].next| <= |prev|
    ensures Fingers(a, prev + seq(height - |prev|, i => HEAD), 0, key)
  {
    forall i | |prev| <= i < height
      ensures SpliceAt(a, HEAD, i, key)
    {
      assert LevelOk(a, i, |a|);
      assert Links(a, HEAD, a[HEAD].next[i], i, |a|);
    }
  }

  predicate SameOps(a: Arena, b: Arena) {
    |a| == |b| && forall n :: 0 <= n < |a| ==> a[n].op == b[n].op
  }

  /** The splice loop: allocates the cell and links it in from the bottom level up. */
  method Weave(before: Arena, prev: seq<nat>, c: Cell) returns (a: Arena)
    requires Towers(before) && 0.0 <= c.key && 1 <= |c.next| <= MAX_HEIGHT && |c.next| <= |prev|
    requires Fingers(before, prev, 0, c.key) && forall n :: 0 < n < |before| ==> before[n].key != c.key
    ensures Towers(a) && SameCells(before + [c], a) && SameOps(before + [c], a)
  {
    a := before + [c];
    UnwovenYet(before, c);
    var height := |c.next|;
    var at := prev[..height];
    assert forall p :: p in at ==> p < |before| by {
      assert forall i :: 0 <= i < |at| ==> SpliceAt(before, prev[i], i, c.key);
    }
    for i := 0 to height
      invariant SameCells(before + [c], a) && SameOps(before + [c], a) && Spaced(a) && Woven(a, i)
      invariant Fingers(a, at, i, c.key)
    {
      SplicedIsWoven(a, at[i], i);
      SplicedCells(a, at[i], i);
      FingersKept(a, at, i);
      a := Spliced(a, at[i], i);
    }
    WovenThrough(a);
  }

  // ---------- contents ----------

  /** What the nodes hold, key by key. */
  ghost predicate Holds(a: Arena, model: map<Key, Op>) {
    && (forall n :: 0 < n < |a| && 0.0 <= a[n].key ==> a[n].key in model && model[a[n].key] == a[n].op)
    && (forall k: Key :: k in model ==> exists n: nat :: HasKey(a, n, k))
  }

  predicate HasKey(a: Arena, n: nat, k: Key) {
    0 < n < |a| && a[n].key == k
  }

  lemma HoldsOverwritten(a: Arena, model: map<Key, Op>, node: nat, op: Op)
    requires Spaced(a) && Holds(a, model) && 0 < node < |a|
    ensures Holds(a[node := a[node].(op := op)], model[a[node].key := op])
  {
    var b := a[node := a[node].(op := op)];
    forall k: Key | k in model
      ensures exists n: nat :: HasKey(b, n, k)
    {
      var n: nat :| HasKey(a, n, k);
      assert HasKey(b, n, k);
    }
    forall n | 0 < n < |a| && n != node
      ensures a[n].key != a[node].key
    {
      assert Apart(a, if n < node then n else node, if n < node then node else n);
    }
    assert HasKey(b, node, a[node].key);
  }

  lemma HoldsAdded(a: Arena, model: map<Key, Op>, c: Cell, b: Arena)
    requires Holds(a, model) && SameCells(a + [c], b) && SameOps(a + [c], b) && |a| > 0
    requires 0.0 <= c.key && c.key !in model
    ensures Holds(b, model[c.key := c.op])
  {
    assert HasKey(b, |a|, c.key);
    forall k: Key | k in model
      ensures exists n: nat :: HasKey(b, n, k)
    {
      var n: nat :| HasKey(a, n, k);
      assert HasKey(b, n, k);
    }
  }

  function Deletions(model: map<Key, Op>): set<Key> {
    set k | k in model && model[k] == Delete
  }

  lemma CountWith(s: set<Key>, k: Key)
    ensures |s + {k}| == |s| + if k in s then 0 else 1
  {
    if k in s { assert s + {k} == s; }
  }

  lemma CountWithout(s: set<Key>, k: Key)
    ensures |s - {k}| == |s| - if k in s then 1 else 0
  {
    if k !in s { assert s - {k} == s; }
  }

  /** Distinct keys held, and how many of them are deletions. */
  ghost predicate Counted(model: map<Key, Op>, entries: int, tombstones: int) {
    entries == |model.Keys| && tombstones == |Deletions(model)|
  }

  lemma KeysAfter(model: map<Key, Op>, k: Key, op: Op)
    ensures |model[k := op].Keys| == |model.Keys| + if k in model then 0 else 1
  {
    assert model[k := op].Keys == model.Keys + {k};
    CountWith(model.Keys, k);
  }

  predicate Deleted(model: map<Key, Op>, k: Key) {
    k in model && model[k] == Delete
  }

  lemma DeletionsAfter(model: map<Key, Op>, k: Key, op: Op)
    ensures |Deletions(model[k := op])|
         == |Deletions(model)| + (if op == Delete then 1 else 0) - (if Deleted(model, k) then 1 else 0)
  {
    assert k in Deletions(model) <==> Deleted(model, k);
    if op == Delete {
      assert Deletions(model[k := op]) == Deletions(model) + {k};
      CountWith(Deletions(model), k);
    } else {
      assert Deletions(model[k := op]) == Deletions(model) - {k};
      CountWithout(Deletions(model), k);
    }
  }

  lemma CountsAfter(model: map<Key, Op>, k: Key, op: Op, entries: int, tombstones: int)
    requires Counted(model, entries, tombstones)
    ensures Counted(model[k := op],
              if k in model then entries else entries + 1,
              tombstones + (if op == Delete then 1 else 0) - (if Deleted(model, k) then 1 else 0))
  {
    KeysAfter(model, k, op);
    DeletionsAfter(model, k, op);
  }

  lemma SameTowers(a: Arena, b: Arena)
    requires Towers(a) && SameCells(a, b) && forall n :: 0 <= n < |a| ==> a[n].next == b[n].next
    ensures Towers(b)
  {
    SpacedAlike(a, b);
    forall i | 0 <= i < MAX_HEIGHT
      ensures LevelOk(b, i, |b|)
    {
      LevelAlike(a, b, i, |a|);
    }
  }

  /** A tower taller than any before it is linked after the head on the levels that are new. */
  method Grow(before: Arena, found: seq<nat>, c: Cell, ghost model: map<Key, Op>) returns (a: Arena)
    requires Towers(before) && Holds(before, model) && 1 <= |c.next| <= MAX_HEIGHT
    requires 0.0 <= c.key && c.key !in model && |found| <= MAX_HEIGHT && Fingers(before, found, 0, c.key)
    requires forall n :: 0 < n < |before| ==> |before[n].next| <= |found|
    ensures Towers(a) && SameCells(before + [c], a) && SameOps(before + [c], a)
  {
    var prev := found;
    if |c.next| > |found| {
      HeadFingers(before, found, |c.next|, c.key);
      prev := found + seq(|c.next| - |found|, i => HEAD);
    }
    a := Weave(before, prev, c);
  }

  /** Everything a list keeps, as a statement about its value. */
  ghost predicate Sound(a: Arena, maxHeight: nat, model: map<Key, Op>, entries: int, tombstones: int) {
    && Towers(a) && 1 <= maxHeight <= MAX_HEIGHT
    && (forall n :: 0 < n < |a| ==> |a[n].next| <= maxHeight)
    && Holds(a, model) && Counted(model, entries, tombstones)
  }

  /** How the count of deletions moves when a key's kind changes. */
  function Recount(was: Option<Op>, op: Op, tombstones: int): int {
    if (was == Some(Delete)) == (op == Delete) then tombstones
    else if op == Delete then tombstones + 1 else tombstones - 1
  }

  lemma OverwriteSound(a: Arena, maxHeight: nat, model: map<Key, Op>, entries: int, tombstones: int, node: nat, op: Op)
    requires Sound(a, maxHeight, model, entries, tombstones) && 0 < node < |a|
    ensures 0.0 <= a[node].key && Recount(Some(a[node].op), op, tombstones) >= 0
    ensures Sound(a[node := a[node].(op := op)], maxHeight, model[a[node].key := op], entries,
                  Recount(Some(a[node].op), op, tombstones))
  {
    CountsAfter(model, a[node].key, op, entries, tombstones);
    HoldsOverwritten(a, model, node, op);
    SameTowers(a, a[node := a[node].(op := op)]);
  }

  lemma AddedSound(a: Arena, maxHeight: nat, model: map<Key, Op>, entries: int, tombstones: int, c: Cell, b: Arena)
    requires Sound(a, maxHeight, model, entries, tombstones) && 0.0 <= c.key && c.key !in model
    requires Towers(b) && SameCells(a + [c], b) && SameOps(a + [c], b) && |c.next| <= MAX_HEIGHT
    ensures Sound(b, if |c.next| > maxHeight then |c.next| else maxHeight, model[c.key := c.op], entries + 1,
                  Recount(None, c.op, tombstones))
  {
    CountsAfter(model, c.key, c.op, entries, tombstones);
    HoldsAdded(a, model, c, b);
  }

  predicate SameLinks(a: Arena, b: Arena) {
    |a| == |b| && forall n :: 0 <= n < |a| ==> a[n].key == b[n].key && a[n].next == b[n].next
  }

  lemma KeyIsFound(a: Arena, model: map<Key, Op>, found: nat, key: Key)
    requires Spaced(a) && Holds(a, model) && LeastFrom(a, found, key)
    ensures key in model <==> found != END && a[found].key == key
  {
    if key in model {
      var n: nat :| HasKey(a, n, key);
      assert found != END ==> a[found].key <= a[n].key;
    }
  }

  // ---------- sweeping a range ----------

  /** The contents with every key of `[lower, bound)` deleted. */
  function Swept(model: map<Key, Op>, lower: Key, bound: real): map<Key, Op> {
    map k | k in model :: if lower <= k < bound then Delete else model[k]
  }

  /** How far a sweep standing at `node` has got. */
  function Bound(a: Arena, node: nat, upper: Key): real
    requires node < |a|
  {
    if node == END || a[node].key >= upper then upper else a[node].key
  }

  /** The nodes a walk standing at `node` still has before it. */
  ghost function From(a: Arena, node: nat): set<nat>
    requires node < |a|
  {
    set m | 0 < m < |a| && node != END && a[node].key <= a[m].key
  }

  /** Everything below where the walk stands has been deleted, and nothing else has changed. */
  predicate Sweeping(a: Arena, node: nat, lower: Key, upper: Key, before: map<Key, Op>, model: map<Key, Op>) {
    && node < |a| && (node != END ==> lower <= a[node].key)
    && model == Swept(before, lower, Bound(a, node, upper))
  }

  lemma SweepStarts(a: Arena, model: map<Key, Op>, node: nat, lower: Key, upper: Key)
    requires Spaced(a) && Holds(a, model) && LeastFrom(a, node, lower)
    ensures Sweeping(a, node, lower, upper, model, model)
  {
    forall k | k in model
      ensures !(lower <= k < Bound(a, node, upper))
    {
      var n: nat :| HasKey(a, n, k);
    }
  }

  /** The walk's next node is the least one above, so nothing is skipped and less is left. */
  lemma NextIsLeast(a: Arena, node: nat)
    requires Towers(a) && 0 < node < |a|
    ensures var to := a[node].next[0];
            && to < |a| && (to != END ==> a[node].key < a[to].key)
            && (forall m :: 0 < m < |a| && a[node].key < a[m].key ==> to != END && a[to].key <= a[m].key)
            && From(a, to) < From(a, node)
  {
    var to := a[node].next[0];
    assert LevelOk(a, 0, |a|) && Reaches(a, node, 0);
    assert Links(a, node, to, 0, |a|);
    assert forall m :: 0 < m < |a| ==> Reaches(a, m, 0);
    assert node in From(a, node) && node !in From(a, to);
    assert From(a, to) <= From(a, node);
  }

  lemma SweepOne(a: Arena, b: Arena, before: map<Key, Op>, held: map<Key, Op>, model: map<Key, Op>,
                 node: nat, lower: Key, upper: Key)
    requires SameLinks(a, b) && Towers(b) && Holds(b, model) && 0 < node < |a| && a[node].key < upper
    requires Sweeping(a, node, lower, upper, before, held)
    requires a[node].key in held && model == held[a[node].key := Delete]
    ensures Sweeping(b, b[node].next[0], lower, upper, before, model)
    ensures From(b, b[node].next[0]) < From(a, node)
  {
    NextIsLeast(b, node);
    var to := b[node].next[0];
    assert From(a, node) == From(b, node);
    forall k | k in before
      ensures k in model && model[k] == if lower <= k < Bound(b, to, upper) then Delete else before[k]
    {
      assert k in model;
      var n: nat :| HasKey(b, n, k);
    }
    assert model.Keys == before.Keys;
  }

  // ---------- walking the whole list ----------

  /** What a walk standing at `node` has emitted: the entries of every key below it, in order. */
  ghost predicate Emitted(a: Arena, model: map<Key, Op>, node: nat, es: seq<Entry>)
    requires node < |a|
  {
    && Sorted(es)
    && forall k: Key :: Lookup(es, k) ==
         if k in model && (node == END || k < a[node].key) then Some(model[k]) else None
  }

  lemma FirstIsLeast(a: Arena)
    requires Towers(a)
    ensures LeastFrom(a, a[HEAD].next[0], EMPTY_KEY)
  {
    assert LevelOk(a, 0, |a|) && Reaches(a, HEAD, 0);
    assert Links(a, HEAD, a[HEAD].next[0], 0, |a|);
    BottomSplits(a, HEAD, EMPTY_KEY);
  }

  lemma WalkStarts(a: Arena, model: map<Key, Op>, node: nat)
    requires Spaced(a) && Holds(a, model) && LeastFrom(a, node, EMPTY_KEY)
    ensures node < |a| && Emitted(a, model, node, [])
  {
    forall k: Key | k in model
      ensures node != END && a[node].key <= k
    {
      var n: nat :| HasKey(a, n, k);
    }
  }

  lemma WalkOne(a: Arena, model: map<Key, Op>, node: nat, es: seq<Entry>)
    requires Towers(a) && Holds(a, model) && 0 < node < |a| && Emitted(a, model, node, es)
    ensures var to := a[node].next[0];
            to < |a| && From(a, to) < From(a, node) && Emitted(a, model, to, es + [Entry(a[node].key, a[node].op)])
  {
    NextIsLeast(a, node);
    var e := Entry(a[node].key, a[node].op);
    var to := a[node].next[0];
    forall i | 0 <= i < |es|
      ensures es[i].key < e.key
    {
      LookupAt(es, i);
      assert Lookup(es, es[i].key).Some?;
    }
    forall k: Key
      ensures Lookup(es + [e], k) == if k in model && (to == END || k < a[to].key) then Some(model[k]) else None
    {
      LookupConcat(es, [e], k);
      if k in model {
        var n: nat :| HasKey(a, n, k);
      }
    }
  }

  lemma FlushedIsValid(model: map<Key, Op>, ranges: seq<Range>, es: seq<Entry>, merged: seq<Range>)
    requires forall k: Key :: Lookup(es, k) == if k in model then Some(model[k]) else None
    requires forall k: Key :: Covers(merged, k) <==> Covers(ranges, k)
    requires model.Keys != {} || exists k: Key :: Covers(ranges, k)
    ensures es != [] || merged != []
  {
    if model.Keys != {} {
      var k :| k in model.Keys;
      assert Lookup(es, k).Some?;
    }
  }

  // ---------- the table ----------

  class Memtable {
    var arena: Arena
    var maxHeight: nat
    var entries: nat
    var tombstones: nat
    var ranges: seq<Range>
    var rangeCount: nat
    var watermark: Watermark
    ghost var model: map<Key, Op>

    ghost predicate Valid()
      reads this
    {
      && Sound(arena, maxHeight, model, entries, tombstones) && rangeCount == |ranges|
      && forall i :: 0 <= i < |ranges| ==> ranges[i].lower < ranges[i].upper
    }

    /** The memtable the rest of the model writes to. */
    ghost function AsMem(): Mem
      reads this
    {
      Mem(model, ranges, watermark)
    }

    constructor (established: Option<nat>)
      ensures Valid() && AsMem() == FreshMem(established)
    {
      arena := [Cell(BEFORE_EVERY_KEY, Delete, seq(MAX_HEIGHT, i => END))];
      maxHeight := 1;
      entries, tombstones, rangeCount, ranges := 0, 0, 0, [];
      watermark := Watermark(established, established);
      model := map[];
    }

    /** Nothing a flush would have to write: a memtable holding only a range delete is not empty. */
    predicate Empty()
      reads this
      requires Valid()
      ensures Empty() <==> MemEmpty(AsMem())
    {
      assert |model.Keys| == 0 <==> model == map[];
      entries == 0 && rangeCount == 0
    }

    /** Along one level, to the last node below `key`. */
    method Advance(from: nat, level: nat, key: Key) returns (node: nat)
      requires Valid() && Reaches(arena, from, level) && arena[from].key < key && level < MAX_HEIGHT
      ensures SpliceAt(arena, node, level, key)
    {
      node := from;
      ghost var left := set m | 0 < m < |arena| && arena[node].key < arena[m].key;
      while true
        invariant Reaches(arena, node, level) && arena[node].key < key
        invariant left == set m | 0 < m < |arena| && arena[node].key < arena[m].key
        decreases left
      {
        assert LevelOk(arena, level, |arena|);
        assert Links(arena, node, arena[node].next[level], level, |arena|);
        var to := arena[node].next[level];
        if to == END || key <= arena[to].key {
          return;
        }
        ghost var rest := set m | 0 < m < |arena| && arena[to].key < arena[m].key;
        assert to in left && to !in rest && rest <= left;
        node, left := to, rest;
      }
    }

    /** The least node at or above `key`, and at every level where one with this key would be spliced. */
    method FindGreaterOrEqual(key: Key) returns (found: nat, prev: seq<nat>)
      requires Valid()
      ensures LeastFrom(arena, found, key)
      ensures |prev| == maxHeight && Fingers(arena, prev, 0, key)
    {
      prev := seq(maxHeight, i => HEAD);
      var node: nat, level: nat := HEAD, maxHeight;
      while level > 0
        invariant 0 <= level <= maxHeight == |prev| && Fingers(arena, prev, level, key)
        invariant node < |arena| && arena[node].key < key && level <= |arena[node].next|
        invariant level < maxHeight ==> prev[level] == node
      {
        level := level - 1;
        node := Advance(node, level, key);
        prev := prev[level := node];
      }
      found := arena[node].next[0];
      BottomSplits(arena, node, key);
    }

    method FindLessThan(key: Key) returns (found: nat)
      requires Valid()
      ensures GreatestBelow(arena, found, key)
    {
      var level := maxHeight;
      found := HEAD;
      while level > 0
        invariant 0 <= level <= maxHeight
        invariant found < |arena| && arena[found].key < key && level <= |arena[found].next|
        invariant level < maxHeight ==> SpliceAt(arena, found, level, key)
      {
        level := level - 1;
        found := Advance(found, level, key);
      }
      BottomSplits(arena, found, key);
    }

    /** The greatest node, or the head when there is none. */
    method FindLast() returns (found: nat)
      requires Valid()
      ensures found < |arena| && forall m :: 0 < m < |arena| ==> arena[m].key <= arena[found].key
    {
      var level: nat := maxHeight - 1;
      found := HEAD;
      ghost var left := set m | 0 < m < |arena| && arena[found].key < arena[m].key;
      while true
        invariant level < maxHeight && Reaches(arena, found, level)
        invariant left == set m | 0 < m < |arena| && arena[found].key < arena[m].key
        decreases level, left
      {
        assert LevelOk(arena, level, |arena|);
        assert Links(arena, found, arena[found].next[level], level, |arena|);
        var to := arena[found].next[level];
        if to != END {
          ghost var rest := set m | 0 < m < |arena| && arena[to].key < arena[m].key;
          assert to in left && to !in rest && rest <= left;
          found, left := to, rest;
        } else if level == 0 {
          assert forall m :: 0 < m < |arena| ==> Reaches(arena, m, 0);
          return;
        } else {
          level := level - 1;
        }
      }
    }

    method Get(key: Key) returns (found: Option<Op>)
      requires Valid()
      ensures found == if key in model then Some(model[key]) else None
    {
      var node, _ := FindGreaterOrEqual(key);
      if node == END || arena[node].key != key {
        return None;
      }
      return Some(arena[node].op);
    }

    method RangeDeletes(key: Key) returns (covered: bool)
      requires Valid()
      ensures covered <==> Covers(ranges, key)
    {
      for i := 0 to |ranges|
        invariant forall j :: 0 <= j < i ==> !InRange(ranges[j], key)
      {
        if InRange(ranges[i], key) {
          return true;
        }
      }
      return false;
    }

    /** A read of this memtable: the entry, else a deletion a recorded range implies, else nothing. */
    method Lookup(key: Key) returns (found: Option<Op>)
      requires Valid()
      ensures found == MemView(AsMem(), key)
    {
      found := Get(key);
      if found.None? {
        var covered := RangeDeletes(key);
        if covered {
          found := Some(Delete);
        }
      }
    }

    /** A key already held: no node moves, and only the count of deletions may. */
    method Overwrite(node: nat, key: Key, op: Op)
      requires Valid() && HasKey(arena, node, key)
      modifies this`arena, this`tombstones, this`model
      ensures Valid() && key in old(model) && model == old(model)[key := op] && SameLinks(old(arena), arena)
    {
      OverwriteSound(arena, maxHeight, model, entries, tombstones, node, op);
      var after, count := arena[node := arena[node].(op := op)], Recount(Some(arena[node].op), op, tombstones);
      arena, model, tombstones := after, model[key := op], count;
    }

    /** A key not held yet: a new tower, linked in at every level of its height. */
    method AddNode(key: Key, op: Op, height: nat, found: seq<nat>)
      requires Valid() && 1 <= height <= MAX_HEIGHT && key !in model
      requires |found| == maxHeight && Fingers(arena, found, 0, key)
      modifies this`arena, this`maxHeight, this`model, this`entries, this`tombstones
      ensures Valid() && model == old(model)[key := op]
    {
      var c := Cell(key, op, seq(height, i => END));
      var after := Grow(arena, found, c, model);
      AddedSound(arena, maxHeight, model, entries, tombstones, c, after);
      maxHeight := if height > maxHeight then height else maxHeight;
      arena := after;
      model := model[key := op];
      entries := entries + 1;
      tombstones := Recount(None, op, tombstones);
    }

    /** One entry per key: an existing one is swapped, a new one is linked in under any height. */
    method Insert(key: Key, op: Op, height: nat)
      requires Valid() && 1 <= height <= MAX_HEIGHT
      modifies this`arena, this`maxHeight, this`model, this`entries, this`tombstones
      ensures Valid() && AsMem() == MemInsert(old(AsMem()), key, op)
      ensures key in old(model) ==> SameLinks(old(arena), arena)
    {
      var found, prev := FindGreaterOrEqual(key);
      KeyIsFound(arena, model, found, key);
      if found != END && arena[found].key == key {
        Overwrite(found, key, op);
      } else {
        AddNode(key, op, height, prev);
      }
    }

    /** Both bounds, while nothing is held that a lower bound could be wrong about. */
    method SetWatermarkBounds(position: nat)
      requires Valid()
      modifies this`watermark
      ensures Valid() && AsMem() == old(AsMem()).(watermark := Watermark(Some(position), Some(position)))
    {
      watermark := Watermark(Some(position), Some(position));
    }

    method SetWatermarkHigh(position: nat)
      requires Valid()
      modifies this`watermark
      ensures Valid() && AsMem() == old(AsMem()).(watermark := Watermark(old(watermark).low, Some(position)))
    {
      watermark := watermark.(high := Some(position));
    }

    /** One step of the walk: the node's key becomes a deletion unless it already is one. */
    method SweepNode(node: nat, lower: Key, upper: Key, ghost before: map<Key, Op>) returns (to: nat)
      requires Valid() && 0 < node < |arena| && arena[node].key < upper
      requires Sweeping(arena, node, lower, upper, before, model)
      modifies this`arena, this`maxHeight, this`model, this`entries, this`tombstones
      ensures Valid()
      ensures Sweeping(arena, to, lower, upper, before, model) && From(arena, to) < From(old(arena), node)
    {
      ghost var was, held := arena, model;
      if arena[node].op != Delete {
        Insert(arena[node].key, Delete, 1);
      }
      SweepOne(was, arena, before, held, model, node, lower, upper);
      to := arena[node].next[0];
    }

    /** The walk over the keys already here. Overwriting moves no node, so it does not disturb itself. */
    method Sweep(lower: Key, upper: Key)
      requires Valid()
      modifies this`arena, this`maxHeight, this`model, this`entries, this`tombstones
      ensures Valid()
      ensures model == Swept(old(model), lower, upper)
    {
      var node: nat, prev := FindGreaterOrEqual(lower);
      SweepStarts(arena, model, node, lower, upper);
      while node != END && arena[node].key < upper
        invariant Valid()
        invariant Sweeping(arena, node, lower, upper, old(model), model)
        decreases From(arena, node)
      {
        node := SweepNode(node, lower, upper, old(model));
      }
    }

    /** Turns every key already here into a deletion, and records the range for what is older. */
    method DeleteRange(lower: Key, upper: Key)
      requires Valid()
      modifies this
      ensures Valid() && AsMem() == MemDeleteRange(old(AsMem()), lower, upper)
    {
      if lower < upper {
        Sweep(lower, upper);
        ranges := [Range(lower, upper)] + ranges;
        rangeCount := rangeCount + 1;
      }
    }

    /** The file a flush writes: the walk's entries and the merged ranges, stamped with the interval. */
    method Flush(number: nat, store: nat, bytes: nat, created: nat, sealed: nat) returns (f: File)
      requires Valid() && !Empty()
      ensures f.number == number && f.store == store && FlushOf(f, AsMem())
      ensures f.bytes == bytes && f.minTime == created && f.maxTime == sealed
    {
      var es: seq<Entry> := [];
      FirstIsLeast(arena);
      var node: nat := arena[HEAD].next[0];
      WalkStarts(arena, model, node);
      while node != END
        invariant node < |arena| && Emitted(arena, model, node, es)
        decreases From(arena, node)
      {
        WalkOne(arena, model, node, es);
        es := es + [Entry(arena[node].key, arena[node].op)];
        node := arena[node].next[0];
      }
      var merged := MergeRanges(ranges);
      f := File(number, store, es, merged, bytes, created, sealed, watermark);
      assert ranges != [] ==> InRange(ranges[0], ranges[0].lower) && Covers(ranges, ranges[0].lower);
      FlushedIsValid(model, ranges, es, merged);
    }
  }

  // ---------- iterating ----------

  /** The next node in key order, or the end. */
  predicate Successor(a: Arena, n: nat, to: nat) {
    && n < |a| && to < |a| && (to != END ==> a[n].key < a[to].key)
    && forall m :: 0 < m < |a| && a[n].key < a[m].key ==> to != END && a[to].key <= a[m].key
  }

  /** The previous node in key order, or the end; reaching the head is being done. */
  predicate Predecessor(a: Arena, n: nat, to: nat) {
    && n < |a| && to < |a| && (to != END ==> a[to].key < a[n].key)
    && forall m :: 0 < m < |a| && a[m].key < a[n].key ==> to != END && a[m].key <= a[to].key
  }

  /** Stepping back undoes stepping forward, between any two nodes and in either order. */
  lemma StepsMirror(a: Arena, n: nat, to: nat)
    requires Spaced(a) && 0 < n < |a| && 0 < to < |a|
    ensures Successor(a, n, to) <==> Predecessor(a, to, n)
  {
  }

  class SkiplistIterator {
    const table: Memtable
    var node: nat

    constructor (table: Memtable)
      ensures this.table == table && node == END
    {
      this.table, node := table, END;
    }

    method SeekToFirst()
      requires table.Valid()
      modifies this
      ensures LeastFrom(table.arena, node, EMPTY_KEY)
    {
      FirstIsLeast(table.arena);
      node := table.arena[HEAD].next[0];
    }

    method Seek(target: Key)
      requires table.Valid()
      modifies this
      ensures LeastFrom(table.arena, node, target)
    {
      var found, prev := table.FindGreaterOrEqual(target);
      node := found;
    }

    method Next()
      requires table.Valid() && node < |table.arena|
      modifies this
      ensures old(node) == END ==> node == END
      ensures old(node) != END ==> Successor(table.arena, old(node), node)
    {
      if node != END {
        NextIsLeast(table.arena, node);
        node := table.arena[node].next[0];
      }
    }

    method SeekToLast()
      requires table.Valid()
      modifies this
      ensures node < |table.arena| && forall m :: 0 < m < |table.arena| ==>
                node != END && table.arena[m].key <= table.arena[node].key
    {
      node := table.FindLast();
    }

    /** The greatest node at or below `target`; an exact hit satisfies it. */
    method SeekForPrev(target: Key)
      requires table.Valid()
      modifies this
      ensures node < |table.arena| && (node != END ==> table.arena[node].key <= target)
      ensures forall m :: 0 < m < |table.arena| && table.arena[m].key <= target ==>
                node != END && table.arena[m].key <= table.arena[node].key
    {
      var found: nat, prev := table.FindGreaterOrEqual(target);
      if found != END && table.arena[found].key == target {
        node := found;
      } else {
        node := table.FindLessThan(target);
      }
    }

    method Prev()
      requires table.Valid() && node < |table.arena|
      modifies this
      ensures old(node) == END ==> node == END
      ensures old(node) != END ==> Predecessor(table.arena, old(node), node)
    {
      if node != END {
        node := table.FindLessThan(table.arena[node].key);
      }
    }
  }

  // ---------- any sequence of operations ----------

  function MemApply(m: Mem, w: Write): Mem {
    match w
    case PutKey(key, value) => MemInsert(m, key, Put(value))
    case RemoveKey(key) => MemInsert(m, key, Delete)
    case RemoveRange(lower, upper) => MemDeleteRange(m, lower, upper)
    case TruncateBelow(_) => m
    case Elsewhere => m
  }

  function MemAfter(ws: seq<Write>, established: Option<nat>): Mem {
    if ws == [] then FreshMem(established)
    else MemApply(MemAfter(ws[..|ws| - 1], established), ws[|ws| - 1])
  }

  /** What one key holds after the operations are applied in order to whatever it held before. */
  function ValueAfter(older: Option<Value>, ws: seq<Write>, k: Key): Option<Value> {
    if ws == [] then older
    else
      match ws[|ws| - 1]
      case PutKey(key, value) => if key == k then Some(value) else ValueAfter(older, ws[..|ws| - 1], k)
      case RemoveKey(key) => if key == k then None else ValueAfter(older, ws[..|ws| - 1], k)
      case RemoveRange(lower, upper) => if lower <= k < upper then None else ValueAfter(older, ws[..|ws| - 1], k)
      case _ => ValueAfter(older, ws[..|ws| - 1], k)
  }

  /** The memtable laid over any older state reads as the operations applied to it in order. */
  lemma {:induction false} OverlayInOrder(ws: seq<Write>, established: Option<nat>, older: Option<Op>, k: Key)
    ensures Resolve(OrElse(MemView(MemAfter(ws, established), k), older)) == ValueAfter(Resolve(older), ws, k)
  {
    if ws != [] {
      var front, last := ws[..|ws| - 1], ws[|ws| - 1];
      OverlayInOrder(front, established, older, k);
      if last.RemoveRange? {
        DeleteRangeView(MemAfter(front, established), last.lower, last.upper, k);
      }
    }
  }

  /** And so does the file it is flushed to. */
  lemma FlushOverlaysAlike(ws: seq<Write>, established: Option<nat>, f: File, older: Option<Op>, k: Key)
    requires FlushOf(f, MemAfter(ws, established))
    ensures Resolve(OrElse(View(f, k), older)) == ValueAfter(Resolve(older), ws, k)
  {
    OverlayInOrder(ws, established, older, k);
  }
}

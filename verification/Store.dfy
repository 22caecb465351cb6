module Store {
  /**
   The store a user sees: memtables over levels, and the plain map it must equal.

   Writes land in the memtable at consecutive positions of the embedder's log. `Oracle` is the whole
   specification of what they mean: an ordered map and a floor below which keys are gone.
   */

  import opened Keys
  import opened Records
  import opened Version

  // ---------- memtables ----------

  /** One entry per key, the recorded ranges newest first, and the interval a flush will stamp. */
  datatype Mem = Mem(entries: map<Key, Op>, ranges: seq<Range>, watermark: Watermark)

  function MemView(m: Mem, k: Key): Option<Op> {
    if k in m.entries then Some(m.entries[k]) else if Covers(m.ranges, k) then Some(Delete) else None
  }

  predicate MemEmpty(m: Mem) {
    m.entries == map[] && m.ranges == []
  }

  function MemInsert(m: Mem, k: Key, op: Op): Mem {
    m.(entries := m.entries[k := op])
  }

  /** Records the range and turns every key already held in it into a point deletion. */
  function MemDeleteRange(m: Mem, lower: Key, upper: Key): Mem {
    if lower < upper then
      m.(entries := map k | k in m.entries :: if lower <= k < upper then Delete else m.entries[k],
         ranges := [Range(lower, upper)] + m.ranges)
    else m
  }

  function FreshMem(established: Option<nat>): Mem {
    Mem(map[], [], Watermark(established, established))
  }

  /** The file a flush writes: the same answer for every key, under the memtable's own interval. */
  ghost predicate FlushOf(f: File, m: Mem) {
    ValidFile(f) && f.watermark == m.watermark && forall k: Key :: View(f, k) == MemView(m, k)
  }

  lemma DeleteRangeView(m: Mem, lower: Key, upper: Key, k: Key)
    ensures MemView(MemDeleteRange(m, lower, upper), k)
         == if lower <= k < upper then Some(Delete) else MemView(m, k)
  {
    if lower < upper {
      CoversConcat([Range(lower, upper)], m.ranges);
      assert Covers([Range(lower, upper)], k) <==> InRange([Range(lower, upper)][0], k);
    }
  }

  // ---------- the store ----------

  datatype Store = Store(
    mem: Mem,
    imm: Option<Mem>,
    levels: Levels,
    truncation: Key,
    floor: Option<Option<nat>>,
    established: Option<nat>,
    next: nat)

  datatype Write =
    | PutKey(key: Key, value: Value)
    | RemoveKey(key: Key)
    | RemoveRange(lower: Key, upper: Key)
    | TruncateBelow(key: Key)
    | Elsewhere

  predicate Touching(w: Write, k: Key) {
    match w
    case PutKey(key, _) => key == k
    case RemoveKey(key) => key == k
    case RemoveRange(lower, upper) => lower <= k < upper
    case TruncateBelow(key) => k < key
    case Elsewhere => false
  }

  /**
   One write. A point write below the truncation point is refused; a range delete is clamped to the
   part above it; a truncation only ever moves forward.
   */
  function Accept(s: Store, w: Write): Store {
    match w
    case PutKey(key, value) => if key < s.truncation then s else s.(mem := MemInsert(s.mem, key, Put(value)))
    case RemoveKey(key) => if key < s.truncation then s else s.(mem := MemInsert(s.mem, key, Delete))
    case RemoveRange(lower, upper) =>
      s.(mem := MemDeleteRange(s.mem, if lower < s.truncation then s.truncation else lower, upper))
    case TruncateBelow(key) => if s.truncation < key then s.(truncation := key) else s
    case Elsewhere => s
  }

  function WalkMems(ms: seq<Mem>, k: Key): Option<Op> {
    if ms == [] then None else OrElse(MemView(ms[0], k), WalkMems(ms[1..], k))
  }

  /** The read path: truncation, memtables newest first, then the levels. */
  function Visible(ms: seq<Mem>, levels: Levels, truncation: Key, k: Key): Option<Value> {
    if k < truncation then None else Resolve(OrElse(WalkMems(ms, k), WalkLevels(levels, k)))
  }

  function Frozen(s: Store): seq<Mem> {
    if s.imm.Some? then [s.imm.value] else []
  }

  function Read(s: Store, k: Key): Option<Value> {
    Visible([s.mem] + Frozen(s), s.levels, s.truncation, k)
  }

  // ---------- the plain map ----------

  datatype Oracle = Oracle(floor: Key, values: map<Key, Value>)

  function OracleGet(o: Oracle, k: Key): Option<Value> {
    if k in o.values then Some(o.values[k]) else None
  }

  function Apply(o: Oracle, w: Write): Oracle {
    match w
    case PutKey(key, value) => if key < o.floor then o else o.(values := o.values[key := value])
    case RemoveKey(key) => o.(values := o.values - {key})
    case RemoveRange(lower, upper) => o.(values := map k | k in o.values && !(lower <= k < upper) :: o.values[k])
    case TruncateBelow(key) =>
      if o.floor < key then Oracle(key, map k | k in o.values && k >= key :: o.values[k]) else o
    case Elsewhere => o
  }

  function Replay(log: seq<Write>, n: nat): Oracle
    requires n <= |log|
  {
    if n == 0 then Oracle(EMPTY_KEY, map[]) else Apply(Replay(log, n - 1), log[n - 1])
  }

  // ---------- one write, on both sides ----------

  lemma AcceptKeepsOthers(s: Store, w: Write, k: Key)
    requires !Touching(w, k)
    ensures Read(Accept(s, w), k) == Read(s, k)
    ensures MemView(Accept(s, w).mem, k) == MemView(s.mem, k)
  {
    if w.RemoveRange? {
      DeleteRangeView(s.mem, if w.lower < s.truncation then s.truncation else w.lower, w.upper, k);
    }
    assert ([s.mem] + Frozen(s))[1..] == ([Accept(s, w).mem] + Frozen(s))[1..];
  }

  lemma AcceptTakesEffect(s: Store, w: Write, k: Key)
    requires Touching(w, k)
    ensures Read(Accept(s, w), k) == if w.PutKey? && k >= s.truncation then Some(w.value) else None
  {
    if w.RemoveRange? {
      DeleteRangeView(s.mem, if w.lower < s.truncation then s.truncation else w.lower, w.upper, k);
    }
  }

  lemma ApplyKeepsOthers(o: Oracle, w: Write, k: Key)
    requires !Touching(w, k)
    ensures OracleGet(Apply(o, w), k) == OracleGet(o, k)
  {
  }

  lemma ApplyTakesEffect(o: Oracle, w: Write, k: Key)
    requires Touching(w, k) && forall l :: l in o.values ==> l >= o.floor
    ensures OracleGet(Apply(o, w), k) == if w.PutKey? && k >= o.floor then Some(w.value) else None
  {
  }

  /** The map never holds a key below its floor, and its floor is some truncation it was told of. */
  lemma {:induction false} ReplayFloor(log: seq<Write>, n: nat)
    requires n <= |log|
    ensures forall l :: l in Replay(log, n).values ==> l >= Replay(log, n).floor
    ensures forall i :: 0 <= i < n && log[i].TruncateBelow? ==> log[i].key <= Replay(log, n).floor
  {
    if n > 0 {
      ReplayFloor(log, n - 1);
    }
  }

  lemma {:induction false} ReplayExtends(log: seq<Write>, more: seq<Write>, n: nat)
    requires n <= |log|
    ensures Replay(log + more, n) == Replay(log, n)
  {
    if n > 0 {
      ReplayExtends(log, more, n - 1);
    }
  }
}

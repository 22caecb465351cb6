/**
 The range cache: which byte ranges of which objects are held, which object goes next, and the bytes.

 Objects are immutable once written. A read is answered from a held range only when that range covers it,
 or is known to run to the object's end; anything else goes to the store below and is kept if it fits.
 */
module RangeCache {
  import opened Keys
  import opened Budget

  // ---------- the store below ----------

  /** A bounded read, or one to the end; past the end is short, not an error. */
  function Answer(whole: Bytes, offset: nat, len: Option<nat>): Bytes {
    if offset >= |whole| then []
    else if len.None? then whole[offset..]
    else whole[offset..Min(offset + len.value, |whole|)]
  }

  // ---------- what to fetch on a miss ----------

  const WORDS: nat := 0x1_0000_0000_0000_0000

  datatype Plan = Plan(offset: nat, len: nat)

  /** The far edge rounded up to a boundary, in 64-bit arithmetic. */
  function RoundedEnd(end: nat, granularity: nat): nat
    requires granularity > 0
  {
    var rounded := if end % granularity == 0 then end else (end + (granularity - end % granularity)) % WORDS;
    if rounded < end then end else rounded
  }

  lemma Aligned(offset: nat, granularity: nat)
    requires granularity > 0
    ensures 0 <= offset - offset % granularity <= offset
  {
    assert 0 <= offset % granularity <= offset by {
      assert offset == granularity * (offset / granularity) + offset % granularity;
    }
  }

  /** `plan_fetch` of a bounded request. */
  function PlanFetch(offset: nat, len: nat, granularity: nat): (p: Plan)
    requires offset < WORDS && len < WORDS
    ensures p.offset <= offset
  {
    if granularity == 0 then Plan(offset, len)
    else
      Aligned(offset, granularity);
      var aligned := offset - offset % granularity;
      var end := RoundedEnd((offset + len) % WORDS, granularity);
      Plan(aligned, (end - aligned) % WORDS)
  }

  predicate Covers(p: Plan, offset: nat, len: nat) {
    p.offset <= offset && offset + len <= p.offset + p.len
  }

  /**
   A plan covers its request exactly when the request's end fits in 64 bits, or wraps so that the rounded
   end still falls short of the aligned start. Past that a plan can be shorter than what was asked.
   */
  lemma PlanCoversExactly(offset: nat, len: nat, granularity: nat)
    requires offset < WORDS && len < WORDS && 0 < granularity < WORDS
    ensures Covers(PlanFetch(offset, len, granularity), offset, len) <==>
              (offset + len < WORDS || RoundedEnd((offset + len) % WORDS, granularity) < offset - offset % granularity)
  {
    Aligned(offset, granularity);
    var aligned := offset - offset % granularity;
    var wrapped := (offset + len) % WORDS;
    var end := RoundedEnd(wrapped, granularity);
    assert wrapped <= end < WORDS;
    if offset + len < WORDS {
      assert wrapped == offset + len && (end - aligned) % WORDS == end - aligned;
    } else {
      assert wrapped == offset + len - WORDS;
      if end < aligned {
        assert (end - aligned) % WORDS == end - aligned + WORDS;
      } else {
        assert (end - aligned) % WORDS == end - aligned;
      }
    }
  }

  // ---------- what is held ----------

  datatype Range = Range(offset: nat, size: nat, toEnd: bool)

  datatype Object = Object(ranges: seq<Range>, bytes: nat)

  type Index = map<nat, Object>

  /** The bytes themselves, by object and by the offset their range starts at. */
  type Payload = map<(nat, nat), Bytes>

  function Sizes(rs: seq<Range>): nat {
    if rs == [] then 0 else rs[0].size + Sizes(rs[1..])
  }

  predicate DistinctOffsets(rs: seq<Range>) {
    forall i, j :: 0 <= i < j < |rs| ==> rs[i].offset != rs[j].offset
  }

  function BytesOf(names: seq<nat>, index: Index): nat {
    if names == [] then 0
    else (if names[0] in index then index[names[0]].bytes else 0) + BytesOf(names[1..], index)
  }

  /** What the payload really holds of one object's ranges; a lost entry counts for nothing. */
  function HeldOf(n: nat, rs: seq<Range>, payload: Payload): nat {
    if rs == [] then 0
    else (if (n, rs[0].offset) in payload then |payload[(n, rs[0].offset)]| else 0) + HeldOf(n, rs[1..], payload)
  }

  function HeldBy(names: seq<nat>, index: Index, payload: Payload): nat {
    if names == [] then 0
    else
      (if names[0] in index then HeldOf(names[0], index[names[0]].ranges, payload) else 0)
      + HeldBy(names[1..], index, payload)
  }

  function Without(names: seq<nat>, n: nat): seq<nat> {
    if names == [] then [] else if names[0] == n then names[1..] else [names[0]] + Without(names[1..], n)
  }

  predicate Listed(rs: seq<Range>, offset: nat, size: nat) {
    exists i :: 0 <= i < |rs| && rs[i].offset == offset && rs[i].size == size
  }

  /** Index, recency list, payload and both counters in exact agreement, within the bound. */
  predicate Sound(index: Index, recency: seq<nat>, cached: nat, payload: Payload, held: nat, max: nat) {
    && AllDistinct(recency) && (forall n :: n in recency ==> n in index) && (forall n :: n in index ==> n in recency)
    && (forall n :: n in index ==> DistinctOffsets(index[n].ranges) && index[n].bytes == Sizes(index[n].ranges))
    && cached == BytesOf(recency, index) <= max
    && (forall q :: q in payload ==> q.0 in index && Listed(index[q.0].ranges, q.1, |payload[q]|))
    && held == HeldBy(recency, index, payload)
  }

  /** Every held byte is the store's byte, and a range said to reach the end does. */
  predicate Truthful(index: Index, payload: Payload, truth: map<nat, Bytes>) {
    && (forall q :: q in payload ==> q.0 in truth && payload[q] == Answer(truth[q.0], q.1, Some(|payload[q]|)))
    && (forall n, i :: n in index && 0 <= i < |index[n].ranges| && index[n].ranges[i].toEnd ==>
          n in truth && index[n].ranges[i].offset + index[n].ranges[i].size >= |truth[n]|)
  }

  // ---------- sums over the recency list ----------

  lemma {:induction false} WithoutMembers(names: seq<nat>, n: nat)
    requires AllDistinct(names)
    ensures AllDistinct(Without(names, n)) && forall m :: m in Without(names, n) <==> m in names && m != n
  {
    if names != [] {
      assert AllDistinct(names[1..]);
      WithoutMembers(names[1..], n);
      assert forall m :: m in names <==> m == names[0] || m in names[1..];
      assert names[0] !in names[1..];
    }
  }

  lemma {:induction false} SumsWithout(names: seq<nat>, n: nat, index: Index, payload: Payload)
    requires n in names && n in index
    ensures BytesOf(names, index) == index[n].bytes + BytesOf(Without(names, n), index)
    ensures HeldBy(names, index, payload)
         == HeldOf(n, index[n].ranges, payload) + HeldBy(Without(names, n), index, payload)
  {
    if names[0] != n {
      SumsWithout(names[1..], n, index, payload);
      assert Without(names, n)[1..] == Without(names[1..], n);
    }
  }

  lemma {:induction false} HeldSame(n: nat, rs: seq<Range>, p: Payload, q: Payload)
    requires forall i :: 0 <= i < |rs| ==>
               ((n, rs[i].offset) in p <==> (n, rs[i].offset) in q)
               && ((n, rs[i].offset) in p ==> p[(n, rs[i].offset)] == q[(n, rs[i].offset)])
    ensures HeldOf(n, rs, p) == HeldOf(n, rs, q)
  {
    if rs != [] {
      HeldSame(n, rs[1..], p, q);
    }
  }

  /** The sums over names do not see changes to other objects. */
  lemma {:induction false} SumsSame(names: seq<nat>, a: Index, b: Index, p: Payload, q: Payload)
    requires forall n :: n in names ==> n in a && n in b && a[n] == b[n]
    requires forall n, o :: n in names ==> ((n, o) in p <==> (n, o) in q) && ((n, o) in p ==> p[(n, o)] == q[(n, o)])
    ensures BytesOf(names, a) == BytesOf(names, b) && HeldBy(names, a, p) == HeldBy(names, b, q)
  {
    if names != [] {
      assert names[0] in names;
      HeldSame(names[0], a[names[0]].ranges, p, q);
      SumsSame(names[1..], a, b, p, q);
    }
  }

  // ---------- the three changes to what is held ----------

  function Touched(recency: seq<nat>, n: nat): seq<nat> {
    [n] + Without(recency, n)
  }

  lemma TouchedMembers(recency: seq<nat>, n: nat)
    requires AllDistinct(recency)
    ensures AllDistinct(Touched(recency, n)) && forall m :: m in Touched(recency, n) <==> m == n || m in recency
  {
    WithoutMembers(recency, n);
    var rest := Without(recency, n);
    assert n !in rest;
    forall i, j | 0 <= i < j < |Touched(recency, n)|
      ensures Touched(recency, n)[i] != Touched(recency, n)[j]
    {
      assert Touched(recency, n)[j] == rest[j - 1] && rest[j - 1] in rest;
      assert i > 0 ==> Touched(recency, n)[i] == rest[i - 1];
    }
  }

  lemma TouchSums(index: Index, recency: seq<nat>, payload: Payload, n: nat)
    requires n in recency && n in index
    ensures BytesOf(Touched(recency, n), index) == BytesOf(recency, index)
    ensures HeldBy(Touched(recency, n), index, payload) == HeldBy(recency, index, payload)
  {
    SumsWithout(recency, n, index, payload);
    assert Touched(recency, n)[1..] == Without(recency, n);
  }

  lemma TouchSound(index: Index, recency: seq<nat>, cached: nat, payload: Payload, held: nat, max: nat, n: nat)
    requires Sound(index, recency, cached, payload, held, max) && n in index
    ensures Sound(index, Touched(recency, n), cached, payload, held, max)
  {
    TouchedMembers(recency, n);
    TouchSums(index, recency, payload, n);
  }

  function PayloadWithout(payload: Payload, n: nat): Payload {
    map q | q in payload && q.0 != n :: payload[q]
  }

  lemma DropSound(index: Index, recency: seq<nat>, cached: nat, payload: Payload, held: nat, max: nat, n: nat)
    requires Sound(index, recency, cached, payload, held, max) && n in index
    ensures index[n].bytes <= cached && HeldOf(n, index[n].ranges, payload) <= held
    ensures Sound(index - {n}, Without(recency, n), cached - index[n].bytes,
                  PayloadWithout(payload, n), held - HeldOf(n, index[n].ranges, payload), max)
  {
    WithoutMembers(recency, n);
    SumsWithout(recency, n, index, payload);
    SumsSame(Without(recency, n), index, index - {n}, payload, PayloadWithout(payload, n));
  }

  /** The size the range at this offset had, if there was one. */
  function SizeAt(rs: seq<Range>, offset: nat): nat {
    if rs == [] then 0 else if rs[0].offset == offset then rs[0].size else SizeAt(rs[1..], offset)
  }

  /** An identical start is replaced where it is, anything else is added at the end. */
  function Placed(rs: seq<Range>, r: Range): seq<Range> {
    if rs == [] then [r] else if rs[0].offset == r.offset then [r] + rs[1..] else [rs[0]] + Placed(rs[1..], r)
  }

  /** Every range but the one at `offset` is still there, and no other has come. */
  predicate RestStays(before: seq<Range>, after: seq<Range>, offset: nat) {
    && (forall x :: x in before && x.offset != offset ==> x in after)
    && (forall x :: x in after && x.offset != offset ==> x in before)
  }

  /** The range is listed, its bytes are held, and its object is the most recent. */
  predicate Recorded(index: Index, payload: Payload, recency: seq<nat>, n: nat, r: Range, bytes: Bytes) {
    && n in index && r in index[n].ranges && (n, r.offset) in payload && payload[(n, r.offset)] == bytes
    && recency != [] && recency[0] == n
  }

  /** No range answers the request. */
  predicate Silent(rs: seq<Range>, offset: nat, len: Option<nat>) {
    forall i :: 0 <= i < |rs| ==> Take(rs[i], offset, len).None?
  }

  /** The first range that takes the request has its bytes. */
  predicate HasAnswer(index: Index, payload: Payload, n: nat, offset: nat, len: Option<nat>) {
    n in index && exists i :: 0 <= i < |index[n].ranges| && Take(index[n].ranges[i], offset, len).Some?
                              && Silent(index[n].ranges[..i], offset, len)
                              && (n, index[n].ranges[i].offset) in payload
  }

  lemma FirstDecides(index: Index, payload: Payload, n: nat, at: nat, offset: nat, len: Option<nat>)
    requires n in index && at < |index[n].ranges| && Take(index[n].ranges[at], offset, len).Some?
    requires Silent(index[n].ranges[..at], offset, len)
    ensures HasAnswer(index, payload, n, offset, len) <==> (n, index[n].ranges[at].offset) in payload
  {
    var rs := index[n].ranges;
    assert forall i :: 0 <= i < |rs| && Take(rs[i], offset, len).Some? && Silent(rs[..i], offset, len) ==> i == at;
  }

  /** The bytes of a listed range are gone. */
  predicate LostOne(rs: seq<Range>, payload: Payload, n: nat) {
    exists i :: 0 <= i < |rs| && (n, rs[i].offset) !in payload
  }

  /** Too large to keep at all, or too large even with nothing else kept. */
  predicate Declined(index: Index, cached: nat, max: nat, n: nat, size: nat) {
    size > max || (cached + size > max && forall m :: m in index ==> m == n)
  }

  function HeldAt(payload: Payload, n: nat, offset: nat): nat {
    if (n, offset) in payload then |payload[(n, offset)]| else 0
  }

  lemma {:induction false} PlacedRanges(rs: seq<Range>, r: Range)
    requires DistinctOffsets(rs)
    ensures DistinctOffsets(Placed(rs, r)) && Sizes(Placed(rs, r)) + SizeAt(rs, r.offset) == Sizes(rs) + r.size
    ensures forall x :: x in Placed(rs, r) <==> x == r || (x in rs && x.offset != r.offset)
  {
    if rs != [] {
      var rest := rs[1..];
      assert forall x :: x in rs <==> x == rs[0] || x in rest;
      assert forall x :: x in rest ==> x.offset != rs[0].offset;
      PlacedRanges(rest, r);
      if rs[0].offset != r.offset {
        var placed := Placed(rest, r);
        forall i | 0 <= i < |placed|
          ensures placed[i].offset != rs[0].offset
        {
          assert placed[i] in placed;
        }
      }
    }
  }

  lemma {:induction false} PlacedHeld(n: nat, rs: seq<Range>, r: Range, p: Payload, b: Bytes)
    requires DistinctOffsets(rs)
    requires (n, r.offset) in p ==> exists i :: 0 <= i < |rs| && rs[i].offset == r.offset
    ensures HeldOf(n, Placed(rs, r), p[(n, r.offset) := b]) + HeldAt(p, n, r.offset) == HeldOf(n, rs, p) + |b|
  {
    var q := p[(n, r.offset) := b];
    if rs == [] {
      assert Placed(rs, r)[1..] == [];
    } else if rs[0].offset == r.offset {
      HeldSame(n, rs[1..], p, q);
      assert Placed(rs, r)[1..] == rs[1..];
    } else {
      if (n, r.offset) in p {
        var i :| 0 <= i < |rs| && rs[i].offset == r.offset;
        assert rs[1..][i - 1] == rs[i];
      }
      PlacedHeld(n, rs[1..], r, p, b);
      assert Placed(rs, r)[1..] == Placed(rs[1..], r);
    }
  }

  /** The object as it was, or an empty one about to be filled. */
  function ObjectAt(index: Index, n: nat): Object {
    if n in index then index[n] else Object([], 0)
  }

  function Filled(index: Index, n: nat, r: Range): Index {
    var o := ObjectAt(index, n);
    index[n := Object(Placed(o.ranges, r), Sizes(Placed(o.ranges, r)))]
  }

  lemma FilledRecords(index: Index, payload: Payload, recency: seq<nat>, n: nat, r: Range, b: Bytes)
    requires DistinctOffsets(ObjectAt(index, n).ranges)
    ensures Recorded(Filled(index, n, r), payload[(n, r.offset) := b], Touched(recency, n), n, r, b)
    ensures RestStays(ObjectAt(index, n).ranges, Filled(index, n, r)[n].ranges, r.offset)
  {
    PlacedRanges(ObjectAt(index, n).ranges, r);
  }

  /** The other objects do not notice. */
  lemma FillOthers(index: Index, recency: seq<nat>, payload: Payload, n: nat, r: Range, b: Bytes)
    requires AllDistinct(recency) && forall m :: m in recency ==> m in index
    ensures var rest := Without(recency, n);
            && BytesOf(rest, Filled(index, n, r)) == BytesOf(rest, index)
            && HeldBy(rest, Filled(index, n, r), payload[(n, r.offset) := b]) == HeldBy(rest, index, payload)
  {
    WithoutMembers(recency, n);
    SumsSame(Without(recency, n), index, Filled(index, n, r), payload, payload[(n, r.offset) := b]);
  }

  lemma {:induction false} WithoutAbsent(names: seq<nat>, n: nat)
    requires n !in names
    ensures Without(names, n) == names
  {
    if names != [] {
      WithoutAbsent(names[1..], n);
    }
  }

  /** What both sums come to once the range is in. */
  lemma FillSums(index: Index, recency: seq<nat>, cached: nat, payload: Payload, held: nat, max: nat, n: nat,
      r: Range, b: Bytes)
    requires Sound(index, recency, cached, payload, held, max) && |b| == r.size
    ensures var o := ObjectAt(index, n);
            && BytesOf(Touched(recency, n), Filled(index, n, r)) + SizeAt(o.ranges, r.offset) == cached + r.size
            && HeldBy(Touched(recency, n), Filled(index, n, r), payload[(n, r.offset) := b])
              + HeldAt(payload, n, r.offset)
               == held + r.size
  {
    var o := ObjectAt(index, n);
    FillOthers(index, recency, payload, n, r, b);
    PlacedRanges(o.ranges, r);
    PlacedHeld(n, o.ranges, r, payload, b);
    assert Touched(recency, n)[1..] == Without(recency, n);
    if n in index {
      SumsWithout(recency, n, index, payload);
    } else {
      WithoutAbsent(recency, n);
    }
  }

  lemma FillListed(index: Index, payload: Payload, n: nat, r: Range, b: Bytes)
    requires forall m :: m in index ==> DistinctOffsets(index[m].ranges)
    requires forall q :: q in payload ==> q.0 in index && Listed(index[q.0].ranges, q.1, |payload[q]|)
    requires |b| == r.size
    ensures var after := payload[(n, r.offset) := b];
            forall q :: q in after ==>
              q.0 in Filled(index, n, r) && Listed(Filled(index, n, r)[q.0].ranges, q.1, |after[q]|)
  {
    var o, after := ObjectAt(index, n), payload[(n, r.offset) := b];
    PlacedRanges(o.ranges, r);
    var placed := Placed(o.ranges, r);
    forall q | q in after
      ensures q.0 in Filled(index, n, r) && Listed(Filled(index, n, r)[q.0].ranges, q.1, |after[q]|)
    {
      if q == (n, r.offset) {
        assert r in placed;
        var i :| 0 <= i < |placed| && placed[i] == r;
      } else if q.0 == n {
        var i :| 0 <= i < |o.ranges| && o.ranges[i].offset == q.1 && o.ranges[i].size == |payload[q]|;
        assert o.ranges[i] in placed;
        var j :| 0 <= j < |placed| && placed[j] == o.ranges[i];
      }
    }
  }

  /** Recording a range keeps everything in agreement, and within the bound when there was room. */
  lemma FillSound(index: Index, recency: seq<nat>, cached: nat, payload: Payload, held: nat, max: nat, n: nat,
      r: Range, b: Bytes)
    requires Sound(index, recency, cached, payload, held, max) && |b| == r.size && cached + r.size <= max
    ensures var before := SizeAt(ObjectAt(index, n).ranges, r.offset);
            var was := HeldAt(payload, n, r.offset);
            && cached + r.size >= before && held + r.size >= was
            && Sound(Filled(index, n, r), Touched(recency, n), cached + r.size - before,
                     payload[(n, r.offset) := b], held + r.size - was, max)
  {
    TouchedMembers(recency, n);
    FillSums(index, recency, cached, payload, held, max, n, r, b);
    FillListed(index, payload, n, r, b);
    PlacedRanges(ObjectAt(index, n).ranges, r);
  }

  lemma FillTruthful(index: Index, payload: Payload, truth: map<nat, Bytes>, n: nat, r: Range, b: Bytes)
    requires Truthful(index, payload, truth) && n in truth && (n in index ==> DistinctOffsets(index[n].ranges))
    requires |b| == r.size && b == Answer(truth[n], r.offset, Some(|b|))
    requires r.toEnd ==> r.offset + r.size >= |truth[n]|
    ensures Truthful(Filled(index, n, r), payload[(n, r.offset) := b], truth)
  {
    var o := ObjectAt(index, n);
    var placed := Placed(o.ranges, r);
    PlacedRanges(o.ranges, r);
    forall i | 0 <= i < |placed| && placed[i].toEnd
      ensures placed[i].offset + placed[i].size >= |truth[n]|
    {
      assert placed[i] in placed;
      if placed[i] != r {
        var j :| 0 <= j < |o.ranges| && o.ranges[j] == placed[i];
      }
    }
  }

  lemma {:induction false} HeldAtOf(n: nat, rs: seq<Range>, payload: Payload, i: nat)
    requires i < |rs|
    ensures HeldAt(payload, n, rs[i].offset) <= HeldOf(n, rs, payload)
  {
    if i > 0 {
      assert rs[1..][i - 1] == rs[i];
      HeldAtOf(n, rs[1..], payload, i - 1);
    }
  }

  lemma HeldAtWithin(index: Index, recency: seq<nat>, cached: nat, payload: Payload, held: nat, max: nat, n: nat,
      offset: nat)
    requires Sound(index, recency, cached, payload, held, max)
    ensures HeldAt(payload, n, offset) <= held
  {
    if (n, offset) in payload {
      var rs := index[n].ranges;
      var i :| 0 <= i < |rs| && rs[i].offset == offset && rs[i].size == |payload[(n, offset)]|;
      HeldAtOf(n, rs, payload, i);
      SumsWithout(recency, n, index, payload);
    }
  }

  /** Entries may go, and nothing else may change: what dropping and evicting do. */
  predicate Subset(index: Index, payload: Payload, before: Index, was: Payload) {
    && (forall n :: n in index ==> n in before && index[n] == before[n])
    && (forall q :: q in payload ==> q in was && payload[q] == was[q])
  }

  lemma SubsetTruthful(index: Index, payload: Payload, before: Index, was: Payload, truth: map<nat, Bytes>)
    requires Subset(index, payload, before, was) && Truthful(before, was, truth)
    ensures Truthful(index, payload, truth)
  {
  }

  /** The entries of the first `i` ranges of one object. */
  predicate Erased(rs: seq<Range>, i: nat, n: nat, q: (nat, nat)) {
    q.0 == n && exists j :: 0 <= j < i && j < |rs| && rs[j].offset == q.1
  }

  lemma EraseHeld(n: nat, rs: seq<Range>, p: Payload, offset: nat)
    requires forall i :: 0 <= i < |rs| ==> rs[i].offset != offset
    ensures HeldOf(n, rs, p - {(n, offset)}) == HeldOf(n, rs, p)
  {
    HeldSame(n, rs, p, p - {(n, offset)});
  }

  lemma AllErased(index: Index, payload: Payload, n: nat)
    requires n in index && forall q :: q in payload ==> q.0 in index && Listed(index[q.0].ranges, q.1, |payload[q]|)
    ensures forall q :: q in payload && q.0 == n ==> Erased(index[n].ranges, |index[n].ranges|, n, q)
  {
    forall q | q in payload && q.0 == n
      ensures Erased(index[n].ranges, |index[n].ranges|, n, q)
    {
      var i :| 0 <= i < |index[n].ranges| && index[n].ranges[i].offset == q.1;
    }
  }

  /** The erase loop over one object's entries. */
  method EraseAll(payload: Payload, n: nat, rs: seq<Range>) returns (left: Payload, freed: nat)
    requires DistinctOffsets(rs)
    ensures forall q :: q in left <==> q in payload && !Erased(rs, |rs|, n, q)
    ensures forall q :: q in left ==> left[q] == payload[q]
    ensures freed == HeldOf(n, rs, payload)
  {
    left, freed := payload, 0;
    for i := 0 to |rs|
      invariant forall q :: q in left <==> q in payload && !Erased(rs, i, n, q)
      invariant forall q :: q in left ==> left[q] == payload[q]
      invariant freed + HeldOf(n, rs[i..], left) == HeldOf(n, rs, payload)
    {
      var q := (n, rs[i].offset);
      assert rs[i..][1..] == rs[i + 1..];
      if q in left {
        EraseHeld(n, rs[i + 1..], left, rs[i].offset);
        freed := freed + |left[q]|;
        left := left - {q};
      }
    }
  }

  lemma {:induction false} WithoutShorter(names: seq<nat>, n: nat)
    requires n in names
    ensures |Without(names, n)| < |names|
  {
    if names[0] != n {
      WithoutShorter(names[1..], n);
    }
  }

  /** The last name of the list that is not to be kept. */
  method LeastRecent(recency: seq<nat>, keep: nat) returns (victim: Option<nat>)
    ensures victim.Some? ==> exists i :: 0 <= i < |recency| && recency[i] == victim.value != keep
                                         && forall j :: i < j < |recency| ==> recency[j] == keep
    ensures victim.None? ==> forall n :: n in recency ==> n == keep
  {
    var i := |recency|;
    while i > 0
      invariant 0 <= i <= |recency|
      invariant forall j :: i <= j < |recency| ==> recency[j] == keep
    {
      i := i - 1;
      if recency[i] != keep {
        return Some(recency[i]);
      }
    }
    return None;
  }

  /** What is left is the front of all there was, and had to go that far. */
  predicate Tight(left: seq<nat>, all: seq<nat>, index: Index, cached: nat, wanted: nat, max: nat) {
    left <= all && (left != all ==> all[|left|] in index && cached + index[all[|left|]].bytes + wanted > max)
  }

  lemma StillTight(left: seq<nat>, victim: nat, all: seq<nat>, index: Index, cached: nat, wanted: nat, max: nat)
    requires Tight(left + [victim], all, index, cached, wanted, max) && cached + wanted > max
    requires victim in index && index[victim].bytes <= cached
    ensures Tight(left, all, index, cached - index[victim].bytes, wanted, max)
  {
    assert all[|left|] == (left + [victim])[|left|] == victim;
  }

  lemma OneKept(names: seq<nat>, i: nat, keep: nat)
    requires AllDistinct(names) && i < |names| && forall j :: i < j < |names| ==> names[j] == keep
    ensures |names| <= i + 2
  {
    NeighboursDiffer(names, i + 1);
  }

  lemma NeighboursDiffer(names: seq<nat>, j: nat)
    requires AllDistinct(names)
    ensures j + 1 < |names| ==> names[j] != names[j + 1]
  {
  }

  /** Taking out the last name but the kept one shortens the list of the others by its last. */
  lemma {:induction false} EvictingLast(names: seq<nat>, victim: nat, keep: nat)
    requires AllDistinct(names)
    requires exists i :: 0 <= i < |names| && names[i] == victim != keep
                         && forall j :: i < j < |names| ==> names[j] == keep
    ensures Without(Without(names, victim), keep) + [victim] == Without(names, keep)
  {
    var i :| 0 <= i < |names| && names[i] == victim != keep && forall j :: i < j < |names| ==> names[j] == keep;
    OneKept(names, i, keep);
    if i == 0 {
      assert |names| == 2 ==> names[1] == keep;
    } else {
      var rest := names[1..];
      assert rest[i - 1] == victim && forall j :: i - 1 < j < |rest| ==> rest[j] == keep by {
        assert forall j :: i - 1 < j < |rest| ==> rest[j] == names[j + 1];
      }
      assert i + 1 < |names| ==> names[i + 1] == keep && names[0] != names[i + 1];
      if names[0] == keep {
        WithoutLast(rest);
      } else {
        EvictingLast(rest, victim, keep);
      }
    }
  }

  lemma {:induction false} WithoutLast(names: seq<nat>)
    requires names != [] && AllDistinct(names)
    ensures Without(names, names[|names| - 1]) == names[..|names| - 1]
  {
    if |names| > 1 {
      WithoutLast(names[1..]);
    }
  }

  lemma {:induction false} HeldWithinSizes(n: nat, rs: seq<Range>, payload: Payload)
    requires forall i :: 0 <= i < |rs| && (n, rs[i].offset) in payload ==> |payload[(n, rs[i].offset)]| == rs[i].size
    ensures HeldOf(n, rs, payload) <= Sizes(rs)
    ensures (forall i :: 0 <= i < |rs| ==> (n, rs[i].offset) in payload) ==> HeldOf(n, rs, payload) == Sizes(rs)
  {
    if rs != [] {
      HeldWithinSizes(n, rs[1..], payload);
      assert (forall i :: 0 <= i < |rs| ==> (n, rs[i].offset) in payload) ==>
               forall i :: 0 <= i < |rs[1..]| ==> (n, rs[1..][i].offset) in payload;
    }
  }

  predicate NothingLost(index: Index, payload: Payload) {
    forall n, i :: n in index && 0 <= i < |index[n].ranges| ==> (n, index[n].ranges[i].offset) in payload
  }

  lemma {:induction false} HeldWithinBytes(names: seq<nat>, index: Index, payload: Payload)
    requires forall n :: n in names ==> n in index
    requires forall n :: n in index ==> DistinctOffsets(index[n].ranges) && index[n].bytes == Sizes(index[n].ranges)
    requires forall q :: q in payload ==> q.0 in index && Listed(index[q.0].ranges, q.1, |payload[q]|)
    ensures HeldBy(names, index, payload) <= BytesOf(names, index)
    ensures NothingLost(index, payload) ==> HeldBy(names, index, payload) == BytesOf(names, index)
  {
    if names != [] {
      var n := names[0];
      assert n in names;
      forall i | 0 <= i < |index[n].ranges| && (n, index[n].ranges[i].offset) in payload
        ensures |payload[(n, index[n].ranges[i].offset)]| == index[n].ranges[i].size
      {
        ListedSize(index, payload, n, i);
      }
      HeldWithinSizes(n, index[n].ranges, payload);
      HeldWithinBytes(names[1..], index, payload);
    }
  }

  /** The bytes charged never exceed what the index counts, nor the bound, and match it when nothing was lost. */
  lemma HeldWithinBound(index: Index, recency: seq<nat>, cached: nat, payload: Payload, held: nat, max: nat)
    requires Sound(index, recency, cached, payload, held, max)
    ensures held <= cached <= max && (NothingLost(index, payload) ==> held == cached)
  {
    HeldWithinBytes(recency, index, payload);
  }

  /** How many bytes of a range answer the request, if it does. */
  function Take(r: Range, offset: nat, len: Option<nat>): (taken: Option<nat>)
    ensures taken.Some? <==>
              r.offset <= offset && (r.toEnd || (len.Some? && offset + len.value <= r.offset + r.size))
  {
    if r.offset > offset then None
    else
      var skip := offset - r.offset;
      if skip > r.size && !r.toEnd then None
      else if len.Some? && skip + len.value <= r.size then len
      else if !r.toEnd then None
      else Some(r.size - Min(skip, r.size))
  }

  function Loaded(b: Bytes, skip: nat, len: nat): Bytes {
    if skip > |b| then [] else b[skip..skip + Min(len, |b| - skip)]
  }

  lemma ListedSize(index: Index, payload: Payload, n: nat, i: nat)
    requires n in index && i < |index[n].ranges| && DistinctOffsets(index[n].ranges)
    requires (n, index[n].ranges[i].offset) in payload
    requires Listed(index[n].ranges, index[n].ranges[i].offset, |payload[(n, index[n].ranges[i].offset)]|)
    ensures index[n].ranges[i].size == |payload[(n, index[n].ranges[i].offset)]|
  {
  }

  /** A range that answers at all answers exactly as the store below would. */
  lemma RangeAnswers(whole: Bytes, r: Range, b: Bytes, offset: nat, len: Option<nat>)
    requires |b| == r.size && b == Answer(whole, r.offset, Some(|b|))
    requires r.toEnd ==> r.offset + r.size >= |whole|
    requires Take(r, offset, len).Some?
    ensures Loaded(b, offset - r.offset, Take(r, offset, len).value) == Answer(whole, offset, len)
  {
    var skip, wanted := offset - r.offset, Take(r, offset, len).value;
    if skip <= |b| && offset < |whole| {
      assert b == whole[r.offset..r.offset + |b|];
      SliceOfSlice(whole, r.offset, r.offset + |b|, skip, wanted);
    }
  }

  lemma FetchedIsAnswer(whole: Bytes, start: nat, want: Option<nat>)
    ensures var fetched := Answer(whole, start, want);
            && fetched == Answer(whole, start, Some(|fetched|))
            && ((want.None? || |fetched| < want.value) ==> start + |fetched| >= |whole|)
  {
  }

  lemma HitAnswers(index: Index, recency: seq<nat>, cached: nat, payload: Payload, held: nat, max: nat,
                   truth: map<nat, Bytes>, n: nat, i: nat, offset: nat, len: Option<nat>)
    requires Sound(index, recency, cached, payload, held, max) && Truthful(index, payload, truth)
    requires n in index && i < |index[n].ranges| && (n, index[n].ranges[i].offset) in payload
    requires Take(index[n].ranges[i], offset, len).Some?
    ensures var r := index[n].ranges[i];
            n in truth &&
            Loaded(payload[(n, r.offset)], offset - r.offset, Take(r, offset, len).value) ==
              Answer(truth[n], offset, len)
  {
    ListedSize(index, payload, n, i);
    RangeAnswers(truth[n], index[n].ranges[i], payload[(n, index[n].ranges[i].offset)], offset, len);
  }

  /** The first range that answers. */
  method FindRange(rs: seq<Range>, offset: nat, len: Option<nat>) returns (at: Option<nat>)
    ensures at.Some? ==> at.value < |rs| && Take(rs[at.value], offset, len).Some? && Silent(rs[..at.value], offset, len)
    ensures at.None? ==> forall i :: 0 <= i < |rs| ==> Take(rs[i], offset, len).None?
  {
    for i := 0 to |rs|
      invariant forall j :: 0 <= j < i ==> Take(rs[j], offset, len).None?
    {
      if Take(rs[i], offset, len).Some? {
        return Some(i);
      }
    }
    return None;
  }

  /** A miss is widened to whole chunks; a read to the end only at its start. */
  function Planned(offset: nat, len: Option<nat>, granularity: nat): (p: (nat, Option<nat>))
    requires offset < WORDS && (len.Some? ==> len.value < WORDS)
    ensures p.0 <= offset && p.1.Some? == len.Some?
  {
    if len.Some? then
      var plan := PlanFetch(offset, len.value, granularity);
      (plan.offset, Some(plan.len))
    else if granularity > 0 then Aligned(offset, granularity); (offset - offset % granularity, None)
    else (offset, None)
  }

  lemma Spread(g: int, a: int, b: int)
    ensures g * (a - b) == g * a - g * b
  {
  }

  lemma AtLeastOnce(g: nat, d: int)
    requires d >= 1
    ensures g * d >= g
  {
  }

  lemma Divided(x: nat, g: nat)
    requires g > 0
    ensures x == g * (x / g) + x % g
  {
  }

  lemma MultipleOf(g: nat, q: nat)
    requires g > 0
    ensures (g * q) % g == 0
  {
    var m := g * q;
    var d := q - m / g;
    Divided(m, g);
    Spread(g, q, m / g);
    if d >= 1 { AtLeastOnce(g, d); }
    if d <= -1 {
      AtLeastOnce(g, -d);
      Spread(g, 0, -d);
    }
  }

  /** The multiples of the granularity on either side of a position. */
  lemma Boundaries(x: nat, g: nat)
    requires g > 0
    ensures (x - x % g) % g == 0 && x < x - x % g + g && (x + (g - x % g)) % g == 0
  {
    Divided(x, g);
    MultipleOf(g, x / g);
    MultipleOf(g, x / g + 1);
    Spread(g, x / g + 1, 1);
  }

  lemma EndIsNext(end: nat, granularity: nat)
    requires granularity > 0 && end + granularity <= WORDS
    ensures RoundedEnd(end, granularity) % granularity == 0 && end <= RoundedEnd(end, granularity) < end + granularity
  {
    Boundaries(end, granularity);
  }

  lemma FetchEnd(offset: nat, len: nat, granularity: nat)
    requires granularity > 0 && offset + len + granularity <= WORDS
    ensures var p := PlanFetch(offset, len, granularity);
            p.offset == offset - offset % granularity && p.offset + p.len == RoundedEnd(offset + len, granularity)
  {
    Aligned(offset, granularity);
    EndIsNext(offset + len, granularity);
    var aligned, end := offset - offset % granularity, RoundedEnd(offset + len, granularity);
    assert (offset + len) % WORDS == offset + len;
    assert (end - aligned) % WORDS == end - aligned;
  }

  /** Nothing is fetched beyond the boundaries next to the request, unless the rounding wraps. */
  lemma PlannedIsTight(offset: nat, len: Option<nat>, granularity: nat)
    requires offset < WORDS && (len.Some? ==> len.value < WORDS)
    ensures var p := Planned(offset, len, granularity);
            if granularity == 0 then p == (offset, len)
            else p.0 % granularity == 0 && p.0 <= offset < p.0 + granularity
    ensures var p := Planned(offset, len, granularity);
            granularity > 0 && len.Some? && offset + len.value + granularity <= WORDS ==>
              var end := p.0 + p.1.value;
              end % granularity == 0 && offset + len.value <= end < offset + len.value + granularity
  {
    if granularity > 0 {
      Boundaries(offset, granularity);
      if len.Some? && offset + len.value + granularity <= WORDS {
        FetchEnd(offset, len.value, granularity);
        EndIsNext(offset + len.value, granularity);
      }
    }
  }

  /** Whether what is fetched on a miss holds all that was asked for: see `PlanCoversExactly`. */
  predicate PlanHolds(offset: nat, len: Option<nat>, granularity: nat)
    requires offset < WORDS && (len.Some? ==> len.value < WORDS)
  {
    len.Some? ==> Covers(PlanFetch(offset, len.value, granularity), offset, len.value)
  }

  /** The caller's own window of what was fetched. */
  function Window(fetched: Bytes, skip: nat, len: Option<nat>): Bytes {
    if skip >= |fetched| then []
    else
      var available := |fetched| - skip;
      fetched[skip..skip + if len.Some? then Min(available, len.value) else available]
  }

  lemma WindowAnswers(whole: Bytes, start: nat, want: Option<nat>, offset: nat, len: Option<nat>)
    requires start <= offset && want.Some? == len.Some? && (len.Some? ==> offset + len.value <= start + want.value)
    ensures Window(Answer(whole, start, want), offset - start, len) == Answer(whole, offset, len)
  {
    AnswerIsSlice(whole, start, want);
    AnswerIsSlice(whole, offset, len);
    var end := EndOf(|whole|, start, want);
    if offset < end {
      WindowOfSlice(whole, start, end, offset, len);
    }
  }

  /** What a miss returns: the caller's window of what was planned and fetched. */
  function Missed(whole: Bytes, offset: nat, len: Option<nat>, granularity: nat): Bytes
    requires offset < WORDS && (len.Some? ==> len.value < WORDS)
  {
    var p := Planned(offset, len, granularity);
    Window(Answer(whole, p.0, p.1), offset - p.0, len)
  }

  lemma MissedAnswers(whole: Bytes, offset: nat, len: Option<nat>, granularity: nat)
    requires offset < WORDS && (len.Some? ==> len.value < WORDS) && PlanHolds(offset, len, granularity)
    ensures Missed(whole, offset, len, granularity) == Answer(whole, offset, len)
  {
    if len.Some? {
      var p := PlanFetch(offset, len.value, granularity);
      WindowAnswers(whole, p.offset, Some(p.len), offset, len);
    } else {
      WindowAnswers(whole, Planned(offset, len, granularity).0, None, offset, len);
    }
  }

  /** It is the store's own answer exactly when the plan reaches as far as that answer does. */
  lemma MissedExactly(whole: Bytes, offset: nat, len: nat, granularity: nat)
    requires offset < WORDS && len < WORDS
    ensures var p, end := PlanFetch(offset, len, granularity), EndOf(|whole|, offset, Some(len));
            Missed(whole, offset, Some(len), granularity) == Answer(whole, offset, Some(len)) <==>
              (end <= offset || end <= p.offset + p.len)
  {
    var (start, want) := Planned(offset, Some(len), granularity);
    AnswerIsSlice(whole, start, want);
    AnswerIsSlice(whole, offset, Some(len));
    var end := EndOf(|whole|, start, want);
    if start < |whole| && offset < end {
      WindowOfSlice(whole, start, end, offset, Some(len));
    }
  }

  /** A request whose end wraps: the plan shrinks it, and the answer breaks off at the first boundary. */
  lemma PlanShrinksARequest(whole: Bytes)
    requires |whole| > 16
    ensures !Covers(PlanFetch(10, WORDS - 2, 16), 10, WORDS - 2)
    ensures |Missed(whole, 10, Some(WORDS - 2), 16)| == 6 < |Answer(whole, 10, Some(WORDS - 2))|
  {
    assert PlanFetch(10, WORDS - 2, 16) == Plan(0, 16);
    AnswerIsSlice(whole, 0, Some(16));
    AnswerIsSlice(whole, 10, Some(WORDS - 2));
  }

  /** Where an answer ends. */
  function EndOf(size: nat, offset: nat, len: Option<nat>): nat {
    if len.None? then size else Min(offset + len.value, size)
  }

  lemma AnswerIsSlice(whole: Bytes, offset: nat, len: Option<nat>)
    ensures offset < |whole| ==> Answer(whole, offset, len) == whole[offset..EndOf(|whole|, offset, len)]
    ensures |Answer(whole, offset, len)| == if offset < |whole| then EndOf(|whole|, offset, len) - offset else 0
  {
  }

  lemma WindowOfSlice(whole: Bytes, start: nat, end: nat, offset: nat, len: Option<nat>)
    requires start <= offset < end <= |whole|
    ensures Window(whole[start..end], offset - start, len) == whole[offset..EndOf(end, offset, len)]
  {
    SliceOfSlice(whole, start, end, offset - start, EndOf(end, offset, len) - offset);
  }

  lemma {:induction false} LoseHeldOf(n: nat, rs: seq<Range>, p: Payload, i: nat)
    requires i < |rs| && DistinctOffsets(rs) && (n, rs[i].offset) in p
    ensures HeldOf(n, rs, p) == |p[(n, rs[i].offset)]| + HeldOf(n, rs, p - {(n, rs[i].offset)})
  {
    var q := (n, rs[i].offset);
    if i == 0 {
      EraseHeld(n, rs[1..], p, rs[0].offset);
    } else {
      assert rs[1..][i - 1] == rs[i];
      LoseHeldOf(n, rs[1..], p, i - 1);
    }
  }

  lemma LoseSound(index: Index, recency: seq<nat>, cached: nat, payload: Payload, held: nat, max: nat, n: nat,
      offset: nat)
    requires Sound(index, recency, cached, payload, held, max) && (n, offset) in payload
    ensures |payload[(n, offset)]| <= held
    ensures Sound(index, recency, cached, payload - {(n, offset)}, held - |payload[(n, offset)]|, max)
  {
    var rs, left := index[n].ranges, payload - {(n, offset)};
    var i :| 0 <= i < |rs| && rs[i].offset == offset && rs[i].size == |payload[(n, offset)]|;
    LoseHeldOf(n, rs, payload, i);
    SumsWithout(recency, n, index, payload);
    SumsWithout(recency, n, index, left);
    WithoutMembers(recency, n);
    SumsSame(Without(recency, n), index, index, payload, left);
  }

  // ---------- the cache ----------

  class Cache {
    const max: nat
    const budget: MemoryBudget?
    var index: Index
    var recency: seq<nat>
    var cached: nat
    var payload: Payload
    var held: nat

    /** Its own part of being valid: nothing about the budget. */
    ghost predicate Own()
      reads this
    {
      Sound(index, recency, cached, payload, held, max)
    }

    ghost predicate Valid()
      reads this, budget
    {
      Own() && (budget != null ==> held <= budget.used)
    }

    /** What everyone else holds of the budget. */
    ghost function Others(): int
      reads this, budget
    {
      if budget == null then 0 else budget.used - held
    }

    constructor (max: nat, budget: MemoryBudget?)
      ensures Valid() && this.max == max && this.budget == budget && index == map[] && payload == map[]
      ensures budget != null ==> Others() == budget.used
    {
      this.max, this.budget := max, budget;
      index, recency, cached, payload, held := map[], [], 0, map[], 0;
    }

    method Acquire(bytes: nat) returns (acquired: bool)
      modifies budget
      ensures budget != null ==> budget.used == old(budget.used) + (if acquired then bytes else 0)
      ensures acquired <==> budget == null || old(budget.used) + bytes <= budget.total
    {
      acquired := true;
      if budget != null {
        acquired := budget.TryAcquire(bytes);
      }
    }

    method Release(bytes: nat)
      requires budget != null ==> bytes <= budget.used
      modifies budget
      ensures budget != null ==> budget.used == old(budget.used) - bytes
    {
      if budget != null {
        budget.Release(bytes);
      }
    }

    /** Drops every payload entry of one object and gives what they held back to the budget. */
    method DropPayload(n: nat)
      requires Valid() && n in index
      modifies this`payload, this`held, budget
      ensures payload == PayloadWithout(old(payload), n)
      ensures held + HeldOf(n, index[n].ranges, old(payload)) == old(held)
      ensures Others() == old(Others()) && (budget != null ==> held <= budget.used)
    {
      DropSound(index, recency, cached, payload, held, max, n);
      var left, freed := EraseAll(payload, n, index[n].ranges);
      AllErased(index, payload, n);
      assert left == PayloadWithout(payload, n);
      payload, held := left, held - freed;
      Release(freed);
    }

    method DropObject(n: nat)
      requires Valid() && n in index
      modifies this, budget
      ensures Valid() && Others() == old(Others())
      ensures Subset(index, payload, old(index), old(payload)) && n !in index && |recency| < |old(recency)|
      ensures (forall m :: m in old(index) && m != n ==> m in index) && recency == Without(old(recency), n)
      ensures cached + old(index)[n].bytes == old(cached)
    {
      DropSound(index, recency, cached, payload, held, max, n);
      WithoutShorter(recency, n);
      DropPayload(n);
      cached := cached - index[n].bytes;
      recency := Without(recency, n);
      index := index - {n};
    }

    /**
     Evicts from the back, never the object being filled, and no more than is needed: what is left, the object
     being filled aside, is the front of what there was, and the next after it would not fit beside what is
     wanted. False leaves nothing else to evict.
     */
    method MakeRoom(wanted: nat, keep: nat) returns (fits: bool)
      requires Valid()
      modifies this, budget
      ensures Valid() && Others() == old(Others()) && Subset(index, payload, old(index), old(payload))
      ensures fits <==> cached + wanted <= max
      ensures !fits ==> forall n :: n in index ==> n == keep
      ensures Tight(Without(recency, keep), Without(old(recency), keep), old(index), cached, wanted, max)
      ensures old(cached) + wanted <= max ==> index == old(index) && payload == old(payload) && recency == old(recency)
      ensures keep in old(index) ==> keep in index
    {
      while cached + wanted > max
        invariant Valid() && Others() == old(Others()) && Subset(index, payload, old(index), old(payload))
        invariant Tight(Without(recency, keep), Without(old(recency), keep), old(index), cached, wanted, max)
        invariant old(cached) + wanted <= max ==>
                  index == old(index) && payload == old(payload) && recency == old(recency)
        invariant keep in old(index) ==> keep in index
        decreases |recency|
      {
        var victim := LeastRecent(recency, keep);
        if victim.None? {
          return false;
        }
        EvictingLast(recency, victim.value, keep);
        ghost var before := cached;
        DropObject(victim.value);
        StillTight(Without(recency, keep), victim.value, Without(old(recency), keep), old(index), before, wanted, max);
      }
      return true;
    }

    /** The payload's side: the budget may refuse, and what the key already held is given back. */
    method StorePayload(n: nat, offset: nat, bytes: Bytes) returns (stored: bool)
      requires Valid()
      modifies this`payload, this`held, budget
      ensures Others() == old(Others())
      ensures stored <==> budget == null || old(budget.used) + |bytes| <= budget.total
      ensures !stored ==> payload == old(payload) && held == old(held) && Valid()
      ensures !stored && budget != null ==> budget.used == old(budget.used)
      ensures stored ==>
                && payload == old(payload)[(n, offset) := bytes]
                && held + HeldAt(old(payload), n, offset) == old(held) + |bytes|
                && (budget != null ==> held <= budget.used)
    {
      HeldAtWithin(index, recency, cached, payload, held, max, n, offset);
      stored := Acquire(|bytes|);
      if !stored {
        return;
      }
      var existing := HeldAt(payload, n, offset);
      Release(existing);
      held := held - existing + |bytes|;
      payload := payload[(n, offset) := bytes];
    }

    /** Keeps a range if it fits and the budget allows; otherwise keeps nothing of it. */
    method Insert(n: nat, offset: nat, bytes: Bytes, toEnd: bool, ghost truth: map<nat, Bytes>)
      returns (ghost kept: bool)
      requires Valid() && Truthful(index, payload, truth)
      requires n in truth && bytes == Answer(truth[n], offset, Some(|bytes|))
      requires toEnd ==> offset + |bytes| >= |truth[n]|
      modifies this, budget
      ensures Valid() && Truthful(index, payload, truth) && Others() == old(Others())
      ensures kept ==> Recorded(index, payload, recency, n, Range(offset, |bytes|, toEnd), bytes)
      ensures kept && n in old(index) ==> RestStays(old(index)[n].ranges, index[n].ranges, offset)
      ensures !kept ==> Declined(index, cached, max, n, |bytes|) || Refused(|bytes|)
      ensures |bytes| > max ==> index == old(index) && payload == old(payload) && recency == old(recency)
    {
      if |bytes| > max {
        return false;
      }
      var fits := MakeRoom(|bytes|, n);
      SubsetTruthful(index, payload, old(index), old(payload), truth);
      if !fits {
        return false;
      }
      kept := Record(n, Range(offset, |bytes|, toEnd), bytes, truth);
    }

    /** The budget has no room for as much again. */
    ghost predicate Refused(bytes: nat)
      reads this, budget
    {
      budget != null && budget.used + bytes > budget.total
    }

    /** Once there is room: the payload first, then the index, and nothing if the payload declines. */
    method Record(n: nat, r: Range, bytes: Bytes, ghost truth: map<nat, Bytes>) returns (ghost kept: bool)
      requires Valid() && Truthful(index, payload, truth) && |bytes| == r.size && cached + r.size <= max
      requires n in truth && bytes == Answer(truth[n], r.offset, Some(|bytes|))
      requires r.toEnd ==> r.offset + r.size >= |truth[n]|
      modifies this, budget
      ensures Valid() && Truthful(index, payload, truth) && Others() == old(Others())
      ensures kept ==> Recorded(index, payload, recency, n, r, bytes)
      ensures kept && n in old(index) ==> RestStays(old(index)[n].ranges, index[n].ranges, r.offset)
      ensures !kept ==> Refused(r.size)
    {
      ghost var payloadWas, heldWas := payload, held;
      var stored := StorePayload(n, r.offset, bytes);
      kept := stored;
      if stored {
        FillTruthful(index, payloadWas, truth, n, r, bytes);
        FilledRecords(index, payloadWas, recency, n, r, bytes);
        Enter(n, r, bytes, payloadWas, heldWas);
      }
    }

    /** The stored range joins its object's list, and the object becomes the most recent. */
    method Enter(n: nat, r: Range, ghost bytes: Bytes, ghost payloadWas: Payload, ghost heldWas: nat)
      requires Sound(index, recency, cached, payloadWas, heldWas, max)
      requires |bytes| == r.size && cached + r.size <= max && payload == payloadWas[(n, r.offset) := bytes]
      requires held + HeldAt(payloadWas, n, r.offset) == heldWas + |bytes|
      modifies this`index, this`recency, this`cached
      ensures Own() && index == Filled(old(index), n, r) && recency == Touched(old(recency), n)
    {
      FillSound(index, recency, cached, payloadWas, heldWas, max, n, r, bytes);
      index, recency, cached := Filled(index, n, r), Touched(recency, n),
                                cached + r.size - SizeAt(ObjectAt(index, n).ranges, r.offset);
    }

    method Touch(n: nat)
      requires Valid() && n in index
      modifies this`recency
      ensures Valid() && recency != [] && recency[0] == n && Without(recency, n) == Without(old(recency), n)
    {
      TouchSound(index, recency, cached, payload, held, max, n);
      recency := Touched(recency, n);
    }

    /** Answers from a held range that covers the request, or runs to the end of the object. */
    method Lookup(n: nat, offset: nat, len: Option<nat>, ghost truth: map<nat, Bytes>) returns (found: Option<Bytes>)
      requires Valid() && Truthful(index, payload, truth)
      modifies this, budget
      ensures Valid() && Truthful(index, payload, truth) && Others() == old(Others())
      ensures found.Some? ==> n in truth && found.value == Answer(truth[n], offset, len)
      ensures found.Some? <==> HasAnswer(old(index), old(payload), n, offset, len)
      ensures found.Some? ==> index == old(index) && payload == old(payload) && recency != [] && recency[0] == n
      ensures found.None? && n in old(index) ==>
                if Silent(old(index)[n].ranges, offset, len) then index == old(index) && payload == old(payload)
                else n !in index && LostOne(old(index)[n].ranges, old(payload), n)
    {
      if n !in index {
        return None;
      }
      var at := FindRange(index[n].ranges, offset, len);
      if at.None? {
        return None;
      }
      FirstDecides(index, payload, n, at.value, offset, len);
      found := Serve(n, at.value, offset, len, truth);
    }

    /** From one range; a payload lost behind the index takes the whole object with it. */
    method Serve(n: nat, i: nat, offset: nat, len: Option<nat>, ghost truth: map<nat, Bytes>)
      returns (found: Option<Bytes>)
      requires Valid() && Truthful(index, payload, truth)
      requires n in index && i < |index[n].ranges| && Take(index[n].ranges[i], offset, len).Some?
      modifies this, budget
      ensures Valid() && Truthful(index, payload, truth) && Others() == old(Others())
      ensures found.Some? ==> n in truth && found.value == Answer(truth[n], offset, len)
      ensures found.Some? ==> index == old(index) && payload == old(payload) && recency != [] && recency[0] == n
      ensures found.Some? <==> (n, old(index)[n].ranges[i].offset) in old(payload)
      ensures found.None? ==> n !in index
    {
      var r := index[n].ranges[i];
      if (n, r.offset) !in payload {
        DropObject(n);
        SubsetTruthful(index, payload, old(index), old(payload), truth);
        return None;
      }
      var bytes := Hit(n, i, offset, len, truth);
      return Some(bytes);
    }

    method Hit(n: nat, i: nat, offset: nat, len: Option<nat>, ghost truth: map<nat, Bytes>) returns (bytes: Bytes)
      requires Valid() && Truthful(index, payload, truth)
      requires n in index && i < |index[n].ranges| && Take(index[n].ranges[i], offset, len).Some?
      requires (n, index[n].ranges[i].offset) in payload
      modifies this`recency
      ensures Valid() && recency != [] && recency[0] == n && Without(recency, n) == Without(old(recency), n)
      ensures n in truth && bytes == Answer(truth[n], offset, len)
    {
      HitAnswers(index, recency, cached, payload, held, max, truth, n, i, offset, len);
      var r := index[n].ranges[i];
      bytes := Loaded(payload[(n, r.offset)], offset - r.offset, Take(r, offset, len).value);
      Touch(n);
    }

    /**
     A read through the cache is a read of the store below, whatever has been evicted, lost or refused;
     `None` is the store's own answer for an object it does not have.
     */
    method Get(n: nat, offset: nat, len: Option<nat>, granularity: nat, below: map<nat, Bytes>)
      returns (r: Option<Bytes>)
      requires Valid() && Truthful(index, payload, below)
      requires offset < WORDS && (len.Some? ==> len.value < WORDS)
      modifies this, budget
      ensures Valid() && Truthful(index, payload, below) && Others() == old(Others())
      ensures r.Some? <==> n in below
      ensures PlanHolds(offset, len, granularity) ==>
                r == if n in below then Some(Answer(below[n], offset, len)) else None
      ensures HasAnswer(old(index), old(payload), n, offset, len) ==> index == old(index) && payload == old(payload)
      ensures n !in old(index) && n in below ==> r == Some(Missed(below[n], offset, len, granularity))
      ensures n !in old(index) && n in below ==> KeepsPlan(below[n], offset, len, granularity, n)
    {
      r := Lookup(n, offset, len, below);
      if r.Some? {
        return;
      }
      if n !in below {
        return None;
      }
      var missed := Fetch(n, offset, len, granularity, below);
      if PlanHolds(offset, len, granularity) {
        MissedAnswers(below[n], offset, len, granularity);
      }
      return Some(missed);
    }

    /** What was fetched is kept, unless there is no room for it here or in the budget. */
    ghost predicate KeepsPlan(whole: Bytes, offset: nat, len: Option<nat>, granularity: nat, n: nat)
      requires offset < WORDS && (len.Some? ==> len.value < WORDS)
      reads this, budget
    {
      var p := Planned(offset, len, granularity);
      var bytes := Answer(whole, p.0, p.1);
      || Recorded(index, payload, recency, n, Range(p.0, |bytes|, p.1.None? || |bytes| < p.1.value), bytes)
      || Declined(index, cached, max, n, |bytes|) || Refused(|bytes|)
    }

    /** The planned window, kept if there is room for it, and the caller's part of it. */
    method Fetch(n: nat, offset: nat, len: Option<nat>, granularity: nat, below: map<nat, Bytes>)
      returns (r: Bytes)
      requires Valid() && Truthful(index, payload, below) && n in below
      requires offset < WORDS && (len.Some? ==> len.value < WORDS)
      modifies this, budget
      ensures Valid() && Truthful(index, payload, below) && Others() == old(Others())
      ensures r == Missed(below[n], offset, len, granularity)
      ensures KeepsPlan(below[n], offset, len, granularity, n)
    {
      var (start, want) := Planned(offset, len, granularity);
      var fetched := Answer(below[n], start, want);
      var toEnd := want.None? || |fetched| < want.value;
      FetchedIsAnswer(below[n], start, want);
      var _ := Insert(n, start, fetched, toEnd, below);
      r := Window(fetched, offset - start, len);
    }

    /**
     Write-through: the store below first, which refuses a name it has, and only then the whole object as a
     range that reaches its end.
     */
    method Put(n: nat, bytes: Bytes, below: map<nat, Bytes>) returns (below': map<nat, Bytes>)
      requires Valid() && Truthful(index, payload, below)
      modifies this, budget
      ensures below' == if n in below then below else below[n := bytes]
      ensures Valid() && Truthful(index, payload, below') && Others() == old(Others())
      ensures n in below ==> index == old(index) && payload == old(payload)
      ensures n !in below ==>
                || Recorded(index, payload, recency, n, Range(0, |bytes|, true), bytes)
                || Declined(index, cached, max, n, |bytes|) || Refused(|bytes|)
    {
      if n in below {
        return below;
      }
      below' := below[n := bytes];
      var _ := Insert(n, 0, bytes, true, below');
    }

    /** Forgotten before the store below forgets it. */
    method Remove(n: nat, below: map<nat, Bytes>)
      requires Valid() && Truthful(index, payload, below)
      modifies this, budget
      ensures Valid() && Truthful(index, payload, below - {n}) && Others() == old(Others())
    {
      if n in index {
        DropObject(n);
        SubsetTruthful(index, payload, old(index), old(payload), below);
      }
    }

    /** The payload loses an entry behind the index's back; the index still lists it. */
    method Lose(n: nat, offset: nat)
      requires Valid() && (n, offset) in payload
      modifies this`payload, this`held, budget
      ensures Valid() && Subset(index, payload, old(index), old(payload)) && (n, offset) !in payload
      ensures Others() == old(Others()) && held + |old(payload)[(n, offset)]| == old(held)
    {
      LoseSound(index, recency, cached, payload, held, max, n, offset);
      var bytes := |payload[(n, offset)]|;
      payload, held := payload - {(n, offset)}, held - bytes;
      Release(bytes);
    }
  }
}

module Edits {
  /**
   One edit address, written once by whoever gets there first.

   An edit is put chunk by chunk, each put conditional on its item being absent. A put may be lost, and may
   land at any later time, even after its call has given up. A writer that finds the address taken clears it
   only if the set there is unfinished and its own, and then tries once more; clearing is one step here.
   */

  import opened Keys
  import opened Chunks

  datatype Status = Running | Acked | Refused | Failed

  /** A `put_edit` call: its chunks, which of its two passes it is in, and how many chunks that pass has placed. */
  datatype Call = Call(writer: nat, chunks: seq<Bytes>, pass: nat, at: nat, status: Status)

  /** Which call's which pass wrote an item; the payload and declared total are that call's. */
  datatype Held = Held(call: nat, pass: nat)

  datatype Address = Address(calls: map<nat, Call>, sent: set<(nat, nat, nat)>, items: map<nat, Held>)

  predicate Live(c: Call) {
    c.status == Running || c.status == Acked
  }

  // ---------- steps ----------

  /** A writer makes one call at a time, and never returns to an address it has filled. */
  predicate Begin(s: Address, s': Address, c: nat, writer: nat, chunks: seq<Bytes>) {
    && c !in s.calls && chunks != []
    && (forall d :: d in s.calls && s.calls[d].writer == writer ==> !Live(s.calls[d]))
    && s' == s.(calls := s.calls[c := Call(writer, chunks, 0, 0, Running)])
  }

  predicate Send(s: Address, s': Address, c: nat) {
    && c in s.calls && s.calls[c].status == Running
    && s' == s.(sent := s.sent + {(c, s.calls[c].pass, s.calls[c].at)})
  }

  /** A put that was sent reaches the table while its item is absent. */
  predicate Land(s: Address, s': Address, c: nat, pass: nat, i: nat) {
    && (c, pass, i) in s.sent && i !in s.items
    && s' == s.(items := s.items[i := Held(c, pass)])
  }

  function Updated(s: Address, c: nat, call: Call): Address {
    s.(calls := s.calls[c := call])
  }

  /** The put is known to have landed, from its answer or by reading the item back. */
  predicate Advance(s: Address, s': Address, c: nat) {
    && c in s.calls && s.calls[c].status == Running && s.calls[c].at in s.items
    && var call := s.calls[c];
       && s.items[call.at] == Held(c, call.pass)
       && s' == Updated(s, c, call.(at := call.at + 1,
                                   status := if call.at + 1 == |call.chunks| then Acked else Running))
  }

  /** Fewer items, or more, than the first of them declares. */
  ghost predicate Partial(s: Address) {
    exists f :: f in s.items && (forall j :: j in s.items ==> f <= j)
      && s.items[f].call in s.calls && |s.calls[s.items[f].call].chunks| != |s.items|
  }

  predicate Ours(s: Address, writer: nat) {
    0 in s.items ==> s.items[0].call in s.calls && s.calls[s.items[0].call].writer == writer
  }

  /** The item is taken by another put: clear one's own unfinished set and start again, or be refused. */
  ghost predicate Collide(s: Address, s': Address, c: nat) {
    && c in s.calls && s.calls[c].status == Running && s.calls[c].at in s.items
    && var call := s.calls[c];
       && s.items[call.at] != Held(c, call.pass)
       && s' == if call.pass == 0 && Partial(s) && Ours(s, call.writer)
                then Updated(s, c, call.(pass := 1, at := 0)).(items := map[])
                else Updated(s, c, call.(status := Refused))
  }

  predicate GiveUp(s: Address, s': Address, c: nat) {
    c in s.calls && s.calls[c].status == Running && s' == Updated(s, c, s.calls[c].(status := Failed))
  }

  datatype Step =
    | Beginning(c: nat, writer: nat, chunks: seq<Bytes>)
    | Sending(c: nat)
    | Landing(c: nat, pass: nat, i: nat)
    | Advancing(c: nat)
    | Colliding(c: nat)
    | GivingUp(c: nat)

  ghost predicate Taken(s: Address, s': Address, step: Step) {
    match step
    case Beginning(c, writer, chunks) => Begin(s, s', c, writer, chunks)
    case Sending(c) => Send(s, s', c)
    case Landing(c, pass, i) => Land(s, s', c, pass, i)
    case Advancing(c) => Advance(s, s', c)
    case Colliding(c) => Collide(s, s', c)
    case GivingUp(c) => GiveUp(s, s', c)
  }

  ghost predicate Next(s: Address, s': Address) {
    exists step :: Taken(s, s', step)
  }

  // ---------- what every step keeps ----------

  /** Everything there, and everything on its way, belongs to a call and is within its length. */
  predicate Accounted(s: Address) {
    && (forall i :: i in s.items ==> s.items[i].call in s.calls && i < |s.calls[s.items[i].call].chunks|)
    && (forall q :: q in s.sent ==> q.0 in s.calls && q.2 < |s.calls[q.0].chunks|)
  }

  /** What a live call has placed is still there, and still its own. */
  predicate Placed(s: Address, c: nat) {
    && c in s.calls && s.calls[c].chunks != []
    && (s.calls[c].status == Running ==> s.calls[c].at < |s.calls[c].chunks|)
    && (s.calls[c].status == Acked ==> s.calls[c].at == |s.calls[c].chunks|)
    && (Live(s.calls[c]) ==>
          forall j :: 0 <= j < s.calls[c].at ==> j in s.items && s.items[j] == Held(c, s.calls[c].pass))
  }

  predicate OneEach(s: Address, c: nat, d: nat) {
    c in s.calls && d in s.calls && Live(s.calls[c]) && Live(s.calls[d]) && s.calls[c].writer == s.calls[d].writer ==>
      c == d
  }

  ghost predicate Inv(s: Address) {
    && Accounted(s)
    && (forall c {:trigger Placed(s, c)} :: c in s.calls ==> Placed(s, c))
    && (forall c, d :: OneEach(s, c, d))
  }

  predicate Init(s: Address) {
    s == Address(map[], {}, map[])
  }

  lemma BeginKeeps(s: Address, s': Address, c: nat, writer: nat, chunks: seq<Bytes>)
    requires Inv(s) && Begin(s, s', c, writer, chunks)
    ensures Inv(s')
  {
    forall d | d in s'.calls
      ensures Placed(s', d)
    {
      assert d != c ==> Placed(s, d);
    }
    forall d, e
      ensures OneEach(s', d, e)
    {
      assert OneEach(s, d, e);
    }
  }

  lemma LandKeeps(s: Address, s': Address, c: nat, pass: nat, i: nat)
    requires Inv(s) && Land(s, s', c, pass, i)
    ensures Inv(s')
  {
    forall d | d in s'.calls
      ensures Placed(s', d)
    {
      assert Placed(s, d);
    }
    forall d, e
      ensures OneEach(s', d, e)
    {
      assert OneEach(s, d, e);
    }
  }

  /** A call that moves on, or stops, disturbs no other. */
  lemma UpdateKeeps(s: Address, s': Address, c: nat, call: Call)
    requires Inv(s) && c in s.calls && s.calls[c].status == Running
    requires s' == Updated(s, c, call) && call.writer == s.calls[c].writer && call.chunks == s.calls[c].chunks
    requires Placed(s', c)
    ensures Inv(s')
  {
    forall d | d in s'.calls
      ensures Placed(s', d)
    {
      assert Placed(s, d);
    }
    forall d, e
      ensures OneEach(s', d, e)
    {
      assert OneEach(s, d, e);
    }
  }

  /** The address cleared is the clearer's alone: no other live call has placed anything. */
  lemma ClearKeeps(s: Address, s': Address, c: nat)
    requires Inv(s) && c in s.calls && s.calls[c].status == Running && s.calls[c].pass == 0
    requires Ours(s, s.calls[c].writer)
    requires s' == Updated(s, c, s.calls[c].(pass := 1, at := 0)).(items := map[])
    ensures Inv(s')
  {
    forall d | d in s'.calls
      ensures Placed(s', d)
    {
      assert Placed(s, d) && OneEach(s, c, d);
    }
    forall d, e
      ensures OneEach(s', d, e)
    {
      assert OneEach(s, d, e);
    }
  }

  lemma StepKeeps(s: Address, s': Address, step: Step)
    requires Inv(s) && Taken(s, s', step)
    ensures Inv(s')
  {
    match step
    case Beginning(c, writer, chunks) => BeginKeeps(s, s', c, writer, chunks);
    case Sending(c) =>
      assert Placed(s, c);
      forall d | d in s'.calls
        ensures Placed(s', d)
      {
        assert Placed(s, d);
      }
      forall d, e
        ensures OneEach(s', d, e)
      {
        assert OneEach(s, d, e);
      }
    case Landing(c, pass, i) => LandKeeps(s, s', c, pass, i);
    case Advancing(c) =>
      assert Placed(s, c);
      UpdateKeeps(s, s', c, s'.calls[c]);
    case Colliding(c) =>
      assert Placed(s, c);
      if s.calls[c].pass == 0 && Partial(s) && Ours(s, s.calls[c].writer) {
        ClearKeeps(s, s', c);
      } else {
        UpdateKeeps(s, s', c, s'.calls[c]);
      }
    case GivingUp(c) =>
      assert Placed(s, c);
      UpdateKeeps(s, s', c, s'.calls[c]);
  }

  // ---------- every run ----------

  ghost predicate StepAt(ss: seq<Address>, i: nat) {
    0 < i < |ss| && Next(ss[i - 1], ss[i])
  }

  ghost predicate Run(ss: seq<Address>) {
    ss != [] && Init(ss[0]) && forall i: nat :: 0 < i < |ss| ==> StepAt(ss, i)
  }

  lemma {:induction false} RunKeeps(ss: seq<Address>, n: nat)
    requires Run(ss) && n < |ss|
    ensures Inv(ss[n])
  {
    if n > 0 {
      RunKeeps(ss, n - 1);
      assert StepAt(ss, n);
      var step :| Taken(ss[n - 1], ss[n], step);
      StepKeeps(ss[n - 1], ss[n], step);
    }
  }

  ghost predicate Reached(s: Address) {
    exists ss :: Run(ss) && ss[|ss| - 1] == s
  }

  lemma StartReached(s: Address)
    requires Init(s)
    ensures Reached(s)
  {
    assert Run([s]) && [s][|[s]| - 1] == s;
  }

  lemma StepReached(s: Address, s': Address, step: Step)
    requires Reached(s) && Taken(s, s', step)
    ensures Reached(s')
  {
    var ss :| Run(ss) && ss[|ss| - 1] == s;
    var more := ss + [s'];
    forall i: nat | 0 < i < |more|
      ensures StepAt(more, i)
    {
      if i < |ss| {
        assert StepAt(ss, i);
      }
    }
    assert Run(more) && more[|more| - 1] == s';
  }

  /** At most one call per address ever reports success, whoever makes it. */
  lemma OneCallSucceeds(ss: seq<Address>, n: nat, c: nat, d: nat)
    requires Run(ss) && n < |ss| && c in ss[n].calls && d in ss[n].calls
    requires ss[n].calls[c].status == Acked && ss[n].calls[d].status == Acked
    ensures c == d
  {
    RunKeeps(ss, n);
    assert Placed(ss[n], c) && Placed(ss[n], d);
    assert ss[n].items[0] == Held(c, ss[n].calls[c].pass);
  }

  lemma StepKeepsAcked(s: Address, s': Address, step: Step, c: nat)
    requires Taken(s, s', step) && c in s.calls && s.calls[c].status == Acked
    ensures c in s'.calls && s'.calls[c] == s.calls[c]
  {
  }

  /** Once reported, an edit's chunks are there for good, each with the payload that was reported. */
  lemma {:induction false} SuccessIsForGood(ss: seq<Address>, m: nat, n: nat, c: nat)
    requires Run(ss) && m <= n < |ss| && c in ss[m].calls && ss[m].calls[c].status == Acked
    ensures c in ss[n].calls && ss[n].calls[c] == ss[m].calls[c]
    ensures forall i :: 0 <= i < |ss[m].calls[c].chunks| ==> i in ss[n].items && ss[n].items[i].call == c
    decreases n
  {
    if m < n {
      SuccessIsForGood(ss, m, n - 1, c);
      assert StepAt(ss, n);
      var step :| Taken(ss[n - 1], ss[n], step);
      StepKeepsAcked(ss[n - 1], ss[n], step, c);
    }
    RunKeeps(ss, n);
    assert Placed(ss[n], c);
  }

  // ---------- reading an edit back ----------

  function ItemAt(s: Address, i: nat): Item
    requires Accounted(s) && i in s.items
  {
    var chunks := s.calls[s.items[i].call].chunks;
    Item(Rank(Printed(i)), |chunks|, chunks[i])
  }

  /** What a query of the address returns, each item once. */
  ghost predicate Listing(s: Address, items: seq<Item>)
    requires Accounted(s)
  {
    forall x :: x in items <==> exists i: nat :: i in s.items && x == ItemAt(s, i)
  }

  predicate Short(s: Address) {
    forall c :: c in s.calls ==> |s.calls[c].chunks| <= 10000
  }

  /** An item beyond the acknowledged edit's last: some other call's, landed late. */
  predicate Stray(s: Address, c: nat) {
    c in s.calls && exists i :: i in s.items && i >= |s.calls[c].chunks|
  }

  lemma AckedItems(s: Address, c: nat, i: nat)
    requires Inv(s) && c in s.calls && s.calls[c].status == Acked && i < |s.calls[c].chunks|
    ensures i in s.items && ItemAt(s, i) == ItemsOf(s.calls[c].chunks)[i]
  {
    assert Placed(s, c);
  }

  lemma WithoutStrays(s: Address, c: nat, items: seq<Item>)
    requires Inv(s) && c in s.calls && s.calls[c].status == Acked && Listing(s, items) && !Stray(s, c)
    ensures forall x :: x in items <==> x in ItemsOf(s.calls[c].chunks)
  {
    var chunks := s.calls[c].chunks;
    forall x
      ensures x in items <==> x in ItemsOf(chunks)
    {
      if x in items {
        var i: nat :| i in s.items && x == ItemAt(s, i);
        AckedItems(s, c, i);
        assert ItemsOf(chunks)[i] in ItemsOf(chunks);
      }
      if x in ItemsOf(chunks) {
        var i: nat :| i < |chunks| && ItemsOf(chunks)[i] == x;
        AckedItems(s, c, i);
      }
    }
  }

  /** The first item in order is the acknowledged edit's own first chunk. */
  lemma FirstIsOurs(s: Address, c: nat, sorted: seq<Item>)
    requires Inv(s) && Short(s) && c in s.calls && s.calls[c].status == Acked && sorted != []
    requires Ascending(sorted) && Listing(s, sorted)
    ensures sorted[0].total == |s.calls[c].chunks|
  {
    assert Placed(s, c);
    AckedItems(s, c, 0);
    assert sorted[0] in sorted;
    var i: nat :| i in s.items && sorted[0] == ItemAt(s, i);
    assert ItemAt(s, 0) in sorted;
    var t :| 0 <= t < |sorted| && sorted[t] == ItemAt(s, 0);
    if i > 0 {
      PrintedOrders(0, i);
      RankOrders(Printed(0), Printed(i));
    }
  }

  lemma {:induction false} AscendingCount(items: seq<Item>)
    requires Ascending(items)
    ensures |set x | x in items| == |items|
  {
    if items != [] {
      var front, last := items[..|items| - 1], items[|items| - 1];
      AscendingCount(front);
      assert items == front + [last];
      assert (set x | x in items) == (set x | x in front) + {last};
    }
  }

  lemma OwnItemsAscend(chunks: seq<Bytes>)
    requires |chunks| <= 10000
    ensures Ascending(ItemsOf(chunks))
  {
    var own := ItemsOf(chunks);
    forall j, l | 0 <= j < l < |own|
      ensures own[j].address < own[l].address
    {
      PrintedOrders(j, l);
      RankOrders(Printed(j), Printed(l));
    }
  }

  lemma OwnItemsListed(s: Address, c: nat, sorted: seq<Item>, x: Item, i: nat)
    requires Inv(s) && Short(s) && c in s.calls && s.calls[c].status == Acked && Listing(s, sorted)
    requires x in ItemsOf(s.calls[c].chunks) && i in s.items && i >= |s.calls[c].chunks|
    ensures x in sorted && x != ItemAt(s, i)
  {
    var chunks := s.calls[c].chunks;
    var j: nat :| j < |chunks| && ItemsOf(chunks)[j] == x;
    AckedItems(s, c, j);
    PrintedOrders(j, i);
    RankOrders(Printed(j), Printed(i));
  }

  lemma OneMore(own: seq<Item>, sorted: seq<Item>, stray: Item)
    requires Ascending(own) && Ascending(sorted) && stray in sorted
    requires forall x :: x in own ==> x in sorted && x != stray
    ensures |own| < |sorted|
  {
    AscendingCount(own);
    AscendingCount(sorted);
    var mine := set x | x in own;
    assert |mine + {stray}| == |mine| + 1;
    Subset(mine + {stray}, set x | x in sorted);
  }

  /** A stray makes the count exceed what the first item declares. */
  lemma StraysAreCounted(s: Address, c: nat, sorted: seq<Item>)
    requires Inv(s) && Short(s) && c in s.calls && s.calls[c].status == Acked
    requires Ascending(sorted) && Listing(s, sorted) && Stray(s, c)
    ensures |sorted| != |s.calls[c].chunks|
  {
    var own := ItemsOf(s.calls[c].chunks);
    var i: nat :| i in s.items && i >= |own|;
    OwnItemsAscend(s.calls[c].chunks);
    var stray := ItemAt(s, i);
    forall x | x in own
      ensures x in sorted && x != stray
    {
      OwnItemsListed(s, c, sorted, x, i);
    }
    assert stray in sorted;
    OneMore(own, sorted, stray);
  }

  lemma {:induction false} Subset(a: set<Item>, b: set<Item>)
    requires a <= b
    ensures |a| <= |b|
  {
    assert b == a + (b - a);
  }

  lemma {:induction false} ImageCount(s: Address, chosen: set<nat>)
    requires Accounted(s) && Short(s) && chosen <= s.items.Keys
    ensures |set i | i in chosen :: ItemAt(s, i)| == |chosen|
  {
    if chosen != {} {
      var n :| n in chosen;
      var rest := chosen - {n};
      ImageCount(s, rest);
      var image := set i | i in rest :: ItemAt(s, i);
      assert (set i | i in chosen :: ItemAt(s, i)) == image + {ItemAt(s, n)};
      forall i | i in rest
        ensures ItemAt(s, i) != ItemAt(s, n)
      {
        AddressesDiffer(i, n);
      }
    }
  }

  lemma AddressesDiffer(i: nat, j: nat)
    requires i != j && i < 10000 && j < 10000
    ensures Rank(Printed(i)) != Rank(Printed(j))
    ensures Rank(Printed(i)) < Rank(Printed(j)) <==> i < j
  {
    if i < j {
      PrintedOrders(i, j);
      RankOrders(Printed(i), Printed(j));
    } else {
      PrintedOrders(j, i);
      RankOrders(Printed(j), Printed(i));
    }
  }

  /** A sorted listing has as many items as there are, and starts with the lowest index there is. */
  lemma SortedListing(s: Address, sorted: seq<Item>) returns (f: nat)
    requires Accounted(s) && Short(s) && Ascending(sorted) && Listing(s, sorted) && sorted != []
    ensures |sorted| == |s.items|
    ensures f in s.items && sorted[0] == ItemAt(s, f) && forall j :: j in s.items ==> f <= j
  {
    AscendingCount(sorted);
    ImageCount(s, s.items.Keys);
    assert (set x | x in sorted) == (set i | i in s.items.Keys :: ItemAt(s, i));
    assert sorted[0] in sorted;
    f :| f in s.items && sorted[0] == ItemAt(s, f);
    forall j | j in s.items
      ensures f <= j
    {
      assert ItemAt(s, j) in sorted;
      var t :| 0 <= t < |sorted| && sorted[t] == ItemAt(s, j);
      if j != f { AddressesDiffer(j, f); }
    }
  }

  /** Whatever is at an address reads as damage exactly when it is partial: not as many items as the first declares. */
  lemma CorruptExactly(s: Address, items: seq<Item>, r: Fetched<Bytes>)
    requires Inv(s) && Short(s) && items != [] && Listing(s, items) && Reads(items, r) && !r.Missing?
    ensures r == Corrupt <==> Partial(s)
  {
    var sorted: seq<Item> :|
      && Ascending(sorted) && |sorted| == |items| && (forall x :: x in sorted <==> x in items)
      && (r.Corrupt? <==> sorted[0].total != 0 && sorted[0].total != |items|)
      && (r.Found? ==> r.value == Joined(Payloads(sorted)));
    var f := SortedListing(s, sorted);
    assert Placed(s, s.items[f].call);
  }

  /**
   An acknowledged edit reads back as its own bytes exactly while nothing lies beyond its last chunk, and
   as damage otherwise; never as anything else.
   */
  lemma AckedReadsExactly(s: Address, c: nat, items: seq<Item>, r: Fetched<Bytes>)
    requires Inv(s) && Short(s) && c in s.calls && s.calls[c].status == Acked
    requires items != [] && Listing(s, items) && Reads(items, r) && !r.Missing?
    ensures r == Found(Joined(s.calls[c].chunks)) <==> !Stray(s, c)
    ensures r == Corrupt <==> Stray(s, c)
  {
    var sorted: seq<Item> :|
      && Ascending(sorted) && |sorted| == |items| && (forall x :: x in sorted <==> x in items)
      && (r.Corrupt? <==> sorted[0].total != 0 && sorted[0].total != |items|)
      && (r.Found? ==> r.value == Joined(Payloads(sorted)));
    assert Placed(s, c);
    FirstIsOurs(s, c, sorted);
    if Stray(s, c) {
      StraysAreCounted(s, c, sorted);
    } else {
      WithoutStrays(s, c, sorted);
      ReadsBack(s.calls[c].chunks, sorted);
    }
  }

  /** No stray can land if no call at the address was ever longer than the acknowledged one. */
  lemma EvenlyChunkedNeverStrays(s: Address, c: nat)
    requires Inv(s) && c in s.calls && forall d :: d in s.calls ==> |s.calls[d].chunks| <= |s.calls[c].chunks|
    ensures !Stray(s, c)
  {
  }

  // ---------- a put that stops halfway, and one that lands late ----------

  const LONG: seq<Bytes> := [[1], [2]]
  const SHORT: seq<Bytes> := [[3]]

  function First(at: nat, status: Status): map<nat, Call> {
    map[1 := Call(7, LONG, 0, at, status)]
  }

  function Both(pass: nat, at: nat, status: Status): map<nat, Call> {
    map[1 := Call(7, LONG, 0, 1, Failed), 2 := Call(7, SHORT, pass, at, status)]
  }

  const LATE_0 := Address(map[], {}, map[])
  const LATE_1 := Address(First(0, Running), {}, map[])
  const LATE_2 := Address(First(0, Running), {(1, 0, 0)}, map[])
  const LATE_3 := Address(First(0, Running), {(1, 0, 0)}, map[0 := Held(1, 0)])
  const LATE_4 := Address(First(1, Running), {(1, 0, 0)}, map[0 := Held(1, 0)])
  const LATE_5 := Address(First(1, Running), {(1, 0, 0), (1, 0, 1)}, map[0 := Held(1, 0)])
  const LATE_6 := Address(First(1, Failed), {(1, 0, 0), (1, 0, 1)}, map[0 := Held(1, 0)])
  const LATE_7 := Address(Both(0, 0, Running), {(1, 0, 0), (1, 0, 1)}, map[0 := Held(1, 0)])
  const LATE_8 := Address(Both(1, 0, Running), {(1, 0, 0), (1, 0, 1)}, map[])
  const LATE_9 := Address(Both(1, 0, Running), {(1, 0, 0), (1, 0, 1), (2, 1, 0)}, map[])
  const LATE_10 := Address(Both(1, 0, Running), {(1, 0, 0), (1, 0, 1), (2, 1, 0)}, map[0 := Held(2, 1)])
  const LATE_11 := Address(Both(1, 1, Acked), {(1, 0, 0), (1, 0, 1), (2, 1, 0)}, map[0 := Held(2, 1)])
  const LATE_12 := Address(Both(1, 1, Acked), {(1, 0, 0), (1, 0, 1), (2, 1, 0)}, map[0 := Held(2, 1), 1 := Held(1, 0)])

  /** Two chunks are put; the second goes missing on the way, and the call gives up. */
  lemma HalfPutIsReached()
    ensures Reached(LATE_6) && Short(LATE_6) && Partial(LATE_6)
    ensures forall c :: c in LATE_6.calls ==> LATE_6.calls[c].status == Failed
  {
    StartReached(LATE_0);
    StepReached(LATE_0, LATE_1, Beginning(1, 7, LONG));
    StepReached(LATE_1, LATE_2, Sending(1));
    StepReached(LATE_2, LATE_3, Landing(1, 0, 0));
    StepReached(LATE_3, LATE_4, Advancing(1));
    StepReached(LATE_4, LATE_5, Sending(1));
    StepReached(LATE_5, LATE_6, GivingUp(1));
    assert 0 in LATE_6.items && |LATE_6.items| == 1;
  }

  /** The same writer's next edit is shorter, clears the residue, and is reported written. */
  lemma ShortCallSucceeds()
    ensures Reached(LATE_11)
  {
    HalfPutIsReached();
    assert LATE_7.calls == LATE_6.calls[2 := Call(7, SHORT, 0, 0, Running)];
    StepReached(LATE_6, LATE_7, Beginning(2, 7, SHORT));
    assert 0 in LATE_7.items && |LATE_7.items| == 1 && Partial(LATE_7);
    assert LATE_8.calls == LATE_7.calls[2 := Call(7, SHORT, 1, 0, Running)];
    StepReached(LATE_7, LATE_8, Colliding(2));
    StepReached(LATE_8, LATE_9, Sending(2));
    StepReached(LATE_9, LATE_10, Landing(2, 1, 0));
    assert LATE_11.calls == LATE_10.calls[2 := Call(7, SHORT, 1, 1, Acked)];
    StepReached(LATE_10, LATE_11, Advancing(2));
  }

  /** Then the missing put lands, and the acknowledged edit no longer reads back. */
  lemma LatePutHidesAnEdit()
    ensures Reached(LATE_12) && Short(LATE_12) && LATE_12.calls[2].status == Acked && Stray(LATE_12, 2)
  {
    ShortCallSucceeds();
    StepReached(LATE_11, LATE_12, Landing(1, 0, 1));
    assert 1 in LATE_12.items;
  }
}

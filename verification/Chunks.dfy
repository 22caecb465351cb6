module Chunks {
  /**
   Records larger than one table item: split into numbered chunks, read back by sorting on the address.

   The address ends in the chunk index, printed with at least four digits. Reading back relies on address
   order being index order, which holds of the first ten thousand indices and of no more.
   */

  import opened Keys

  // ---------- addresses ----------

  function Digit(d: nat): Byte
    requires d < 10
  {
    (48 + d) as Byte
  }

  function Decimal(i: nat): (ds: Bytes)
    ensures ds != []
  {
    if i < 10 then [Digit(i)] else Decimal(i / 10) + [Digit(i % 10)]
  }

  /** `%04u`. */
  function Printed(i: nat): Bytes {
    if i < 10000 then [Digit(i / 1000), Digit(i / 100 % 10), Digit(i / 10 % 10), Digit(i % 10)] else Decimal(i)
  }

  lemma Decomposed(i: nat)
    requires i < 10000
    ensures i == 1000 * (i / 1000) + 100 * (i / 100 % 10) + 10 * (i / 10 % 10) + i % 10
  {
    assert i / 10 / 10 == i / 100 && i / 100 / 10 == i / 1000;
  }

  lemma TwoDigits(c: nat, d: nat, g: nat, h: nat)
    requires c < 10 && d < 10 && g < 10 && h < 10 && (c < g || (c == g && d < h))
    ensures Less([Digit(c), Digit(d)], [Digit(g), Digit(h)])
  {
    assert [Digit(c), Digit(d)][1..] == [Digit(d)] && [Digit(g), Digit(h)][1..] == [Digit(h)];
  }

  lemma FourDigits(x: seq<nat>, y: seq<nat>)
    requires |x| == |y| == 4 && (forall n :: 0 <= n < 4 ==> x[n] < 10 && y[n] < 10)
    requires 1000 * x[0] + 100 * x[1] + 10 * x[2] + x[3] < 1000 * y[0] + 100 * y[1] + 10 * y[2] + y[3]
    ensures Less([Digit(x[0]), Digit(x[1]), Digit(x[2]), Digit(x[3])],
                 [Digit(y[0]), Digit(y[1]), Digit(y[2]), Digit(y[3])])
  {
    var a, b := [Digit(x[0]), Digit(x[1]), Digit(x[2]), Digit(x[3])],
      [Digit(y[0]), Digit(y[1]), Digit(y[2]), Digit(y[3])];
    assert a[1..][1..] == [a[2], a[3]] && b[1..][1..] == [b[2], b[3]];
    if x[0] == y[0] && x[1] == y[1] {
      TwoDigits(x[2], x[3], y[2], y[3]);
    }
  }

  lemma PrintedOrders(i: nat, j: nat)
    requires i < j < 10000
    ensures Less(Printed(i), Printed(j))
  {
    Decomposed(i);
    Decomposed(j);
    FourDigits([i / 1000, i / 100 % 10, i / 10 % 10, i % 10], [j / 1000, j / 100 % 10, j / 10 % 10, j % 10]);
  }

  lemma TenThousandSortsEarly()
    ensures Less(Printed(10000), Printed(9999))
  {
    assert Decimal(10) == [Digit(1), Digit(0)] by {
      assert Decimal(1) == [Digit(1)];
    }
    assert Decimal(100) == Decimal(10) + [Digit(0)];
    assert Decimal(1000) == Decimal(100) + [Digit(0)];
    assert Decimal(10000) == Decimal(1000) + [Digit(0)];
    assert Printed(10000)[0] == Digit(1);
  }

  /** Address order is index order for a record of `n` chunks exactly when there are at most ten thousand. */
  lemma AddressOrderExactly(n: nat)
    ensures (forall i, j :: 0 <= i < j < n ==> Less(Printed(i), Printed(j))) <==> n <= 10000
  {
    if n <= 10000 {
      forall i, j | 0 <= i < j < n
        ensures Less(Printed(i), Printed(j))
      {
        PrintedOrders(i, j);
      }
    } else {
      TenThousandSortsEarly();
      LessIsTotal(Printed(9999), Printed(10000));
      assert 0 <= 9999 < 10000 < n;
    }
  }

  // ---------- splitting ----------

  /** The most payload one item carries. */
  const CHUNK_BYTES: nat := 300 * 1024

  function Joined(chunks: seq<Bytes>): Bytes {
    if chunks == [] then [] else Joined(chunks[..|chunks| - 1]) + chunks[|chunks| - 1]
  }

  function ChunksFor(size: nat): (n: nat)
    ensures n >= 1 && size <= n * CHUNK_BYTES && (n == 1 || (n - 1) * CHUNK_BYTES < size)
  {
    Max((size + CHUNK_BYTES - 1) / CHUNK_BYTES, 1)
  }

  /** Chunked unconditionally: at least one chunk, every one but the last full, and nothing lost. */
  method Split(bytes: Bytes) returns (chunks: seq<Bytes>)
    ensures |chunks| == ChunksFor(|bytes|) && Joined(chunks) == bytes
    ensures forall i :: 0 <= i < |chunks| ==> |chunks[i]| <= CHUNK_BYTES
  {
    var total := ChunksFor(|bytes|);
    chunks := [];
    for index := 0 to total
      invariant |chunks| == index
      invariant Joined(chunks) == bytes[..Min(index * CHUNK_BYTES, |bytes|)]
      invariant forall i :: 0 <= i < |chunks| ==> |chunks[i]| <= CHUNK_BYTES
    {
      var offset := index * CHUNK_BYTES;
      assert offset <= |bytes|;
      var length := Min(CHUNK_BYTES, |bytes| - offset);
      var chunk := bytes[offset..offset + length];
      assert (chunks + [chunk])[..index] == chunks;
      assert bytes[..offset] + chunk == bytes[..Min((index + 1) * CHUNK_BYTES, |bytes|)];
      chunks := chunks + [chunk];
    }
  }

  // ---------- reading back ----------

  /** One item as a query returns it; its sort key is kept as its place in the order. */
  datatype Item = Item(address: Key, total: nat, payload: Bytes)

  datatype Fetched<T> = Found(value: T) | Missing | Corrupt

  predicate Ascending(items: seq<Item>) {
    forall i, j :: 0 <= i < j < |items| ==> items[i].address < items[j].address
  }

  /** `std::sort` by sort key, over items whose keys are distinct. */
  method SortItems(items: seq<Item>) returns (out: seq<Item>)
    requires forall i, j :: 0 <= i < j < |items| ==> items[i].address != items[j].address
    ensures Ascending(out) && |out| == |items| && forall x :: x in out <==> x in items
  {
    out := [];
    for n := 0 to |items|
      invariant Ascending(out) && |out| == n
      invariant forall x :: x in out <==> x in items[..n]
    {
      var x := items[n];
      var at := 0;
      while at < |out| && out[at].address < x.address
        invariant 0 <= at <= |out|
        invariant forall i :: 0 <= i < at ==> out[i].address < x.address
      {
        at := at + 1;
      }
      assert at < |out| ==> out[at] in items[..n] && out[at].address != x.address;
      assert items[..n + 1] == items[..n] + [x];
      assert forall y :: y in out <==> y in out[..at] || y in out[at..];
      out := out[..at] + [x] + out[at..];
    }
    assert items[..|items|] == items;
  }

  /** What a record's items read back as: they are put in address order first, and counted. */
  ghost predicate Reads(items: seq<Item>, r: Fetched<Bytes>)
    requires items != []
  {
    exists sorted: seq<Item> ::
      && Ascending(sorted) && |sorted| == |items| && (forall x :: x in sorted <==> x in items)
      && (r.Corrupt? <==> sorted[0].total != 0 && sorted[0].total != |items|)
      && (r.Found? ==> r.value == Joined(Payloads(sorted)))
  }

  /** The payloads in address order, provided as many items are there as the first one says. */
  method GetChunked(items: seq<Item>) returns (r: Fetched<Bytes>)
    requires forall i, j :: 0 <= i < j < |items| ==> items[i].address != items[j].address
    ensures r.Missing? <==> items == []
    ensures items != [] ==> Reads(items, r)
  {
    if items == [] {
      return Missing;
    }
    var sorted := SortItems(items);
    if sorted[0].total != 0 && sorted[0].total != |items| {
      return Corrupt;
    }
    var packed: Bytes := [];
    for i := 0 to |sorted|
      invariant packed == Joined(Payloads(sorted[..i]))
    {
      assert Payloads(sorted[..i + 1])[..i] == Payloads(sorted[..i]);
      packed := packed + sorted[i].payload;
    }
    assert sorted[..|sorted|] == sorted;
    return Found(packed);
  }

  function Payloads(items: seq<Item>): seq<Bytes> {
    seq(|items|, i requires 0 <= i < |items| => items[i].payload)
  }

  /** Two ascending listings of the same items are the same listing. */
  lemma {:induction false} AscendingIsUnique(a: seq<Item>, b: seq<Item>)
    requires Ascending(a) && Ascending(b) && forall x :: x in a <==> x in b
    ensures a == b
  {
    assert a != [] ==> a[0] in b;
    assert b != [] ==> b[0] in a;
    if a != [] && b != [] {
      assert a[0] == b[0];
      forall x
        ensures x in a[1..] <==> x in b[1..]
      {
        assert x in a <==> x == a[0] || x in a[1..];
        assert x in b <==> x == b[0] || x in b[1..];
      }
      AscendingIsUnique(a[1..], b[1..]);
    }
  }

  /** The items of a record, under one prefix, in index order. */
  function ItemsOf(chunks: seq<Bytes>): seq<Item> {
    seq(|chunks|, i requires 0 <= i < |chunks| => Item(Rank(Printed(i)), |chunks|, chunks[i]))
  }

  /** However the items come back, at most ten thousand chunks read back as the bytes that were split. */
  lemma ReadsBack(chunks: seq<Bytes>, sorted: seq<Item>)
    requires 0 < |chunks| <= 10000 && Ascending(sorted) && forall x :: x in sorted <==> x in ItemsOf(chunks)
    ensures |sorted| == |chunks| && sorted[0].total == |chunks| && Joined(Payloads(sorted)) == Joined(chunks)
  {
    var expected := ItemsOf(chunks);
    forall i, j | 0 <= i < j < |expected|
      ensures expected[i].address < expected[j].address
    {
      PrintedOrders(i, j);
      RankOrders(Printed(i), Printed(j));
    }
    AscendingIsUnique(sorted, expected);
    assert Payloads(sorted) == chunks;
  }

  // ---------- choosing between snapshot attempts ----------

  datatype Tagged = Tagged(attempt: nat, item: Item)

  /** The items of one attempt, in the order the query returned them. */
  function Of(items: seq<Tagged>, a: nat): seq<Item> {
    if items == [] then []
    else (if items[0].attempt == a then [items[0].item] else []) + Of(items[1..], a)
  }

  predicate Complete(items: seq<Tagged>, a: nat) {
    var of := Of(items, a);
    of != [] && of[0].total != 0 && of[0].total == |of|
  }

  /** Of a record's chunks, an attempt is complete exactly when none is missing. */
  lemma WholeIsComplete(items: seq<Tagged>, a: nat, chunks: seq<Bytes>)
    requires chunks != [] && forall x :: x in Of(items, a) ==> x in ItemsOf(chunks)
    ensures Complete(items, a) <==> |Of(items, a)| == |chunks|
  {
    var of := Of(items, a);
    assert of != [] ==> of[0] in of;
  }

  lemma {:induction false} OfMembers(items: seq<Tagged>, a: nat)
    ensures forall x :: x in Of(items, a) <==> Tagged(a, x) in items
  {
    if items != [] {
      OfMembers(items[1..], a);
      assert forall t :: t in items <==> t == items[0] || t in items[1..];
    }
  }

  method CompleteAttempts(items: seq<Tagged>) returns (complete: seq<nat>)
    ensures forall a :: a in complete <==> Complete(items, a)
    ensures forall i, j :: 0 <= i < j < |complete| ==> complete[i] != complete[j]
  {
    complete := [];
    for n := 0 to |items|
      invariant forall a :: a in complete ==> Complete(items, a)
      invariant forall i :: 0 <= i < n && Complete(items, items[i].attempt) ==> items[i].attempt in complete
      invariant forall i, j :: 0 <= i < j < |complete| ==> complete[i] != complete[j]
    {
      var a := items[n].attempt;
      if a !in complete && Complete(items, a) {
        complete := complete + [a];
      }
    }
    forall a | Complete(items, a)
      ensures a in complete
    {
      OfMembers(items, a);
      var x := Of(items, a)[0];
      assert x in Of(items, a);
      var i :| 0 <= i < |items| && items[i] == Tagged(a, x);
    }
  }

  lemma OneOrMore(items: seq<Tagged>, complete: seq<nat>)
    requires forall a :: a in complete <==> Complete(items, a)
    requires forall i, j :: 0 <= i < j < |complete| ==> complete[i] != complete[j]
    ensures forall a: nat :: Complete(items, a) && (forall b :: Complete(items, b) ==> b == a) ==> complete == [a]
  {
    assert |complete| > 1 ==> complete[0] in complete && complete[1] in complete;
    forall a: nat | Complete(items, a) && (forall b :: Complete(items, b) ==> b == a)
      ensures complete == [a]
    {
      assert a in complete;
    }
  }

  /**
   The pointer decides when it names an attempt; otherwise only a single complete one is unambiguous. An
   attempt that was never finished is never chosen, and neither is a complete one the pointer did not name.
   */
  method GetSnapshot(items: seq<Tagged>, named: Option<nat>) returns (r: Fetched<Bytes>, ghost chosen: nat)
    requires forall a, i, j :: 0 <= i < j < |Of(items, a)| ==> Of(items, a)[i].address != Of(items, a)[j].address
    ensures r.Missing? <==> items == []
    ensures r.Found? ==> Complete(items, chosen) && Reads(Of(items, chosen), r)
    ensures r.Found? ==> if named.Some? then chosen == named.value else forall a :: Complete(items, a) ==> a == chosen
    ensures named.Some? && !Complete(items, named.value) ==> !r.Found?
    ensures named.Some? && Complete(items, named.value) ==> Reads(Of(items, named.value), r)
    ensures named.None? ==> forall a :: Complete(items, a) && (forall b :: Complete(items, b) ==> b == a) ==>
              Reads(Of(items, a), r)
  {
    chosen := 0;
    if items == [] {
      return Missing, 0;
    }
    var complete := CompleteAttempts(items);
    OneOrMore(items, complete);
    if named.Some? {
      if named.value !in complete {
        return Corrupt, 0;
      }
      r := GetChunked(Of(items, named.value));
      chosen := named.value;
    } else if |complete| == 1 {
      assert complete[0] in complete;
      r := GetChunked(Of(items, complete[0]));
      chosen := complete[0];
      assert forall a :: a in complete ==> a == complete[0];
    } else {
      return Corrupt, 0;
    }
  }

  /** When every chunk of the named attempt is there, the reader gets exactly what was split. */
  lemma NamedSnapshotReadsBack(items: seq<Tagged>, a: nat, chunks: seq<Bytes>, r: Fetched<Bytes>)
    requires 0 < |chunks| <= 10000 && (forall x :: x in Of(items, a) <==> x in ItemsOf(chunks))
    requires Of(items, a) != [] && Reads(Of(items, a), r) && !r.Missing?
    ensures r == Found(Joined(chunks))
  {
    var of := Of(items, a);
    var sorted: seq<Item> :|
      && Ascending(sorted) && |sorted| == |of| && (forall x :: x in sorted <==> x in of)
      && (r.Corrupt? <==> sorted[0].total != 0 && sorted[0].total != |of|)
      && (r.Found? ==> r.value == Joined(Payloads(sorted)));
    ReadsBack(chunks, sorted);
  }
}

/**
 An encrypted object: fixed-size chunks of plaintext, each sealed on its own and a fixed overhead longer.

 Everything above reads logical offsets and plaintext; everything below holds physical offsets and
 ciphertext. The cipher is any pair of functions; what is asked of it is stated where it is asked.
 */
module EncryptedObject {
  import opened Keys

  /** `seal` and `open` take the chunk index, the bytes and the associated data. */
  datatype Cipher = Cipher(
    id: nat,
    chunkBytes: nat,
    overhead: nat,
    seal: (nat, Bytes, Bytes) -> Bytes,
    open: (nat, Bytes, Bytes) -> Option<Bytes>)

  /** Sealing adds exactly the overhead. */
  ghost predicate Pads(c: Cipher) {
    c.chunkBytes > 0 && forall k: nat, p: Bytes, aad: Bytes :: |c.seal(k, p, aad)| == |p| + c.overhead
  }

  /** Opening sheds exactly the overhead. */
  ghost predicate Sized(c: Cipher) {
    forall k: nat, sealed: Bytes, aad: Bytes ::
      c.open(k, sealed, aad).Some? ==> |c.open(k, sealed, aad).value| + c.overhead == |sealed|
  }

  // ---------- the layout ----------

  /** `k * unit`, so that the layout's arithmetic stays linear. */
  function Times(k: nat, unit: nat): nat {
    if k == 0 then 0 else Times(k - 1, unit) + unit
  }

  lemma {:induction false} TimesIs(k: nat, unit: nat)
    ensures Times(k, unit) == k * unit
  {
    if k > 0 {
      TimesIs(k - 1, unit);
      assert k * unit == (k - 1) * unit + unit;
    }
  }

  /** `x / unit`. */
  function Quotient(x: nat, unit: nat): nat
    requires unit > 0
  {
    if x < unit then 0 else Quotient(x - unit, unit) + 1
  }

  lemma {:induction false} QuotientBounds(x: nat, unit: nat)
    requires unit > 0
    ensures Times(Quotient(x, unit), unit) <= x < Times(Quotient(x, unit), unit) + unit
  {
    if x >= unit {
      QuotientBounds(x - unit, unit);
    }
  }

  lemma QuotientIs(x: nat, unit: nat)
    requires unit > 0
    ensures Quotient(x, unit) == x / unit
  {
    var q, d := Quotient(x, unit), x / unit;
    QuotientBounds(x, unit);
    TimesIs(d, unit);
    assert x == d * unit + x % unit;
    if d < q {
      Scales(d + 1, q, unit);
    } else if q < d {
      Scales(q + 1, d, unit);
    }
  }

  /** Zero for an empty object, which occupies nothing physically. */
  function ChunkCount(logical: nat, chunk: nat): nat
    requires chunk > 0
  {
    Quotient(logical + chunk - 1, chunk)
  }

  /** The plaintext length of a chunk, short for the last one. */
  function PlainBytes(k: nat, logical: nat, chunk: nat): nat {
    if Times(k, chunk) >= logical then 0 else Min(chunk, logical - Times(k, chunk))
  }

  function PhysicalSize(logical: nat, chunk: nat, overhead: nat): nat
    requires chunk > 0
  {
    logical + Times(ChunkCount(logical, chunk), overhead)
  }

  lemma CountBounds(logical: nat, chunk: nat)
    requires chunk > 0
    ensures var n := ChunkCount(logical, chunk);
            && logical <= Times(n, chunk)
            && (n == 0 <==> logical == 0)
            && (n > 0 ==> Times(n - 1, chunk) < logical)
  {
    QuotientBounds(logical + chunk - 1, chunk);
  }

  /** Chunk `k` exists exactly when it starts inside the object. */
  lemma WithinCount(logical: nat, chunk: nat, k: nat)
    requires chunk > 0
    ensures k < ChunkCount(logical, chunk) <==> Times(k, chunk) < logical
  {
    var n := ChunkCount(logical, chunk);
    CountBounds(logical, chunk);
    if k < n {
      Scales(k, n - 1, chunk);
    } else {
      Scales(n, k, chunk);
    }
  }

  lemma {:induction false} Scales(a: nat, b: nat, c: nat)
    requires a <= b
    ensures Times(a, c) <= Times(b, c)
    decreases b
  {
    if a < b {
      Scales(a, b - 1, c);
    }
  }

  lemma Next(k: nat, c: nat)
    ensures Times(k + 1, c) == Times(k, c) + c
  {
  }

  // ---------- associated data ----------

  const WORDS: nat := 0x1_0000_0000_0000_0000

  /** Byte `i` of a number, least significant first. */
  function ByteAt(v: nat, i: nat): Byte
    decreases i
  {
    if i == 0 then v % 256 else ByteAt(v / 256, i - 1)
  }

  function LittleEndian(v: nat): (bs: Bytes)
    ensures |bs| == 8
  {
    seq(8, i requires 0 <= i < 8 => ByteAt(v, i))
  }

  function Power(n: nat): (p: nat)
    ensures p > 0
  {
    if n == 0 then 1 else 256 * Power(n - 1)
  }

  lemma {:induction false} BytesDetermine(v: nat, w: nat, n: nat)
    requires v < Power(n) && w < Power(n) && forall i: nat :: i < n ==> ByteAt(v, i) == ByteAt(w, i)
    ensures v == w
    decreases n
  {
    if n > 0 {
      forall i: nat | i < n - 1
        ensures ByteAt(v / 256, i) == ByteAt(w / 256, i)
      {
        assert ByteAt(v, i + 1) == ByteAt(w, i + 1);
      }
      BytesDetermine(v / 256, w / 256, n - 1);
      assert ByteAt(v, 0) == ByteAt(w, 0);
    }
  }

  lemma WordsFit()
    ensures Power(8) == WORDS
  {
    assert Power(2) == 0x1_0000;
    assert Power(4) == 0x1_0000_0000;
    assert Power(6) == 0x1_0000_0000_0000;
  }

  lemma LittleEndianInjective(v: nat, w: nat)
    requires LittleEndian(v) == LittleEndian(w) && v < WORDS && w < WORDS
    ensures v == w
  {
    WordsFit();
    forall i: nat | i < 8
      ensures ByteAt(v, i) == ByteAt(w, i)
    {
      assert LittleEndian(v)[i] == LittleEndian(w)[i];
    }
    BytesDetermine(v, w, 8);
  }

  /** What a chunk is authenticated against: object, position, and for chunk zero the object's length. */
  function ChunkAad(id: nat, k: nat, logical: nat): Bytes {
    LittleEndian(id) + LittleEndian(k) + (if k == 0 then LittleEndian(logical) else [])
  }

  /** No two chunks or objects share their associated data, nor two claimed lengths; a later chunk claims none. */
  lemma EncodingIsInjective(id: nat, k: nat, logical: nat, id': nat, k': nat, logical': nat)
    requires id < WORDS && k < WORDS && logical < WORDS && id' < WORDS && k' < WORDS && logical' < WORDS
    ensures ChunkAad(id, k, logical) == ChunkAad(id', k', logical')
       <==> id == id' && k == k' && (k == 0 ==> logical == logical')
  {
    var x, y := ChunkAad(id, k, logical), ChunkAad(id', k', logical');
    if x == y {
      assert x[..8] == LittleEndian(id) && y[..8] == LittleEndian(id');
      assert x[8..16] == LittleEndian(k) && y[8..16] == LittleEndian(k');
      LittleEndianInjective(id, id');
      LittleEndianInjective(k, k');
      if k == 0 {
        assert x[16..] == LittleEndian(logical) && y[16..] == LittleEndian(logical');
        LittleEndianInjective(logical, logical');
      }
    }
  }

  // ---------- sealing ----------

  function Piece(plain: Bytes, k: nat, chunk: nat): Bytes
    requires Times(k, chunk) <= |plain|
  {
    plain[Times(k, chunk)..Times(k, chunk) + PlainBytes(k, |plain|, chunk)]
  }

  function SealedChunk(c: Cipher, plain: Bytes, k: nat): Bytes
    requires Times(k, c.chunkBytes) <= |plain|
  {
    c.seal(k, Piece(plain, k, c.chunkBytes), ChunkAad(c.id, k, |plain|))
  }

  /** The first `k` chunks, sealed and laid end to end. */
  function SealedUpTo(c: Cipher, plain: Bytes, k: nat): Bytes
    requires c.chunkBytes > 0 && k <= ChunkCount(|plain|, c.chunkBytes)
  {
    if k == 0 then []
    else
      WithinCount(|plain|, c.chunkBytes, k - 1);
      SealedUpTo(c, plain, k - 1) + SealedChunk(c, plain, k - 1)
  }

  function Sealed(c: Cipher, plain: Bytes): Bytes
    requires c.chunkBytes > 0
  {
    SealedUpTo(c, plain, ChunkCount(|plain|, c.chunkBytes))
  }

  lemma UpToNext(c: Cipher, plain: Bytes, k: nat)
    requires c.chunkBytes > 0 && k < ChunkCount(|plain|, c.chunkBytes)
    ensures Times(k, c.chunkBytes) <= |plain|
    ensures SealedUpTo(c, plain, k + 1) == SealedUpTo(c, plain, k) + SealedChunk(c, plain, k)
  {
    WithinCount(|plain|, c.chunkBytes, k);
  }

  /** The sealing loop. */
  method SealObject(c: Cipher, plain: Bytes) returns (sealed: Bytes)
    requires Pads(c)
    ensures sealed == Sealed(c, plain) && |sealed| == PhysicalSize(|plain|, c.chunkBytes, c.overhead)
  {
    sealed := [];
    var chunks := ChunkCount(|plain|, c.chunkBytes);
    for k := 0 to chunks
      invariant sealed == SealedUpTo(c, plain, k)
    {
      UpToNext(c, plain, k);
      var piece := Piece(plain, k, c.chunkBytes);
      sealed := sealed + c.seal(k, piece, ChunkAad(c.id, k, |plain|));
    }
    SealedSize(c, plain);
  }

  lemma ChunkLength(c: Cipher, plain: Bytes, k: nat)
    requires Pads(c) && Times(k, c.chunkBytes) <= |plain|
    ensures |SealedChunk(c, plain, k)| == PlainBytes(k, |plain|, c.chunkBytes) + c.overhead
  {
  }

  /** Every chunk before the last is full, so chunk `k` starts at `k` strides. */
  lemma {:induction false} SealedLength(c: Cipher, plain: Bytes, k: nat)
    requires Pads(c) && k <= ChunkCount(|plain|, c.chunkBytes)
    ensures |SealedUpTo(c, plain, k)| == Min(Times(k, c.chunkBytes), |plain|) + Times(k, c.overhead)
  {
    if k > 0 {
      var j := k - 1;
      SealedLength(c, plain, j);
      WithinCount(|plain|, c.chunkBytes, j);
      ChunkLength(c, plain, j);
      OneMore(|plain|, c.chunkBytes, j);
      Next(j, c.overhead);
      assert SealedUpTo(c, plain, k) == SealedUpTo(c, plain, j) + SealedChunk(c, plain, j);
    }
  }

  lemma OneMore(logical: nat, chunk: nat, j: nat)
    requires Times(j, chunk) < logical
    ensures Min(Times(j, chunk), logical) + PlainBytes(j, logical, chunk) == Min(Times(j + 1, chunk), logical)
  {
    Next(j, chunk);
  }

  lemma SealedSize(c: Cipher, plain: Bytes)
    requires Pads(c)
    ensures |Sealed(c, plain)| == PhysicalSize(|plain|, c.chunkBytes, c.overhead)
  {
    SealedLength(c, plain, ChunkCount(|plain|, c.chunkBytes));
    CountBounds(|plain|, c.chunkBytes);
  }

  lemma {:induction false} SealedPrefix(c: Cipher, plain: Bytes, j: nat, k: nat)
    requires c.chunkBytes > 0 && j <= k <= ChunkCount(|plain|, c.chunkBytes)
    ensures SealedUpTo(c, plain, j) <= SealedUpTo(c, plain, k)
    decreases k
  {
    if j < k {
      SealedPrefix(c, plain, j, k - 1);
    }
  }

  /** Where a chunk starts in the sealed object. */
  lemma ChunkStarts(c: Cipher, plain: Bytes, k: nat)
    requires Pads(c) && k < ChunkCount(|plain|, c.chunkBytes)
    ensures Times(k, c.chunkBytes) < |plain|
    ensures |SealedUpTo(c, plain, k)| == Times(k, c.chunkBytes) + Times(k, c.overhead)
    ensures SealedUpTo(c, plain, k) + SealedChunk(c, plain, k) <= Sealed(c, plain)
  {
    WithinCount(|plain|, c.chunkBytes, k);
    SealedLength(c, plain, k);
    SealedPrefix(c, plain, k + 1, ChunkCount(|plain|, c.chunkBytes));
    UpToNext(c, plain, k);
  }

  /** Where a chunk lies in the sealed object. */
  lemma ChunkLiesAt(c: Cipher, plain: Bytes, k: nat)
    requires Pads(c) && k < ChunkCount(|plain|, c.chunkBytes)
    ensures Times(k, c.chunkBytes) < |plain|
    ensures var at := Times(k, c.chunkBytes) + Times(k, c.overhead);
            var length := PlainBytes(k, |plain|, c.chunkBytes) + c.overhead;
            && at + length <= |Sealed(c, plain)|
            && Sealed(c, plain)[at..at + length] == SealedChunk(c, plain, k)
  {
    ChunkStarts(c, plain, k);
    ChunkLength(c, plain, k);
    Embedded(SealedUpTo(c, plain, k), SealedChunk(c, plain, k), Sealed(c, plain));
  }

  lemma Embedded(a: Bytes, b: Bytes, whole: Bytes)
    requires a + b <= whole
    ensures |a| + |b| <= |whole| && whole[|a|..|a| + |b|] == b
  {
    assert whole[..|a| + |b|] == a + b;
  }

  // ---------- reading ----------

  datatype Read = Data(bytes: Bytes) | Corrupt | Unopened

  /** What a store holding these bytes answers: past the end is short, not an error. */
  function Ranged(stored: Bytes, begin: nat, length: nat): Bytes {
    if begin >= |stored| then [] else stored[begin..Min(begin + length, |stored|)]
  }

  function Cut(bs: Bytes, at: nat, length: nat): Bytes {
    if at + length <= |bs| then bs[at..at + length] else []
  }

  /** How much of the request lies inside the object; an absent length reads to the end. */
  function Wanted(logical: nat, offset: nat, len: Option<nat>): nat {
    if offset >= logical then 0
    else if len.None? || len.value > logical - offset then logical - offset
    else len.value
  }

  function Stride(c: Cipher): nat {
    c.chunkBytes + c.overhead
  }

  /** Chunk `k`, found `n` strides into what was fetched. */
  function OpenOne(c: Cipher, fetched: Bytes, n: nat, k: nat, logical: nat): Option<Bytes> {
    var sealed := Cut(fetched, Times(n, Stride(c)), PlainBytes(k, logical, c.chunkBytes) + c.overhead);
    c.open(k, sealed, ChunkAad(c.id, k, logical))
  }

  /** Chunks `first` to `k - 1` opened in turn and joined, or nothing as soon as one refuses. */
  function OpenRun(c: Cipher, fetched: Bytes, first: nat, k: nat, logical: nat): Option<Bytes>
    requires first <= k
    decreases k
  {
    if k == first then Some([])
    else
      var before := OpenRun(c, fetched, first, k - 1, logical);
      if before.None? then None
      else
        var piece := OpenOne(c, fetched, k - 1 - first, k - 1, logical);
        if piece.None? then None else Some(before.value + piece.value)
  }

  /** First and last chunk of a non-empty request. */
  function FirstChunk(c: Cipher, offset: nat): nat
    requires c.chunkBytes > 0
  {
    Quotient(offset, c.chunkBytes)
  }

  function LastChunk(c: Cipher, offset: nat, want: nat): nat
    requires c.chunkBytes > 0 && want > 0
  {
    Quotient(offset + want - 1, c.chunkBytes)
  }

  function PhysicalEnd(c: Cipher, last: nat, logical: nat): nat {
    Times(last, Stride(c)) + PlainBytes(last, logical, c.chunkBytes) + c.overhead
  }

  /** The layout's arithmetic is the plain one. */
  lemma LayoutIs(c: Cipher, logical: nat, k: nat, offset: nat, want: nat)
    requires c.chunkBytes > 0 && want > 0
    ensures ChunkCount(logical, c.chunkBytes) == (logical + c.chunkBytes - 1) / c.chunkBytes
    ensures PhysicalSize(logical, c.chunkBytes, c.overhead)
         == logical + (logical + c.chunkBytes - 1) / c.chunkBytes * c.overhead
    ensures PlainBytes(k, logical, c.chunkBytes)
         == if k * c.chunkBytes >= logical then 0 else Min(c.chunkBytes, logical - k * c.chunkBytes)
    ensures FirstChunk(c, offset) == offset / c.chunkBytes
    ensures LastChunk(c, offset, want) == (offset + want - 1) / c.chunkBytes
    ensures PhysicalEnd(c, k, logical) == k * Stride(c) + PlainBytes(k, logical, c.chunkBytes) + c.overhead
  {
    QuotientIs(logical + c.chunkBytes - 1, c.chunkBytes);
    TimesIs(ChunkCount(logical, c.chunkBytes), c.overhead);
    TimesIs(k, c.chunkBytes);
    TimesIs(k, Stride(c));
    QuotientIs(offset, c.chunkBytes);
    QuotientIs(offset + want - 1, c.chunkBytes);
  }

  /** The first chunk starts at or below the request, the last holds its final byte. */
  lemma Spans(c: Cipher, offset: nat, want: nat)
    requires c.chunkBytes > 0 && want > 0
    ensures var first, last := FirstChunk(c, offset), LastChunk(c, offset, want);
            && first <= last
            && Times(first, c.chunkBytes) <= offset < Times(first, c.chunkBytes) + c.chunkBytes
            && Times(last, c.chunkBytes) < offset + want <= Times(last, c.chunkBytes) + c.chunkBytes
  {
    var first, last := FirstChunk(c, offset), LastChunk(c, offset, want);
    QuotientBounds(offset, c.chunkBytes);
    QuotientBounds(offset + want - 1, c.chunkBytes);
    if last < first {
      Scales(last + 1, first, c.chunkBytes);
      Next(last, c.chunkBytes);
    }
  }

  lemma {:induction false} StrideSplits(c: Cipher, k: nat)
    ensures Times(k, Stride(c)) == Times(k, c.chunkBytes) + Times(k, c.overhead)
    decreases k
  {
    if k > 0 {
      StrideSplits(c, k - 1);
    }
  }

  /** One fetch of the chunks from `first` to `last`, all opened, and the request cut out of them. */
  function ReadChunks(c: Cipher, stored: Bytes, logical: nat, offset: nat, want: nat, first: nat, last: nat): Read
    requires first <= last && Times(first, c.chunkBytes) <= offset
  {
    Scales(first, last, Stride(c));
    var begin, end := Times(first, Stride(c)), PhysicalEnd(c, last, logical);
    var fetched := Ranged(stored, begin, end - begin);
    if |fetched| != end - begin then Corrupt
    else
      var plain := OpenRun(c, fetched, first, last + 1, logical);
      if plain.None? then Unopened else Data(Cut(plain.value, offset - Times(first, c.chunkBytes), want))
  }

  /** What a read of a claimed length answers from any stored bytes. */
  function ReadFrom(c: Cipher, stored: Bytes, logical: nat, offset: nat, len: Option<nat>): Read
    requires c.chunkBytes > 0
  {
    var want := Wanted(logical, offset, len);
    if want == 0 then Data([])
    else
      Spans(c, offset, want);
      ReadChunks(c, stored, logical, offset, want, FirstChunk(c, offset), LastChunk(c, offset, want))
  }

  /** The last chunk a request can reach exists. */
  lemma LastExists(c: Cipher, logical: nat, offset: nat, len: Option<nat>)
    requires c.chunkBytes > 0 && Wanted(logical, offset, len) > 0
    ensures var last := LastChunk(c, offset, Wanted(logical, offset, len));
            Times(last, c.chunkBytes) < logical && last < ChunkCount(logical, c.chunkBytes)
  {
    var want := Wanted(logical, offset, len);
    Spans(c, offset, want);
    WithinCount(logical, c.chunkBytes, LastChunk(c, offset, want));
  }

  /** Chunk `j` lies within what was fetched from chunk `first` on. */
  predicate Within(c: Cipher, fetched: Bytes, first: nat, j: nat, logical: nat) {
    first <= j && Times(j - first, Stride(c)) + PlainBytes(j, logical, c.chunkBytes) + c.overhead <= |fetched|
  }

  /** What the chunks of a run open to, together, is as long as they are. */
  lemma {:induction false} RunLength(c: Cipher, fetched: Bytes, first: nat, k: nat, logical: nat)
    requires c.chunkBytes > 0 && Sized(c) && first <= k <= ChunkCount(logical, c.chunkBytes)
    requires Times(first, c.chunkBytes) <= logical
    requires forall j: nat :: first <= j < k ==> Within(c, fetched, first, j, logical)
    ensures var r := OpenRun(c, fetched, first, k, logical);
            r.Some? ==> |r.value| + Times(first, c.chunkBytes) == Min(Times(k, c.chunkBytes), logical)
    decreases k
  {
    if k > first {
      var j := k - 1;
      RunLength(c, fetched, first, j, logical);
      WithinCount(logical, c.chunkBytes, j);
      OneMore(logical, c.chunkBytes, j);
      assert Within(c, fetched, first, j, logical);
      OpenedLength(c, fetched, j - first, j, logical);
    }
  }

  lemma OpenedLength(c: Cipher, fetched: Bytes, n: nat, k: nat, logical: nat)
    requires Sized(c) && Times(n, Stride(c)) + PlainBytes(k, logical, c.chunkBytes) + c.overhead <= |fetched|
    ensures var piece := OpenOne(c, fetched, n, k, logical);
            piece.Some? ==> |piece.value| == PlainBytes(k, logical, c.chunkBytes)
  {
  }

  lemma {:induction false} Minus(j: nat, first: nat, c: nat)
    requires first <= j
    ensures Times(j, c) == Times(first, c) + Times(j - first, c)
    decreases j
  {
    if first < j {
      Minus(j - 1, first, c);
    }
  }

  /** The chunks of one request all lie within what was fetched for it. */
  lemma RunFits(c: Cipher, first: nat, last: nat, j: nat, logical: nat)
    requires c.chunkBytes > 0 && first <= j <= last && Times(last, c.chunkBytes) < logical
    ensures Times(j - first, Stride(c)) + PlainBytes(j, logical, c.chunkBytes) + c.overhead
         <= PhysicalEnd(c, last, logical) - Times(first, Stride(c))
  {
    Minus(j, first, Stride(c));
    if j < last {
      Scales(j + 1, last, Stride(c));
      Next(j, Stride(c));
    }
  }

  /** What is opened reaches to the end of the request. */
  lemma EnoughOpened(c: Cipher, fetched: Bytes, first: nat, last: nat, logical: nat, offset: nat, want: nat)
    requires c.chunkBytes > 0 && Sized(c) && first <= last && Times(last, c.chunkBytes) < logical
    requires Times(first, Stride(c)) <= PhysicalEnd(c, last, logical)
    requires |fetched| == PhysicalEnd(c, last, logical) - Times(first, Stride(c))
    requires Times(first, c.chunkBytes) <= offset && offset + want <= logical
    requires offset + want <= Times(last, c.chunkBytes) + c.chunkBytes
    ensures var r := OpenRun(c, fetched, first, last + 1, logical);
            r.Some? ==> offset - Times(first, c.chunkBytes) + want <= |r.value|
  {
    WithinCount(logical, c.chunkBytes, last);
    Scales(first, last, c.chunkBytes);
    forall j: nat | first <= j < last + 1
      ensures Within(c, fetched, first, j, logical)
    {
      RunFits(c, first, last, j, logical);
    }
    RunLength(c, fetched, first, last + 1, logical);
    Next(last, c.chunkBytes);
  }

  /** The opening loop. */
  method OpenChunks(c: Cipher, fetched: Bytes, first: nat, last: nat, logical: nat) returns (plain: Option<Bytes>)
    requires first <= last
    ensures plain == OpenRun(c, fetched, first, last + 1, logical)
  {
    var joined: Bytes := [];
    for k := first to last + 1
      invariant OpenRun(c, fetched, first, k, logical) == Some(joined)
    {
      var piece := OpenOne(c, fetched, k - first, k, logical);
      if piece.None? {
        RefusalStands(c, fetched, first, k + 1, last + 1, logical);
        return None;
      }
      joined := joined + piece.value;
    }
    return Some(joined);
  }

  /** `read`: one fetch covering the chunks the request meets, each opened in turn, then the slice. */
  method ReadObject(c: Cipher, stored: Bytes, logical: nat, offset: nat, len: Option<nat>) returns (r: Read)
    requires c.chunkBytes > 0 && Sized(c)
    ensures r == ReadFrom(c, stored, logical, offset, len)
    ensures r.Data? && offset >= logical ==> r.bytes == []
    ensures r.Data? && offset < logical && len.None? ==> offset + |r.bytes| == logical
    ensures r.Data? && offset < logical && len.Some? ==> offset + |r.bytes| == Min(offset + len.value, logical)
    ensures offset >= logical || len == Some(0) ==> r.Data?
  {
    var want := Wanted(logical, offset, len);
    if want == 0 {
      return Data([]);
    }
    Spans(c, offset, want);
    LastExists(c, logical, offset, len);
    r := ReadRun(c, stored, logical, offset, want, FirstChunk(c, offset), LastChunk(c, offset, want));
  }

  method ReadRun(c: Cipher, stored: Bytes, logical: nat, offset: nat, want: nat, first: nat, last: nat)
    returns (r: Read)
    requires c.chunkBytes > 0 && Sized(c) && first <= last && Times(last, c.chunkBytes) < logical
    requires Times(first, c.chunkBytes) <= offset && offset + want <= logical
    requires offset + want <= Times(last, c.chunkBytes) + c.chunkBytes
    ensures r == ReadChunks(c, stored, logical, offset, want, first, last)
    ensures r.Data? ==> |r.bytes| == want
  {
    Scales(first, last, Stride(c));
    var begin, end := Times(first, Stride(c)), PhysicalEnd(c, last, logical);
    var fetched := Ranged(stored, begin, end - begin);
    if |fetched| != end - begin {
      return Corrupt;
    }
    var plain := OpenChunks(c, fetched, first, last, logical);
    if plain.None? {
      return Unopened;
    }
    EnoughOpened(c, fetched, first, last, logical, offset, want);
    return Data(Cut(plain.value, offset - Times(first, c.chunkBytes), want));
  }

  lemma {:induction false} RefusalStands(c: Cipher, fetched: Bytes, first: nat, j: nat, k: nat, logical: nat)
    requires first <= j <= k && OpenRun(c, fetched, first, j, logical).None?
    ensures OpenRun(c, fetched, first, k, logical).None?
    decreases k
  {
    if j < k {
      RefusalStands(c, fetched, first, j, k - 1, logical);
    }
  }

  // ---------- what a read of a sealed object returns ----------

  /** What the read path fetches for chunks `first` to `last` of a sealed object. */
  function FetchedFor(c: Cipher, plain: Bytes, first: nat, last: nat): Bytes
    requires c.chunkBytes > 0 && Times(first, Stride(c)) <= PhysicalEnd(c, last, |plain|)
  {
    Ranged(Sealed(c, plain), Times(first, Stride(c)), PhysicalEnd(c, last, |plain|) - Times(first, Stride(c)))
  }

  lemma FetchIsWhole(c: Cipher, plain: Bytes, first: nat, last: nat)
    requires Pads(c) && first <= last < ChunkCount(|plain|, c.chunkBytes)
    ensures Times(first, Stride(c)) <= Times(last, Stride(c)) <= PhysicalEnd(c, last, |plain|) <= |Sealed(c, plain)|
    ensures FetchedFor(c, plain, first, last) ==
            Sealed(c, plain)[Times(first, Stride(c))..PhysicalEnd(c, last, |plain|)]
  {
    Scales(first, last, Stride(c));
    StrideSplits(c, last);
    ChunkLiesAt(c, plain, last);
  }

  /** Each chunk is found where the arithmetic says. */
  lemma CutIsChunk(c: Cipher, plain: Bytes, first: nat, last: nat, j: nat)
    requires Pads(c) && first <= j <= last < ChunkCount(|plain|, c.chunkBytes)
    requires Times(first, Stride(c)) <= PhysicalEnd(c, last, |plain|)
    ensures Times(j, c.chunkBytes) <= |plain|
    ensures Cut(FetchedFor(c, plain, first, last), Times(j - first, Stride(c)),
                PlainBytes(j, |plain|, c.chunkBytes) + c.overhead)
         == SealedChunk(c, plain, j)
  {
    FetchIsWhole(c, plain, first, last);
    ChunkLiesAt(c, plain, j);
    StrideSplits(c, j);
    WithinCount(|plain|, c.chunkBytes, last);
    RunFits(c, first, last, j, |plain|);
    Minus(j, first, Stride(c));
    var length := PlainBytes(j, |plain|, c.chunkBytes) + c.overhead;
    SliceOfSlice(Sealed(c, plain), Times(first, Stride(c)), PhysicalEnd(c, last, |plain|),
      Times(j - first, Stride(c)), length);
  }

  ghost predicate ChunkReopens(c: Cipher, plain: Bytes, j: nat)
    requires c.chunkBytes > 0
  {
    Times(j, c.chunkBytes) < |plain| ==>
      c.open(j, SealedChunk(c, plain, j), ChunkAad(c.id, j, |plain|)) == Some(Piece(plain, j, c.chunkBytes))
  }

  /** The cipher opens each chunk it sealed of this object to what was in it. */
  ghost predicate OpensItsChunks(c: Cipher, plain: Bytes) {
    Pads(c) && forall j: nat :: ChunkReopens(c, plain, j)
  }

  /** And opens to its piece of the plaintext. */
  lemma ChunkOpens(c: Cipher, plain: Bytes, first: nat, last: nat, j: nat)
    requires OpensItsChunks(c, plain) && first <= j <= last < ChunkCount(|plain|, c.chunkBytes)
    requires Times(first, Stride(c)) <= PhysicalEnd(c, last, |plain|)
    ensures Times(j, c.chunkBytes) <= |plain|
    ensures OpenOne(c, FetchedFor(c, plain, first, last), j - first, j, |plain|) == Some(Piece(plain, j, c.chunkBytes))
  {
    WithinCount(|plain|, c.chunkBytes, j);
    assert ChunkReopens(c, plain, j);
    CutIsChunk(c, plain, first, last, j);
  }

  lemma PiecesJoin(plain: Bytes, a: nat, j: nat, chunk: nat)
    requires a <= Times(j, chunk) < |plain|
    ensures var d := Min(Times(j + 1, chunk), |plain|);
            a <= d <= |plain| && plain[a..Min(Times(j, chunk), |plain|)] + Piece(plain, j, chunk) == plain[a..d]
  {
    OneMore(|plain|, chunk, j);
    var b, d := Times(j, chunk), Min(Times(j + 1, chunk), |plain|);
    assert Piece(plain, j, chunk) == plain[b..d];
    assert plain[a..b] + plain[b..d] == plain[a..d];
  }

  /** The chunks from `first` up to `k` open, and join to that part of the plaintext. */
  predicate Joins(c: Cipher, plain: Bytes, fetched: Bytes, first: nat, k: nat, logical: nat)
    requires first <= k
  {
    && Times(first, c.chunkBytes) <= Min(Times(k, c.chunkBytes), |plain|)
    && OpenRun(c, fetched, first, k, logical)
       == Some(plain[Times(first, c.chunkBytes)..Min(Times(k, c.chunkBytes), |plain|)])
  }

  lemma OneMoreOpened(c: Cipher, plain: Bytes, fetched: Bytes, first: nat, j: nat, logical: nat)
    requires first <= j && Times(first, c.chunkBytes) <= Times(j, c.chunkBytes) < |plain|
    requires Joins(c, plain, fetched, first, j, logical)
    requires OpenOne(c, fetched, j - first, j, logical) == Some(Piece(plain, j, c.chunkBytes))
    ensures Joins(c, plain, fetched, first, j + 1, logical)
  {
    PiecesJoin(plain, Times(first, c.chunkBytes), j, c.chunkBytes);
  }

  lemma {:induction false} RunIsPlain(c: Cipher, plain: Bytes, first: nat, last: nat, k: nat)
    requires OpensItsChunks(c, plain) && first <= k <= last + 1 && first <= last < ChunkCount(|plain|, c.chunkBytes)
    requires Times(first, Stride(c)) <= PhysicalEnd(c, last, |plain|)
    ensures Joins(c, plain, FetchedFor(c, plain, first, last), first, k, |plain|)
    decreases k
  {
    WithinCount(|plain|, c.chunkBytes, first);
    Scales(first, k, c.chunkBytes);
    if k > first {
      var j := k - 1;
      RunIsPlain(c, plain, first, last, j);
      ChunkOpens(c, plain, first, last, j);
      WithinCount(|plain|, c.chunkBytes, j);
      Scales(first, j, c.chunkBytes);
      OneMoreOpened(c, plain, FetchedFor(c, plain, first, last), first, j, |plain|);
    } else {
      assert plain[Times(first, c.chunkBytes)..Times(first, c.chunkBytes)] == [];
    }
  }

  lemma CutOut(plain: Bytes, r: Option<Bytes>, a: nat, d: nat, offset: nat, want: nat)
    requires a <= offset && offset + want <= d <= |plain| && r == Some(plain[a..d])
    ensures Cut(r.value, offset - a, want) == plain[offset..offset + want]
  {
    SliceOfSlice(plain, a, d, offset - a, want);
  }

  /** The slice the read path cuts out of what it opened. */
  lemma CutIsSlice(c: Cipher, plain: Bytes, first: nat, last: nat, offset: nat, want: nat)
    requires OpensItsChunks(c, plain) && first <= last < ChunkCount(|plain|, c.chunkBytes)
    requires Times(first, Stride(c)) <= PhysicalEnd(c, last, |plain|)
    requires Times(first, c.chunkBytes) <= offset && offset + want <= |plain|
    requires offset + want <= Times(last, c.chunkBytes) + c.chunkBytes
    ensures var r := OpenRun(c, FetchedFor(c, plain, first, last), first, last + 1, |plain|);
            r.Some? && Cut(r.value, offset - Times(first, c.chunkBytes), want) == plain[offset..offset + want]
  {
    RunIsPlain(c, plain, first, last, last + 1);
    Next(last, c.chunkBytes);
    CutOut(plain, OpenRun(c, FetchedFor(c, plain, first, last), first, last + 1, |plain|),
           Times(first, c.chunkBytes), Min(Times(last + 1, c.chunkBytes), |plain|), offset, want);
  }

  lemma ChunksReadBack(c: Cipher, plain: Bytes, offset: nat, want: nat, first: nat, last: nat)
    requires OpensItsChunks(c, plain) && first <= last < ChunkCount(|plain|, c.chunkBytes)
    requires Times(first, c.chunkBytes) <= offset && offset + want <= |plain|
    requires offset + want <= Times(last, c.chunkBytes) + c.chunkBytes
    ensures ReadChunks(c, Sealed(c, plain), |plain|, offset, want, first, last) == Data(plain[offset..offset + want])
  {
    FetchIsWhole(c, plain, first, last);
    CutIsSlice(c, plain, first, last, offset, want);
  }

  /**
   For every cipher that opens what it seals, every object, offset and length: a read of the sealed object is
   exactly the matching slice of the plaintext, short at its end and empty past it.
   */
  lemma ReadsBackTheSlice(c: Cipher, plain: Bytes, offset: nat, len: Option<nat>)
    requires OpensItsChunks(c, plain)
    ensures offset >= |plain| ==> ReadFrom(c, Sealed(c, plain), |plain|, offset, len) == Data([])
    ensures offset < |plain| && len.None? ==>
              ReadFrom(c, Sealed(c, plain), |plain|, offset, len) == Data(plain[offset..])
    ensures offset < |plain| && len.Some? ==>
              ReadFrom(c, Sealed(c, plain), |plain|, offset, len)
              == Data(plain[offset..Min(offset + len.value, |plain|)])
  {
    var want := Wanted(|plain|, offset, len);
    if want > 0 {
      Spans(c, offset, want);
      LastExists(c, |plain|, offset, len);
      ChunksReadBack(c, plain, offset, want, FirstChunk(c, offset), LastChunk(c, offset, want));
    }
  }

  // ---------- what a successful read proves ----------

  /** Chunk `j` of the object sealed as `id`, under the associated data it was sealed with. */
  ghost predicate WasSealed(c: Cipher, history: map<nat, Bytes>, id: nat, j: nat, sealed: Bytes, aad: Bytes)
    requires c.chunkBytes > 0
  {
    && id in history && j < ChunkCount(|history[id]|, c.chunkBytes)
    && aad == ChunkAad(id, j, |history[id]|)
    && (WithinCount(|history[id]|, c.chunkBytes, j); sealed == c.seal(j, Piece(history[id], j, c.chunkBytes), aad))
  }

  /**
   An ideal cipher, after everything in `history` was sealed with it and nothing else: it opens what was sealed
   to what was in it, and of all the bytes there are it opens nothing else and under no other associated data.
   */
  ghost predicate Ideal(c: Cipher, history: map<nat, Bytes>) {
    && Pads(c) && Sized(c)
    && (forall id: nat, j: nat, sealed: Bytes, aad: Bytes :: WasSealed(c, history, id, j, sealed, aad) ==>
          Reopens(c, history, id, j, sealed, aad))
    && (forall k: nat, sealed: Bytes, aad: Bytes :: c.open(k, sealed, aad).Some? ==>
          exists id: nat, j: nat :: WasSealed(c, history, id, j, sealed, aad))
  }

  ghost predicate Reopens(c: Cipher, history: map<nat, Bytes>, id: nat, j: nat, sealed: Bytes, aad: Bytes)
    requires c.chunkBytes > 0 && WasSealed(c, history, id, j, sealed, aad)
  {
    WithinCount(|history[id]|, c.chunkBytes, j);
    c.open(j, sealed, aad) == Some(Piece(history[id], j, c.chunkBytes))
  }

  /** Identifiers, positions and lengths are 64-bit. */
  ghost predicate InWords(c: Cipher, history: map<nat, Bytes>, claimed: nat) {
    && c.id < WORDS && claimed < WORDS && forall id :: id in history ==> id < WORDS && |history[id]| < WORDS
  }

  lemma CountInWords(logical: nat, chunk: nat, k: nat)
    requires chunk > 0 && logical < WORDS && Times(k, chunk) < logical
    ensures k < WORDS
  {
    AtLeast(k, chunk);
  }

  lemma {:induction false} AtLeast(k: nat, chunk: nat)
    requires chunk > 0
    ensures k <= Times(k, chunk)
  {
    if k > 0 {
      AtLeast(k - 1, chunk);
    }
  }

  /** Opening a chunk under a claimed length proves which chunk it is, of which object, and at zero how long. */
  lemma OpenedIsOwn(c: Cipher, history: map<nat, Bytes>, sealed: Bytes, k: nat, claimed: nat)
    requires Ideal(c, history) && InWords(c, history, claimed) && k < WORDS
    requires c.open(k, sealed, ChunkAad(c.id, k, claimed)).Some?
    ensures c.id in history && Times(k, c.chunkBytes) < |history[c.id]| && (k == 0 ==> claimed == |history[c.id]|)
    ensures c.open(k, sealed, ChunkAad(c.id, k, claimed)) == Some(Piece(history[c.id], k, c.chunkBytes))
  {
    var aad := ChunkAad(c.id, k, claimed);
    var id: nat, j: nat :| WasSealed(c, history, id, j, sealed, aad);
    WithinCount(|history[id]|, c.chunkBytes, j);
    CountInWords(|history[id]|, c.chunkBytes, j);
    EncodingIsInjective(c.id, k, claimed, id, j, |history[id]|);
    assert Reopens(c, history, id, j, sealed, aad);
  }

  /** Chunk `j`, found `n` strides into whatever was fetched. */
  lemma OneIsOwn(c: Cipher, history: map<nat, Bytes>, fetched: Bytes, n: nat, j: nat, claimed: nat)
    requires Ideal(c, history) && InWords(c, history, claimed) && Times(j, c.chunkBytes) < claimed
    requires OpenOne(c, fetched, n, j, claimed).Some?
    ensures c.id in history && Times(j, c.chunkBytes) < |history[c.id]| && (j == 0 ==> claimed == |history[c.id]|)
    ensures OpenOne(c, fetched, n, j, claimed) == Some(Piece(history[c.id], j, c.chunkBytes))
  {
    CountInWords(claimed, c.chunkBytes, j);
    var sealed := Cut(fetched, Times(n, Stride(c)), PlainBytes(j, claimed, c.chunkBytes) + c.overhead);
    OpenedIsOwn(c, history, sealed, j, claimed);
  }

  /** A run that opens opens every chunk of it. */
  lemma {:induction false} RunOpensEach(c: Cipher, fetched: Bytes, first: nat, k: nat, j: nat, logical: nat)
    requires first <= j < k && OpenRun(c, fetched, first, k, logical).Some?
    ensures OpenOne(c, fetched, j - first, j, logical).Some?
    decreases k
  {
    if j < k - 1 {
      RunOpensEach(c, fetched, first, k - 1, j, logical);
    }
  }

  predicate OpensOwn(c: Cipher, plain: Bytes, fetched: Bytes, first: nat, j: nat, logical: nat)
    requires first <= j
  {
    Times(j, c.chunkBytes) < |plain|
    && OpenOne(c, fetched, j - first, j, logical) == Some(Piece(plain, j, c.chunkBytes))
  }

  /** Chunks that open to the object's own pieces join to its bytes. */
  lemma {:induction false} RunIsOwn(c: Cipher, plain: Bytes, fetched: Bytes, first: nat, k: nat, logical: nat)
    requires first <= k && Times(first, c.chunkBytes) <= |plain|
    requires forall j: nat :: first <= j < k ==> OpensOwn(c, plain, fetched, first, j, logical)
    ensures Joins(c, plain, fetched, first, k, logical)
    decreases k
  {
    Scales(first, k, c.chunkBytes);
    if first < k {
      var j := k - 1;
      assert OpensOwn(c, plain, fetched, first, j, logical);
      RunIsOwn(c, plain, fetched, first, j, logical);
      Scales(first, j, c.chunkBytes);
      OneMoreOpened(c, plain, fetched, first, j, logical);
    } else {
      assert plain[Times(first, c.chunkBytes)..Times(first, c.chunkBytes)] == [];
    }
  }

  lemma EachIsOwn(c: Cipher, history: map<nat, Bytes>, fetched: Bytes, first: nat, last: nat, j: nat, claimed: nat)
    requires Ideal(c, history) && InWords(c, history, claimed)
    requires first <= j <= last && Times(last, c.chunkBytes) < claimed
    requires OpenRun(c, fetched, first, last + 1, claimed).Some?
    ensures c.id in history && (j == 0 ==> claimed == |history[c.id]|)
    ensures OpensOwn(c, history[c.id], fetched, first, j, claimed)
  {
    Scales(j, last, c.chunkBytes);
    RunOpensEach(c, fetched, first, last + 1, j, claimed);
    OneIsOwn(c, history, fetched, j - first, j, claimed);
  }

  lemma AllAreOwn(c: Cipher, history: map<nat, Bytes>, fetched: Bytes, first: nat, last: nat, claimed: nat)
    requires Ideal(c, history) && InWords(c, history, claimed) && c.id in history
    requires first <= last && Times(last, c.chunkBytes) < claimed && OpenRun(c, fetched, first, last + 1, claimed).Some?
    ensures forall j: nat :: first <= j < last + 1 ==> OpensOwn(c, history[c.id], fetched, first, j, claimed)
  {
    forall j: nat | first <= j < last + 1
      ensures OpensOwn(c, history[c.id], fetched, first, j, claimed)
    {
      EachIsOwn(c, history, fetched, first, last, j, claimed);
    }
  }

  /** Whatever was fetched: if it opens, it is the object's own bytes, in order. */
  lemma OpenedRunIsOwn(c: Cipher, history: map<nat, Bytes>, fetched: Bytes, first: nat, last: nat, claimed: nat)
    requires Ideal(c, history) && InWords(c, history, claimed)
    requires first <= last && Times(last, c.chunkBytes) < claimed && OpenRun(c, fetched, first, last + 1, claimed).Some?
    ensures c.id in history && (first == 0 ==> claimed == |history[c.id]|)
    ensures Joins(c, history[c.id], fetched, first, last + 1, claimed)
  {
    EachIsOwn(c, history, fetched, first, last, first, claimed);
    AllAreOwn(c, history, fetched, first, last, claimed);
    RunIsOwn(c, history[c.id], fetched, first, last + 1, claimed);
  }

  lemma ChunksAreOwn(c: Cipher, history: map<nat, Bytes>, stored: Bytes, claimed: nat, offset: nat, want: nat,
      first: nat, last: nat)
    requires Ideal(c, history) && InWords(c, history, claimed) && first <= last && Times(last, c.chunkBytes) < claimed
    requires Times(first, c.chunkBytes) <= offset && offset + want <= claimed
    requires offset + want <= Times(last, c.chunkBytes) + c.chunkBytes
    requires ReadChunks(c, stored, claimed, offset, want, first, last).Data?
    ensures c.id in history && (first == 0 ==> claimed == |history[c.id]|) && offset + want <= |history[c.id]|
    ensures ReadChunks(c, stored, claimed, offset, want, first, last) == Data(history[c.id][offset..offset + want])
  {
    Scales(first, last, Stride(c));
    var fetched := Ranged(stored, Times(first, Stride(c)), PhysicalEnd(c, last, claimed) - Times(first, Stride(c)));
    OpenedRunIsOwn(c, history, fetched, first, last, claimed);
    EnoughOpened(c, fetched, first, last, claimed, offset, want);
    CutOut(history[c.id], OpenRun(c, fetched, first, last + 1, claimed), Times(first, c.chunkBytes),
           Min(Times(last + 1, c.chunkBytes), |history[c.id]|), offset, want);
  }

  /**
   Whatever bytes are stored and whatever length is claimed: a read that returns anything returns that part of
   the object sealed under this name, and one that starts in chunk zero proves that the claim is its length.
   */
  lemma ReadProvesTheObject(c: Cipher, history: map<nat, Bytes>, stored: Bytes, claimed: nat, offset: nat,
      len: Option<nat>)
    requires Ideal(c, history) && InWords(c, history, claimed)
    requires offset < claimed && len != Some(0) && ReadFrom(c, stored, claimed, offset, len).Data?
    ensures c.id in history && offset < |history[c.id]|
    ensures len.None? ==>
              && claimed <= |history[c.id]|
              && ReadFrom(c, stored, claimed, offset, len) == Data(history[c.id][offset..claimed])
    ensures len.Some? ==>
              && Min(offset + len.value, claimed) <= |history[c.id]|
              && ReadFrom(c, stored, claimed, offset, len)
                 == Data(history[c.id][offset..Min(offset + len.value, claimed)])
    ensures offset < c.chunkBytes ==> claimed == |history[c.id]|
  {
    var want := Wanted(claimed, offset, len);
    Spans(c, offset, want);
    LastExists(c, claimed, offset, len);
    ChunksAreOwn(c, history, stored, claimed, offset, want, FirstChunk(c, offset), LastChunk(c, offset, want));
  }

  // ---------- such ciphers exist ----------

  /** The bytes as they are and a fixed filler, opened only if they were sealed. */
  ghost function Recording(history: map<nat, Bytes>, id: nat, chunk: nat, overhead: nat): Cipher {
    var seal := (k: nat, p: Bytes, aad: Bytes) => p + Filler(overhead);
    var never := (k: nat, sealed: Bytes, aad: Bytes) => None;
    var blank := Cipher(id, chunk, overhead, seal, never);
    blank.(open := (k: nat, sealed: Bytes, aad: Bytes) =>
      if overhead <= |sealed| && chunk > 0 && exists i: nat, j: nat :: WasSealed(blank, history, i, j, sealed, aad)
      then Some(sealed[..|sealed| - overhead]) else None)
  }

  function Filler(n: nat): Bytes {
    seq(n, _ => 0)
  }

  /** Whatever was sealed, there is an ideal cipher for it, of any chunk size and overhead. */
  lemma RecordingIsIdeal(history: map<nat, Bytes>, id: nat, chunk: nat, overhead: nat)
    requires chunk > 0
    ensures Ideal(Recording(history, id, chunk, overhead), history)
  {
    var c := Recording(history, id, chunk, overhead);
    var blank := c.(open := (k: nat, sealed: Bytes, aad: Bytes) => None);
    forall i: nat, j: nat, sealed: Bytes, aad: Bytes | WasSealed(c, history, i, j, sealed, aad)
      ensures Reopens(c, history, i, j, sealed, aad)
    {
      WithinCount(|history[i]|, chunk, j);
      assert WasSealed(blank, history, i, j, sealed, aad);
    }
    forall k: nat, sealed: Bytes, aad: Bytes | c.open(k, sealed, aad).Some?
      ensures exists i: nat, j: nat :: WasSealed(c, history, i, j, sealed, aad)
    {
      var i: nat, j: nat :| WasSealed(blank, history, i, j, sealed, aad);
      assert WasSealed(c, history, i, j, sealed, aad);
    }
  }

  /** An ideal cipher opens the chunks of every object in its history. */
  lemma IdealOpensItsChunks(c: Cipher, history: map<nat, Bytes>)
    requires Ideal(c, history) && c.id in history
    ensures OpensItsChunks(c, history[c.id])
  {
    var plain := history[c.id];
    forall j: nat
      ensures ChunkReopens(c, plain, j)
    {
      if Times(j, c.chunkBytes) < |plain| {
        WithinCount(|plain|, c.chunkBytes, j);
        assert WasSealed(c, history, c.id, j, SealedChunk(c, plain, j), ChunkAad(c.id, j, |plain|));
      }
    }
  }

  /** Under one, the true object read under its true length is always returned. */
  lemma IdealReadsBack(c: Cipher, history: map<nat, Bytes>, offset: nat, len: Option<nat>)
    requires Ideal(c, history) && c.id in history
    ensures ReadFrom(c, Sealed(c, history[c.id]), |history[c.id]|, offset, len).Data?
  {
    IdealOpensItsChunks(c, history);
    ReadsBackTheSlice(c, history[c.id], offset, len);
  }
  /** So for every history of 64-bit objects all that `ReadProvesTheObject` asks can be had at once. */
  lemma RecordingReads(history: map<nat, Bytes>, id: nat, chunk: nat, overhead: nat, offset: nat, len: Option<nat>)
    requires chunk > 0 && id in history && forall i :: i in history ==> i < WORDS && |history[i]| < WORDS
    ensures var c := Recording(history, id, chunk, overhead);
            && Ideal(c, history) && InWords(c, history, |history[id]|)
            && ReadFrom(c, Sealed(c, history[id]), |history[id]|, offset, len).Data?
  {
    RecordingIsIdeal(history, id, chunk, overhead);
    IdealReadsBack(Recording(history, id, chunk, overhead), history, offset, len);
  }
}

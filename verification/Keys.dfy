module Keys {
  /**
   Keys and their one comparator.

   The engine orders keys bytewise and never looks inside them. `Rank` embeds that order in the
   non-negative reals, and the rest of the model identifies a key with its rank; the empty key is rank zero.
   A store of byte strings is one of the stores the model speaks of, and what is proved of every rank holds of
   every byte string. What a lemma asks of all keys, of a flush or of outputs say, the operations modelled here
   establish of all ranks.
   */

  type Byte = b: int | 0 <= b < 256

  type Bytes = seq<Byte>

  type Key = k: real | 0.0 <= k

  const EMPTY_KEY: Key := 0.0

  datatype Option<+T> = None | Some(value: T)

  /** The first alternative that answers. */
  function OrElse<T>(a: Option<T>, b: Option<T>): Option<T> {
    if a.Some? then a else b
  }

  function Max(a: nat, b: nat): nat {
    if a < b then b else a
  }

  function Min(a: nat, b: nat): nat {
    if a < b then a else b
  }

  /** Bytewise order: the first differing byte decides, then the length. */
  predicate Less(a: Bytes, b: Bytes) {
    b != [] && (a == [] || a[0] < b[0] || (a[0] == b[0] && Less(a[1..], b[1..])))
  }

  /** `memcmp` over the common prefix, then the sizes: negative, zero or positive. */
  method Compare(a: Bytes, b: Bytes) returns (c: int)
    ensures c < 0 <==> Less(a, b)
    ensures c == 0 <==> a == b
    ensures c > 0 <==> Less(b, a)
  {
    var i := 0;
    while i < |a| && i < |b| && a[i] == b[i]
      invariant 0 <= i <= |a| && i <= |b|
      invariant a[..i] == b[..i]
      invariant Less(a, b) == Less(a[i..], b[i..])
      invariant Less(b, a) == Less(b[i..], a[i..])
    {
      assert a[i..][1..] == a[i + 1..] && b[i..][1..] == b[i + 1..];
      i := i + 1;
    }
    if i < |a| && i < |b| {
      c := a[i] as int - b[i] as int;
    } else {
      c := |a| - |b|;
      assert a[..i] + a[i..] == a && b[..i] + b[i..] == b;
    }
  }

  /** A base-257 fraction whose digits are the bytes plus one, so that ending sorts below any byte. */
  function Rank(s: Bytes): (r: real)
    ensures 0.0 <= r < 1.0
  {
    if s == [] then 0.0 else ((s[0] as int + 1) as real + Rank(s[1..])) / 257.0
  }

  lemma {:induction false} RankOrders(a: Bytes, b: Bytes)
    requires Less(a, b)
    ensures Rank(a) < Rank(b)
  {
    if a != [] && a[0] == b[0] {
      RankOrders(a[1..], b[1..]);
    }
  }

  lemma {:induction false} LessIsTotal(a: Bytes, b: Bytes)
    ensures Less(a, b) || a == b || Less(b, a)
  {
    if a != [] && b != [] && a[0] == b[0] {
      LessIsTotal(a[1..], b[1..]);
      assert a == [a[0]] + a[1..] && b == [b[0]] + b[1..];
    }
  }

  /** The comparator and the order of ranks are one order, and distinct keys have distinct ranks. */
  lemma RankEmbeds(a: Bytes, b: Bytes)
    ensures Less(a, b) <==> Rank(a) < Rank(b)
    ensures a == b <==> Rank(a) == Rank(b)
    ensures Rank([]) == EMPTY_KEY
  {
    LessIsTotal(a, b);
    if Less(a, b) {
      RankOrders(a, b);
    } else if Less(b, a) {
      RankOrders(b, a);
    }
  }

  /** The rank of a one-byte key, for concrete examples. */
  function Letter(b: Byte): (k: Key)
    ensures k == Rank([b])
  {
    assert [b][1..] == [];
    (b as int + 1) as real / 257.0
  }

  lemma SliceOfSlice(whole: Bytes, a: nat, b: nat, skip: nat, n: nat)
    requires a <= b <= |whole| && skip + n <= b - a
    ensures whole[a..b][skip..skip + n] == whole[a + skip..a + skip + n]
  {
    var x, y := whole[a..b][skip..skip + n], whole[a + skip..a + skip + n];
    forall i | 0 <= i < n
      ensures x[i] == y[i]
    {
    }
    assert x == y;
  }

  lemma WithoutAt<T>(items: seq<T>, i: nat, j: nat)
    requires i < |items| && j < |items| - 1
    ensures (items[..i] + items[i + 1..])[j] == items[if j < i then j else j + 1]
  {
  }

  predicate AllDistinct<T(==)>(items: seq<T>) {
    forall i, j :: 0 <= i < j < |items| ==> items[i] != items[j]
  }

  lemma DistinctWith<T>(items: seq<T>, item: T)
    requires AllDistinct(items) && item !in items
    ensures AllDistinct(items + [item])
  {
  }

  lemma DistinctWithout<T>(items: seq<T>, i: nat)
    requires AllDistinct(items) && i < |items|
    ensures AllDistinct(items[..i] + items[i + 1..])
  {
  }
}

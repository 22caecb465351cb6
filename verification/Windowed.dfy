/**
 The prefetching window a compaction reads its inputs through: one large read serves many small ones, and
 the next window is fetched while this one is being used.

 The read that leaves a window starts inside it, so a prefetch that began at the window's end is joined to
 the tail already in hand. Whatever the sequence of reads, each answer is the store's own, and which requests
 reach the store below is said exactly.
 */
module Windowed {
  import opened Keys
  import opened RangeCache

  datatype Got = Data(bytes: Bytes) | Failed

  /** A request to the store below; no length reads to the end. */
  datatype Request = Request(name: nat, offset: nat, len: Option<nat>)

  /** `b` is what the object holds from `offset`, for as long as `b` is. */
  predicate SliceAt(whole: Bytes, offset: nat, b: Bytes) {
    b == Answer(whole, offset, Some(|b|))
  }

  /** The kept tail and a prefetch that began where the old window ended are one slice. */
  lemma Joined(whole: Bytes, at: nat, window: Bytes, offset: nat, fetched: Bytes, n: nat)
    requires SliceAt(whole, at, window) && at <= offset <= at + |window|
    requires fetched == Answer(whole, at + |window|, Some(n))
    ensures SliceAt(whole, offset, window[offset - at..] + fetched)
  {
    var skip, end := offset - at, at + |window|;
    if window != [] {
      assert window == whole[at..end];
      SliceOfSlice(whole, at, end, skip, |window| - skip);
      assert window[skip..] == whole[offset..end];
      if fetched != [] {
        assert fetched == whole[end..end + |fetched|];
        assert whole[offset..end] + whole[end..end + |fetched|] == whole[offset..end + |fetched|];
      }
    }
    assert window[skip..] + fetched == Answer(whole, offset, Some(|window[skip..] + fetched|));
  }

  /** Long enough for the request, or all there is from there on. */
  predicate Enough(whole: Bytes, offset: nat, b: Bytes, len: nat) {
    |b| >= len || offset + |b| >= |whole|
  }

  /** What a window that is enough gives the caller is what the store would. */
  lemma WindowServes(whole: Bytes, at: nat, window: Bytes, offset: nat, len: nat)
    requires SliceAt(whole, at, window) && at <= offset
    requires offset + len <= at + |window| || (offset == at && Enough(whole, at, window, len))
    ensures var start := offset - at;
            start <= |window| && window[start..start + Min(len, |window| - start)] == Answer(whole, offset, Some(len))
  {
    var start := offset - at;
    var take := Min(len, |window| - start);
    if window != [] {
      assert window == whole[at..at + |window|];
      SliceOfSlice(whole, at, at + |window|, start, take);
    }
  }

  class WindowedStore {
    const windowBytes: nat
    const objectBytes: nat
    var name: Option<nat>
    var windowOffset: nat
    var window: Bytes
    var sequential: bool
    var prefetch: Option<Got>
    var prefetchOffset: nat
    ghost var requests: seq<Request>

    /** The window and the prefetch hold the named object's own bytes. */
    predicate Valid(below: map<nat, Bytes>)
      reads this
    {
      && (name.None? ==> window == [] && prefetch.None?)
      && (name.Some? ==> name.value in below && SliceAt(below[name.value], windowOffset, window))
      && (prefetch.Some? && prefetch.value.Data? ==>
            && name.Some? && prefetchOffset == windowOffset + |window|
            && prefetch.value.bytes == Answer(below[name.value], prefetchOffset, Some(windowBytes)))
    }

    /** The request lies in the window. */
    predicate Holds(n: nat, offset: nat, len: nat)
      reads this
    {
      name == Some(n) && windowOffset <= offset && offset + len <= windowOffset + |window|
    }

    /** It starts in the window or at its end: the object is being walked forward. */
    predicate Forward(n: nat, offset: nat)
      reads this
    {
      name == Some(n) && windowOffset <= offset <= windowOffset + |window|
    }

    /** The tail of the window and what was fetched ahead are enough for it. */
    predicate Serves(n: nat, offset: nat, len: nat)
      reads this
    {
      && Forward(n, offset) && prefetch.Some? && prefetch.value.Data?
      && windowOffset + |window| - offset + |prefetch.value.bytes| >= len
    }

    /** The window after this one is worth fetching: a walk forward, a full window, and more of the object to come. */
    predicate Due()
      reads this
    {
      sequential && |window| >= windowBytes && (objectBytes == 0 || windowOffset + |window| < objectBytes)
    }

    constructor (windowBytes: nat, objectBytes: nat)
      ensures forall below :: Valid(below)
      ensures this.windowBytes == windowBytes && this.objectBytes == objectBytes
      ensures name == None && !sequential && prefetch == None && requests == []
    {
      this.windowBytes, this.objectBytes := windowBytes, objectBytes;
      name, windowOffset, window, sequential, prefetch, prefetchOffset := None, 0, [], false, None, 0;
      requests := [];
    }

    /** A request to the store below, which may fail at any time unless it is healthy. */
    method Fetch(n: nat, offset: nat, len: Option<nat>, below: map<nat, Bytes>, healthy: bool) returns (r: Got)
      modifies this`requests
      ensures r.Data? ==> n in below && r.bytes == Answer(below[n], offset, len)
      ensures healthy && n in below ==> r.Data?
      ensures requests == old(requests) + [Request(n, offset, len)]
    {
      requests := requests + [Request(n, offset, len)];
      var fails: bool := *;
      if n !in below || (fails && !healthy) {
        return Failed;
      }
      return Data(Answer(below[n], offset, len));
    }

    /** The prefetched bytes if they are the ones wanted; either way the prefetch is consumed. */
    method TakePrefetch(n: nat, at: nat, below: map<nat, Bytes>) returns (fetched: Option<Bytes>)
      requires Valid(below)
      modifies this`prefetch
      ensures Valid(below) && prefetch.None?
      ensures fetched.Some? ==> name == Some(n) && fetched.value == Answer(below[n], at, Some(windowBytes))
      ensures fetched == if name == Some(n) && old(prefetch).Some? && old(prefetch).value.Data? && at == prefetchOffset
                         then Some(old(prefetch).value.bytes) else None
    {
      fetched := None;
      if prefetch.Some? {
        if name == Some(n) && at == prefetchOffset && prefetch.value.Data? {
          fetched := Some(prefetch.value.bytes);
        }
        prefetch := None;
      }
    }

    /** Fetches the window after this one, once the object is being walked forward. */
    method StartPrefetch(below: map<nat, Bytes>)
      requires Valid(below) && prefetch.None? && name.Some?
      modifies this`prefetch, this`prefetchOffset, this`requests
      ensures Valid(below) && (prefetch.Some? <==> Due())
      ensures requests == old(requests) +
                if Due() then [Request(name.value, windowOffset + |window|, Some(windowBytes))] else []
    {
      if !sequential || |window| < windowBytes {
        return;
      }
      prefetchOffset := windowOffset + |window|;
      if objectBytes != 0 && prefetchOffset >= objectBytes {
        return;
      }
      var r := Fetch(name.value, prefetchOffset, Some(windowBytes), below, false);
      prefetch := Some(r);
    }

    /** Moves the window so that it covers the request, from the prefetch where that serves. */
    method Refill(n: nat, offset: nat, len: nat, below: map<nat, Bytes>, healthy: bool) returns (filled: bool)
      requires Valid(below)
      modifies this
      ensures Valid(below)
      ensures filled ==> name == Some(n) && windowOffset == offset && Enough(below[n], offset, window, len)
      ensures healthy && n in below ==> filled
      ensures filled ==> sequential == old(Forward(n, offset)) && (prefetch.Some? <==> Due())
      ensures filled && old(Serves(n, offset, len)) ==>
                window == old(window)[offset - old(windowOffset)..] + old(prefetch).value.bytes
      ensures old(Serves(n, offset, len)) ==> filled
      ensures requests == old(requests)
                + (if old(Serves(n, offset, len)) then [] else [Request(n, offset, Some(Max(windowBytes, len)))])
                + (if filled && Due() then [Request(n, offset + |window|, Some(windowBytes))] else [])
    {
      var forward := name == Some(n) && windowOffset <= offset <= windowOffset + |window|;
      var got := Obtain(n, offset, len, below, healthy);
      if got.Failed? {
        return false;
      }
      sequential, name, windowOffset, window := forward, Some(n), offset, got.bytes;
      StartPrefetch(below);
      return true;
    }

    /** The bytes of the new window: the tail of the old one and the prefetch, or a request of their own. */
    method Obtain(n: nat, offset: nat, len: nat, below: map<nat, Bytes>, healthy: bool) returns (got: Got)
      requires Valid(below)
      modifies this`prefetch, this`requests
      ensures Valid(below) && prefetch.None? && (healthy && n in below ==> got.Data?)
      ensures got.Data? ==>
                n in below && SliceAt(below[n], offset, got.bytes) && Enough(below[n], offset, got.bytes, len)
      ensures old(Serves(n, offset, len)) ==>
                && got == Data(window[offset - windowOffset..] + old(prefetch).value.bytes)
                && requests == old(requests)
      ensures !old(Serves(n, offset, len)) ==>
                requests == old(requests) + [Request(n, offset, Some(Max(windowBytes, len)))]
    {
      var want := Max(windowBytes, len);
      var currentEnd := windowOffset + |window|;
      var forward := name == Some(n) && windowOffset <= offset <= windowOffset + |window|;
      var fetched := TakePrefetch(n, currentEnd, below);
      if fetched.Some? && forward && currentEnd - offset + |fetched.value| >= len {
        Joined(below[n], windowOffset, window, offset, fetched.value, windowBytes);
        return Data(window[offset - windowOffset..] + fetched.value);
      }
      got := Fetch(n, offset, Some(want), below, healthy);
      if got.Data? {
        FetchedIsAnswer(below[n], offset, Some(want));
      }
    }

    /** For every sequence of reads, of any objects at any offsets, the answer is the store's. */
    method Read(n: nat, offset: nat, len: Option<nat>, below: map<nat, Bytes>, healthy: bool) returns (r: Got)
      requires Valid(below)
      modifies this
      ensures Valid(below)
      ensures r.Data? ==> n in below && r.bytes == Answer(below[n], offset, len)
      ensures healthy && n in below ==> r.Data?
      ensures len.None? ==> requests == old(requests) + [Request(n, offset, None)]
      ensures len.None? || old(Holds(n, offset, len.value)) ==>
                name == old(name) && windowOffset == old(windowOffset) && window == old(window)
      ensures len.Some? && old(Holds(n, offset, len.value)) ==> r.Data? && requests == old(requests)
      ensures len.Some? && !old(Holds(n, offset, len.value)) ==>
                requests == old(requests)
                  + (if old(Serves(n, offset, len.value)) then []
                     else [Request(n, offset, Some(Max(windowBytes, len.value)))])
                  + (if r.Data? && Due() then [Request(n, offset + |window|, Some(windowBytes))] else [])
    {
      if len.None? {
        r := Fetch(n, offset, None, below, healthy);
        return;
      }
      if name != Some(n) || offset < windowOffset || offset + len.value > windowOffset + |window| {
        var filled := Refill(n, offset, len.value, below, healthy);
        if !filled {
          return Failed;
        }
      }
      WindowServes(below[n], windowOffset, window, offset, len.value);
      var start := offset - windowOffset;
      return Data(window[start..start + Min(len.value, |window| - start)]);
    }
  }
}

module EditReplay {
  /**
   Replay over the table the edits were put in. Each sequence number has its own address and its own run of
   puts; the listing sees it at one moment and the fetch at a later one, while writers go on.

   What is fetched decides what replay makes of it: an unfinished set is damage, an acknowledged one is its own
   bytes or, with a stray beside it, damage. So no acknowledged edit is ever passed over.
   */

  import opened Keys
  import opened Chunks
  import E = Edits
  import R = Replay

  /** One address: everything that happens to it, when the listing saw it and when it was fetched. */
  datatype Track = Track(run: seq<E.Address>, listedAt: nat, fetchedAt: nat)

  ghost predicate Valid(t: Track) {
    E.Run(t.run) && t.listedAt <= t.fetchedAt < |t.run| && E.Short(t.run[t.fetchedAt])
  }

  /** One entry per address that holds anything, in order. */
  ghost predicate Lists(tracks: map<nat, Track>, listed: seq<nat>) {
    && R.Listed(listed)
    && (forall s :: s in tracks ==> Valid(tracks[s]))
    && (forall s: nat :: s in listed <==> s in tracks && s > 0 && tracks[s].run[tracks[s].listedAt].items != map[])
  }

  /** Opening and decoding what was fetched; what cannot be fetched whole is not opened. */
  function Opened<T>(open: (nat, Bytes) -> R.Outcome<T>, s: nat, r: Fetched<Bytes>): R.Outcome<T> {
    match r
    case Found(bytes) => open(s, bytes)
    case Missing => R.Missing
    case Corrupt => R.Unreadable
  }

  ghost predicate Fetches<T>(open: (nat, Bytes) -> R.Outcome<T>, s: nat, at: E.Address, outcome: R.Outcome<T>)
    requires E.Accounted(at)
  {
    if at.items == map[] then outcome == R.Missing
    else exists items: seq<Item>, r: Fetched<Bytes> ::
      && items != [] && E.Listing(at, items) && Reads(items, r) && !r.Missing?
      && outcome == Opened(open, s, r)
  }

  lemma TrackIsSound(t: Track)
    requires Valid(t)
    ensures E.Inv(t.run[t.fetchedAt]) && E.Accounted(t.run[t.fetchedAt])
  {
    E.RunKeeps(t.run, t.fetchedAt);
  }

  ghost predicate FetchesAll<T>(open: (nat, Bytes) -> R.Outcome<T>, tracks: map<nat, Track>, listed: seq<nat>,
                                outcomes: map<nat, R.Outcome<T>>)
    requires Lists(tracks, listed)
  {
    forall s :: s in listed ==> s in outcomes && Got(open, tracks, s, outcomes[s])
  }

  ghost predicate Got<T>(open: (nat, Bytes) -> R.Outcome<T>, tracks: map<nat, Track>, s: nat, outcome: R.Outcome<T>) {
    s in tracks && Valid(tracks[s])
    && (TrackIsSound(tracks[s]); Fetches(open, s, tracks[s].run[tracks[s].fetchedAt], outcome))
  }

  /** A call that had reported success when the listing was made, and the edit it put. */
  ghost predicate Acknowledged<T>(open: (nat, Bytes) -> R.Outcome<T>, t: Track, s: nat, c: nat, edit: T) {
    && Valid(t)
    && var seen := t.run[t.listedAt];
       c in seen.calls && seen.calls[c].status == E.Acked && open(s, Joined(seen.calls[c].chunks)) == R.Edit(edit)
  }

  ghost predicate Strays(t: Track, c: nat)
    requires Valid(t)
  {
    E.Stray(t.run[t.fetchedAt], c)
  }

  /** An acknowledged edit is listed, and is fetched as itself or, with a stray beside it, as damage. */
  lemma AcknowledgedOutcome<T>(open: (nat, Bytes) -> R.Outcome<T>, tracks: map<nat, Track>, listed: seq<nat>,
                               s: nat, c: nat, edit: T, outcome: R.Outcome<T>)
    requires Lists(tracks, listed) && s in tracks && s > 0 && Acknowledged(open, tracks[s], s, c, edit)
    requires Got(open, tracks, s, outcome)
    ensures s in listed
    ensures outcome == if Strays(tracks[s], c) then R.Unreadable else R.Edit(edit)
  {
    var t := tracks[s];
    var seen, now := t.run[t.listedAt], t.run[t.fetchedAt];
    E.RunKeeps(t.run, t.listedAt);
    E.RunKeeps(t.run, t.fetchedAt);
    E.SuccessIsForGood(t.run, t.listedAt, t.fetchedAt, c);
    E.SuccessIsForGood(t.run, t.listedAt, t.listedAt, c);
    assert E.Placed(seen, c) && 0 in seen.items && 0 in now.items;
    var items: seq<Item>, r: Fetched<Bytes> :|
      && items != [] && E.Listing(now, items) && Reads(items, r) && !r.Missing?
      && outcome == Opened(open, s, r);
    E.AckedReadsExactly(now, c, items, r);
  }

  /** Whatever bytes are at this address, this process can at least say what they are. */
  ghost predicate CanOpen<T>(open: (nat, Bytes) -> R.Outcome<T>, s: nat) {
    forall b :: !open(s, b).Unreadable?
  }

  /** A set that was never finished is fetched as damage, whoever put what there is of it. */
  lemma PartialOutcome<T>(open: (nat, Bytes) -> R.Outcome<T>, tracks: map<nat, Track>, s: nat, outcome: R.Outcome<T>)
    requires Got(open, tracks, s, outcome) && CanOpen(open, s)
    ensures outcome.Unreadable? <==> PartialAt(tracks, s)
  {
    var now := tracks[s].run[tracks[s].fetchedAt];
    TrackIsSound(tracks[s]);
    if now.items != map[] {
      var items: seq<Item>, r: Fetched<Bytes> :|
        && items != [] && E.Listing(now, items) && Reads(items, r) && !r.Missing?
        && outcome == Opened(open, s, r);
      E.CorruptExactly(now, items, r);
    }
  }

  ghost predicate AckAt<T>(open: (nat, Bytes) -> R.Outcome<T>, tracks: map<nat, Track>, acks: seq<(nat, T)>, i: nat) {
    i < |acks| && i + 1 in tracks && Acknowledged(open, tracks[i + 1], i + 1, acks[i].0, acks[i].1)
  }

  ghost predicate PartialAt(tracks: map<nat, Track>, s: nat) {
    s in tracks && Valid(tracks[s]) && E.Partial(tracks[s].run[tracks[s].fetchedAt])
  }

  /** The acknowledged edits of a generation: sequence numbers 1 on, each with its call and its edit. */
  ghost predicate AllAcknowledged<T>(open: (nat, Bytes) -> R.Outcome<T>, tracks: map<nat, Track>, acks: seq<(nat, T)>) {
    forall i: nat :: i < |acks| ==> AckAt(open, tracks, acks, i)
  }

  ghost predicate StrayAt<T>(tracks: map<nat, Track>, acks: seq<(nat, T)>, i: nat) {
    i < |acks| && i + 1 in tracks && Valid(tracks[i + 1]) && Strays(tracks[i + 1], acks[i].0)
  }

  ghost predicate NoneStrays<T>(tracks: map<nat, Track>, acks: seq<(nat, T)>) {
    forall i: nat :: i < |acks| ==> !StrayAt(tracks, acks, i)
  }

  /** What replay finds at the place of an acknowledged edit. */
  ghost predicate OutcomeAt<T>(listed: seq<nat>, outcomes: map<nat, R.Outcome<T>>, tracks: map<nat, Track>,
                               acks: seq<(nat, T)>, i: nat)
    requires i < |acks|
  {
    && i < |listed| && listed[i] == i + 1 && i + 1 in outcomes
    && outcomes[i + 1] == if StrayAt(tracks, acks, i) then R.Unreadable else R.Edit(acks[i].1)
  }

  lemma AcknowledgedAt<T>(open: (nat, Bytes) -> R.Outcome<T>, tracks: map<nat, Track>, listed: seq<nat>,
                          outcomes: map<nat, R.Outcome<T>>, acks: seq<(nat, T)>, i: nat)
    requires Lists(tracks, listed) && FetchesAll(open, tracks, listed, outcomes) && AllAcknowledged(open, tracks, acks)
    requires i < |acks|
    ensures OutcomeAt(listed, outcomes, tracks, acks, i)
  {
    forall s | 1 <= s <= |acks|
      ensures s in listed
    {
      assert AckAt(open, tracks, acks, s - 1);
      AcknowledgedListed(open, tracks, listed, s, acks[s - 1].0, acks[s - 1].1);
    }
    R.ListedFrom(listed, |acks|, i);
    assert AckAt(open, tracks, acks, i) && Got(open, tracks, i + 1, outcomes[i + 1]);
    AcknowledgedOutcome(open, tracks, listed, i + 1, acks[i].0, acks[i].1, outcomes[i + 1]);
  }

  lemma AcknowledgedListed<T>(open: (nat, Bytes) -> R.Outcome<T>, tracks: map<nat, Track>, listed: seq<nat>,
                              s: nat, c: nat, edit: T)
    requires Lists(tracks, listed) && s in tracks && s > 0 && Acknowledged(open, tracks[s], s, c, edit)
    ensures s in listed
  {
    var t := tracks[s];
    E.RunKeeps(t.run, t.listedAt);
    assert E.Placed(t.run[t.listedAt], c) && 0 in t.run[t.listedAt].items;
  }

  /**
   Loading a generation. A load that succeeds has applied every acknowledged edit, in order; a stray beside one
   of them makes the load fail there and is never passed over; without strays a load fails only above them all;
   and a last edit that was left half put makes it fail too, and nothing else about that edit's puts does.
   */
  method Load<T>(open: (nat, Bytes) -> R.Outcome<T>, ghost tracks: map<nat, Track>, listed: seq<nat>,
                 outcomes: map<nat, R.Outcome<T>>, ghost acks: seq<(nat, T)>) returns (r: R.Replayed<T>)
    requires Lists(tracks, listed) && FetchesAll(open, tracks, listed, outcomes) && AllAcknowledged(open, tracks, acks)
    ensures r.Applied? ==> |acks| <= |r.edits| && forall i :: 0 <= i < |acks| ==> r.edits[i] == acks[i].1
    ensures forall i: nat :: StrayAt(tracks, acks, i) ==> r.Damaged? && r.at <= i + 1
    ensures NoneStrays(tracks, acks) && r.Damaged? ==> r.at > |acks|
    ensures NoneStrays(tracks, acks) && |listed| == |acks| + 1 == listed[|acks|] && CanOpen(open, |acks| + 1) ==>
              (r.Damaged? <==> PartialAt(tracks, |acks| + 1))
  {
    assert forall s :: s in listed ==> s in outcomes;
    r := R.LoadVersion(listed, outcomes);
    OutcomesKnown(open, tracks, listed, outcomes, acks);
    AppliedIsAcked(listed, outcomes, tracks, acks, r);
    TailKnown(open, tracks, listed, outcomes, acks);
    TailDecides(listed, outcomes, tracks, acks, r);
  }

  lemma OutcomesKnown<T>(open: (nat, Bytes) -> R.Outcome<T>, tracks: map<nat, Track>, listed: seq<nat>,
                         outcomes: map<nat, R.Outcome<T>>, acks: seq<(nat, T)>)
    requires Lists(tracks, listed) && FetchesAll(open, tracks, listed, outcomes) && AllAcknowledged(open, tracks, acks)
    ensures forall i: nat :: i < |acks| ==> OutcomeAt(listed, outcomes, tracks, acks, i)
  {
    forall i: nat | i < |acks|
      ensures OutcomeAt(listed, outcomes, tracks, acks, i)
    {
      AcknowledgedAt(open, tracks, listed, outcomes, acks, i);
    }
  }

  lemma TailKnown<T>(open: (nat, Bytes) -> R.Outcome<T>, tracks: map<nat, Track>, listed: seq<nat>,
                     outcomes: map<nat, R.Outcome<T>>, acks: seq<(nat, T)>)
    requires Lists(tracks, listed) && FetchesAll(open, tracks, listed, outcomes)
    ensures |listed| == |acks| + 1 == listed[|acks|] ==> |acks| + 1 in outcomes
    ensures |listed| == |acks| + 1 == listed[|acks|] && CanOpen(open, |acks| + 1) ==>
              (outcomes[|acks| + 1].Unreadable? <==> PartialAt(tracks, |acks| + 1))
  {
    if |listed| == |acks| + 1 == listed[|acks|] {
      assert listed[|acks|] in listed;
      if CanOpen(open, |acks| + 1) {
        PartialOutcome(open, tracks, |acks| + 1, outcomes[|acks| + 1]);
      }
    }
  }

  /** With every acknowledged edit read, only what the last one is fetched as is left to decide. */
  lemma TailDecides<T>(listed: seq<nat>, outcomes: map<nat, R.Outcome<T>>, tracks: map<nat, Track>,
                       acks: seq<(nat, T)>, r: R.Replayed<T>)
    requires forall i: nat :: i < |acks| ==> OutcomeAt(listed, outcomes, tracks, acks, i)
    requires r.Applied? ==> R.Reads(listed, outcomes, |r.edits|) && R.Ends(listed, outcomes, |r.edits|)
    requires r.Damaged? ==> r.at > 0 && R.Reads(listed, outcomes, r.at - 1) && R.Breaks(listed, outcomes, r.at - 1)
    ensures NoneStrays(tracks, acks) && |listed| == |acks| + 1 == listed[|acks|] && |acks| + 1 in outcomes ==>
              (r.Damaged? <==> outcomes[|acks| + 1].Unreadable?)
  {
    var n := if r.Applied? then |r.edits| else r.at - 1;
    assert n < |acks| ==> OutcomeAt(listed, outcomes, tracks, acks, n);
    assert NoneStrays(tracks, acks) && n < |acks| ==> !StrayAt(tracks, acks, n);
  }

  lemma AppliedIsAcked<T>(listed: seq<nat>, outcomes: map<nat, R.Outcome<T>>, tracks: map<nat, Track>,
                          acks: seq<(nat, T)>, r: R.Replayed<T>)
    requires forall i: nat :: i < |acks| ==> OutcomeAt(listed, outcomes, tracks, acks, i)
    requires r.Applied? ==>
               && R.Reads(listed, outcomes, |r.edits|) && R.Ends(listed, outcomes, |r.edits|)
               && forall i :: 0 <= i < |r.edits| ==> outcomes[listed[i]] == R.Edit(r.edits[i])
    requires r.Damaged? ==> r.at > 0 && R.Reads(listed, outcomes, r.at - 1) && R.Breaks(listed, outcomes, r.at - 1)
    ensures r.Applied? ==> |acks| <= |r.edits| && forall i :: 0 <= i < |acks| ==> r.edits[i] == acks[i].1
    ensures forall i: nat :: StrayAt(tracks, acks, i) ==> r.Damaged? && r.at <= i + 1
    ensures NoneStrays(tracks, acks) && r.Damaged? ==> r.at > |acks|
  {
    var n := if r.Applied? then |r.edits| else r.at - 1;
    assert n < |acks| ==> OutcomeAt(listed, outcomes, tracks, acks, n);
    forall i: nat | i < |acks|
      ensures StrayAt(tracks, acks, i) ==> r.Damaged? && r.at <= i + 1
      ensures r.Applied? && i < |r.edits| ==> r.edits[i] == acks[i].1
    {
      assert OutcomeAt(listed, outcomes, tracks, acks, i);
    }
  }

  /**
   There is a run that leaves a last edit half put: the generation cannot be loaded though nothing reported
   is lost.
   */
  lemma HalfPutTailIsReached()
    ensures exists t :: Valid(t) && E.Partial(t.run[t.fetchedAt])
                        && forall c :: c in t.run[t.fetchedAt].calls ==> t.run[t.fetchedAt].calls[c].status != E.Acked
  {
    E.HalfPutIsReached();
    var ss :| E.Run(ss) && ss[|ss| - 1] == E.LATE_6;
    var t := Track(ss, |ss| - 1, |ss| - 1);
    assert Valid(t) && E.Partial(t.run[t.fetchedAt]);
  }
}

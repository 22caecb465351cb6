module Ownership {
  /**
   Ownership of a store: one conditionally written pointer, and snapshots under per-attempt addresses.

   Any number of writers run against one table. A request may be lost, may arrive long after its caller
   gave up on it, and its answer may be lost; a caller that hears nothing sends the same request once more
   and then reads the pointer to find out what became of it. Each step below is one atomic act of the table
   or one decision of a caller. The pointer is the last of `history`, whose `i`-th install wrote version
   `i + 1`.
   */

  import opened Keys

  /** One pointer write: the call that made it, the generation and the snapshot attempt it committed to. */
  datatype Install = Install(op: nat, generation: nat, attempt: Option<nat>)

  /** Where a `compare_and_set` call stands, or what it returned. */
  datatype Phase =
    | First
    | Second
    | Check(refused: bool)
    | Installed
    | Fenced
    | Unknown

  /** `expected` is the version the caller last saw, 0 for an absent pointer. */
  datatype Call = Call(expected: nat, generation: nat, attempt: Option<nat>, phase: Phase)

  /** A snapshot being written, chunk by chunk; `acked` chunks are known to have landed. */
  datatype Attempt = Attempt(generation: nat, chunks: seq<Bytes>, acked: nat)

  datatype Catalog = Catalog(
    history: seq<Install>,
    calls: map<nat, Call>,
    sent: set<(nat, nat)>,
    answered: map<(nat, nat), bool>,
    attempts: map<nat, Attempt>,
    table: map<(nat, nat), Bytes>)

  function GenerationAt(history: seq<Install>, version: nat): nat
    requires version <= |history|
  {
    if version == 0 then 0 else history[version - 1].generation
  }

  function Generation(s: Catalog): nat {
    GenerationAt(s.history, |s.history|)
  }

  // ---------- pointer steps ----------

  /**
   A call starts from an entry it has read, for a later generation. If it names a snapshot attempt, that
   attempt was written, and reported written, first.
   */
  predicate StartCall(s: Catalog, s': Catalog, op: nat, expected: nat, generation: nat, attempt: Option<nat>) {
    && op !in s.calls && expected <= |s.history| && GenerationAt(s.history, expected) < generation
    && (attempt.Some? ==>
          && attempt.value in s.attempts && s.attempts[attempt.value].generation == generation
          && s.attempts[attempt.value].acked == |s.attempts[attempt.value].chunks|)
    && s' == s.(calls := s.calls[op := Call(expected, generation, attempt, First)], sent := s.sent + {(op, 0)})
  }

  /** The table processes a request that was sent: it installs if the version is the expected one. */
  predicate Deliver(s: Catalog, s': Catalog, op: nat, copy: nat) {
    && (op, copy) in s.sent && (op, copy) !in s.answered && op in s.calls
    && var c := s.calls[op];
       if c.expected == |s.history| then
         s' == s.(history := s.history + [Install(op, c.generation, c.attempt)],
           answered := s.answered[(op, copy) := true])
       else
         s' == s.(answered := s.answered[(op, copy) := false])
  }

  function Moved(s: Catalog, op: nat, phase: Phase): Catalog
    requires op in s.calls
  {
    s.(calls := s.calls[op := s.calls[op].(phase := phase)])
  }

  predicate HearFirst(s: Catalog, s': Catalog, op: nat) {
    && op in s.calls && s.calls[op].phase == First && (op, 0) in s.answered
    && s' == Moved(s, op, if s.answered[(op, 0)] then Installed else Fenced)
  }

  /** Nothing heard: the same request is sent again. */
  predicate Resend(s: Catalog, s': Catalog, op: nat) {
    && op in s.calls && s.calls[op].phase == First
    && s' == Moved(s, op, Second).(sent := s.sent + {(op, 1)})
  }

  predicate HearSecond(s: Catalog, s': Catalog, op: nat) {
    && op in s.calls && s.calls[op].phase == Second && (op, 1) in s.answered
    && s' == Moved(s, op, if s.answered[(op, 1)] then Installed else Check(true))
  }

  predicate GiveUp(s: Catalog, s': Catalog, op: nat) {
    op in s.calls && s.calls[op].phase == Second && s' == Moved(s, op, Check(false))
  }

  predicate PointsTo(s: Catalog, op: nat) {
    s.history != [] && s.history[|s.history| - 1].op == op
  }

  /** The read that settles it, when it succeeds. */
  predicate ReadPointer(s: Catalog, s': Catalog, op: nat) {
    && op in s.calls && s.calls[op].phase.Check?
    && s' == Moved(s, op,
         if PointsTo(s, op) then Installed else if s.calls[op].phase.refused then Fenced else Unknown)
  }

  predicate ReadFails(s: Catalog, s': Catalog, op: nat) {
    op in s.calls && s.calls[op].phase.Check? && s' == Moved(s, op, Unknown)
  }

  // ---------- snapshot steps ----------

  predicate BeginAttempt(s: Catalog, s': Catalog, a: nat, generation: nat, chunks: seq<Bytes>) {
    && a !in s.attempts && chunks != []
    && s' == s.(attempts := s.attempts[a := Attempt(generation, chunks, 0)])
  }

  /** A chunk's put lands, whenever it does; the address is its own, so nothing else can be there. */
  predicate LandChunk(s: Catalog, s': Catalog, a: nat, i: nat) {
    && a in s.attempts && i < |s.attempts[a].chunks|
    && s' == s.(table := s.table[(a, i) := s.attempts[a].chunks[i]])
  }

  predicate AckChunk(s: Catalog, s': Catalog, a: nat) {
    && a in s.attempts && s.attempts[a].acked < |s.attempts[a].chunks| && (a, s.attempts[a].acked) in s.table
    && s' == s.(attempts := s.attempts[a := s.attempts[a].(acked := s.attempts[a].acked + 1)])
  }

  /** An item of a generation the pointer has moved past is deleted, one at a time. */
  predicate DeleteChunk(s: Catalog, s': Catalog, a: nat, i: nat) {
    && a in s.attempts && s.attempts[a].generation < Generation(s)
    && s' == s.(table := s.table - {(a, i)})
  }

  datatype Step =
    | Starting(op: nat, expected: nat, generation: nat, attempt: Option<nat>)
    | Delivering(op: nat, copy: nat)
    | HearingFirst(op: nat)
    | Resending(op: nat)
    | HearingSecond(op: nat)
    | GivingUp(op: nat)
    | Reading(op: nat)
    | FailingToRead(op: nat)
    | Beginning(a: nat, generation: nat, chunks: seq<Bytes>)
    | Landing(a: nat, i: nat)
    | Acking(a: nat)
    | Deleting(a: nat, i: nat)

  predicate Taken(s: Catalog, s': Catalog, step: Step) {
    match step
    case Starting(op, expected, generation, attempt) => StartCall(s, s', op, expected, generation, attempt)
    case Delivering(op, copy) => Deliver(s, s', op, copy)
    case HearingFirst(op) => HearFirst(s, s', op)
    case Resending(op) => Resend(s, s', op)
    case HearingSecond(op) => HearSecond(s, s', op)
    case GivingUp(op) => GiveUp(s, s', op)
    case Reading(op) => ReadPointer(s, s', op)
    case FailingToRead(op) => ReadFails(s, s', op)
    case Beginning(a, generation, chunks) => BeginAttempt(s, s', a, generation, chunks)
    case Landing(a, i) => LandChunk(s, s', a, i)
    case Acking(a) => AckChunk(s, s', a)
    case Deleting(a, i) => DeleteChunk(s, s', a, i)
  }

  ghost predicate Next(s: Catalog, s': Catalog) {
    exists step :: Taken(s, s', step)
  }

  // ---------- what every step keeps ----------

  /** This call's install happened: at the one version it can have happened at. */
  predicate HasInstalled(s: Catalog, op: nat) {
    op in s.calls && s.calls[op].expected < |s.history| && s.history[s.calls[op].expected].op == op
  }

  /** The `i`-th install was made by a call that expected version `i`, with that call's own terms. */
  predicate EntryOk(s: Catalog, i: nat) {
    && i < |s.history| && s.history[i].op in s.calls
    && var c := s.calls[s.history[i].op];
       c.expected == i && s.history[i].generation == c.generation && s.history[i].attempt == c.attempt
  }

  predicate CallOk(s: Catalog, op: nat) {
    && op in s.calls && s.calls[op].expected <= |s.history|
    && GenerationAt(s.history, s.calls[op].expected) < s.calls[op].generation
  }

  predicate Rising(s: Catalog, i: nat, j: nat) {
    i < |s.history| && j < |s.history| && s.history[i].generation < s.history[j].generation
  }

  predicate Chained(s: Catalog) {
    && (forall i: nat {:trigger EntryOk(s, i)} :: i < |s.history| ==> EntryOk(s, i))
    && (forall i: nat, j: nat :: i < j < |s.history| ==> Rising(s, i, j))
    && (forall op {:trigger CallOk(s, op)} :: op in s.calls ==> CallOk(s, op))
  }

  predicate Answers(s: Catalog) {
    && (forall q :: q in s.answered ==> q in s.sent)
    && (forall q :: q in s.sent ==> q.0 in s.calls && (q.1 == 0 || q.1 == 1))
    && (forall op :: op in s.calls && s.calls[op].phase == First ==> (op, 1) !in s.sent)
    && (forall q :: q in s.answered && s.answered[q] ==> HasInstalled(s, q.0))
    && (forall q :: q in s.answered && !s.answered[q] ==> s.calls[q.0].expected < |s.history|)
    && (forall op :: op in s.calls && HasInstalled(s, op) ==>
          ((op, 0) in s.answered && s.answered[(op, 0)]) || ((op, 1) in s.answered && s.answered[(op, 1)]))
  }

  predicate Outcomes(s: Catalog) {
    && (forall op :: op in s.calls && s.calls[op].phase == Installed ==> HasInstalled(s, op))
    && (forall op :: op in s.calls && (s.calls[op].phase == Fenced || s.calls[op].phase == Check(true)) ==>
          s.calls[op].expected < |s.history|)
    && (forall op :: op in s.calls && s.calls[op].phase == Fenced ==> !PointsTo(s, op))
  }

  predicate Snapshots(s: Catalog) {
    && (forall q :: q in s.table ==>
          q.0 in s.attempts && q.1 < |s.attempts[q.0].chunks| && s.table[q] == s.attempts[q.0].chunks[q.1])
    && (forall a :: a in s.attempts ==> s.attempts[a].chunks != [] && s.attempts[a].acked <= |s.attempts[a].chunks|)
    && (forall a, i: nat :: a in s.attempts && i < s.attempts[a].acked ==>
          (a, i) in s.table || s.attempts[a].generation < Generation(s))
    && (forall op :: op in s.calls && s.calls[op].attempt.Some? ==>
          var a := s.calls[op].attempt.value;
          && a in s.attempts && s.attempts[a].generation == s.calls[op].generation
          && s.attempts[a].acked == |s.attempts[a].chunks|)
  }

  predicate Inv(s: Catalog) {
    Chained(s) && Answers(s) && Outcomes(s) && Snapshots(s)
  }

  predicate Init(s: Catalog) {
    s == Catalog([], map[], {}, map[], map[], map[])
  }

  // The four parts of the invariant, one step at a time.

  lemma StartKeeps(s: Catalog, s': Catalog, op: nat, expected: nat, generation: nat, attempt: Option<nat>)
    requires Inv(s) && StartCall(s, s', op, expected, generation, attempt)
    ensures Inv(s')
  {
    assert forall o :: o in s.calls ==> s'.calls[o] == s.calls[o];
    StartChained(s, s', op);
    StartAnswered(s, s', op);
    StartSnapshots(s, s', op);
  }

  lemma StartChained(s: Catalog, s': Catalog, op: nat)
    requires Chained(s) && Outcomes(s) && op !in s.calls && op in s'.calls && s'.history == s.history
    requires s'.calls == s.calls[op := s'.calls[op]] && s'.calls[op].expected <= |s.history|
             && s'.calls[op].phase == First
    requires GenerationAt(s.history, s'.calls[op].expected) < s'.calls[op].generation
    ensures Chained(s') && Outcomes(s')
  {
    forall i: nat | i < |s'.history|
      ensures EntryOk(s', i)
    {
      assert EntryOk(s, i);
    }
    forall i: nat, j: nat | i < j < |s'.history|
      ensures Rising(s', i, j)
    {
      assert Rising(s, i, j);
    }
    forall o | o in s'.calls
      ensures CallOk(s', o)
    {
      assert o != op ==> CallOk(s, o);
    }
  }

  lemma StartAnswered(s: Catalog, s': Catalog, op: nat)
    requires Chained(s) && Answers(s) && op !in s.calls && op in s'.calls && s'.history == s.history
    requires s'.calls == s.calls[op := s'.calls[op]] && s'.sent == s.sent + {(op, 0)} && s'.answered == s.answered
    ensures Answers(s')
  {
    forall o | o in s'.calls && HasInstalled(s', o)
      ensures o in s.calls && HasInstalled(s, o)
    {
      assert EntryOk(s, s'.calls[o].expected);
    }
  }

  lemma StartSnapshots(s: Catalog, s': Catalog, op: nat)
    requires Snapshots(s) && op !in s.calls && op in s'.calls && s'.history == s.history
    requires s'.calls == s.calls[op := s'.calls[op]] && s'.attempts == s.attempts && s'.table == s.table
    requires var t := s'.calls[op].attempt;
             t.Some? ==>
               && t.value in s.attempts && s.attempts[t.value].generation == s'.calls[op].generation
               && s.attempts[t.value].acked == |s.attempts[t.value].chunks|
    ensures Snapshots(s')
  {
  }

  lemma DeliverKeeps(s: Catalog, s': Catalog, op: nat, copy: nat)
    requires Inv(s) && Deliver(s, s', op, copy)
    ensures Inv(s')
  {
    if s.calls[op].expected == |s.history| {
      AppendChained(s, s', op);
      AppendAnswered(s, s', op, copy);
      AppendSnapshots(s, s');
      AppendOutcomes(s, s', op);
    } else {
      RefuseAnswered(s, s', op, copy);
    }
  }

  /** The version only ever moves on by one, and to a later generation. */
  lemma AppendChained(s: Catalog, s': Catalog, op: nat)
    requires Chained(s) && op in s.calls && s.calls[op].expected == |s.history| && s'.calls == s.calls
    requires s'.history == s.history + [Install(op, s.calls[op].generation, s.calls[op].attempt)]
    ensures Chained(s') && Generation(s) < Generation(s')
  {
    var n := |s.history|;
    assert CallOk(s, op);
    forall i: nat | i < |s'.history|
      ensures EntryOk(s', i)
    {
      assert i < n ==> EntryOk(s, i);
    }
    forall i: nat, j: nat | i < j < |s'.history|
      ensures Rising(s', i, j)
    {
      assert j < n ==> Rising(s, i, j);
      assert i < n - 1 ==> Rising(s, i, n - 1);
    }
    forall o | o in s'.calls
      ensures CallOk(s', o)
    {
      assert CallOk(s, o);
    }
  }

  lemma AppendAnswered(s: Catalog, s': Catalog, op: nat, copy: nat)
    requires Answers(s) && op in s.calls && s.calls[op].expected == |s.history| && s'.calls == s.calls
    requires s'.history == s.history + [Install(op, s.calls[op].generation, s.calls[op].attempt)]
    requires (op, copy) in s.sent && s'.sent == s.sent && s'.answered == s.answered[(op, copy) := true]
    ensures Answers(s')
  {
    assert HasInstalled(s', op);
    forall o | o in s.calls && o != op
      ensures HasInstalled(s', o) <==> HasInstalled(s, o)
    {
    }
    assert !HasInstalled(s, op);
  }

  lemma AppendOutcomes(s: Catalog, s': Catalog, op: nat)
    requires Outcomes(s) && op in s.calls && s.calls[op].expected == |s.history| && s'.calls == s.calls
    requires s'.history == s.history + [Install(op, s.calls[op].generation, s.calls[op].attempt)]
    ensures Outcomes(s')
  {
    forall o | o in s.calls && HasInstalled(s, o)
      ensures HasInstalled(s', o)
    {
    }
  }

  lemma AppendSnapshots(s: Catalog, s': Catalog)
    requires Snapshots(s) && s'.calls == s.calls && s'.attempts == s.attempts && s'.table == s.table
    requires Generation(s) <= Generation(s')
    ensures Snapshots(s')
  {
  }

  lemma RefuseAnswered(s: Catalog, s': Catalog, op: nat, copy: nat)
    requires Inv(s) && op in s.calls && s.calls[op].expected != |s.history|
    requires (op, copy) in s.sent && (op, copy) !in s.answered && s' == s.(answered := s.answered[(op, copy) := false])
    ensures Inv(s')
  {
    assert CallOk(s, op);
    TermsKeep(s, s');
    TermsKeepSnapshots(s, s');
    SameOutcomes(s, s');
    RefuseAnswers(s, s', op, copy);
  }

  lemma RefuseAnswers(s: Catalog, s': Catalog, op: nat, copy: nat)
    requires Answers(s) && op in s.calls && s.calls[op].expected < |s.history|
    requires (op, copy) in s.sent && (op, copy) !in s.answered && s' == s.(answered := s.answered[(op, copy) := false])
    ensures Answers(s')
  {
    assert forall o :: HasInstalled(s', o) <==> HasInstalled(s, o);
  }

  /** A caller's decision changes its phase and nothing else. */
  predicate SameTerms(s: Catalog, s': Catalog) {
    && s'.history == s.history && s'.calls.Keys == s.calls.Keys
    && forall op :: op in s.calls ==>
         && s'.calls[op].expected == s.calls[op].expected && s'.calls[op].generation == s.calls[op].generation
         && s'.calls[op].attempt == s.calls[op].attempt
  }

  lemma TermsKeep(s: Catalog, s': Catalog)
    requires SameTerms(s, s') && Chained(s)
    ensures Chained(s')
    ensures forall op :: HasInstalled(s', op) <==> HasInstalled(s, op)
  {
    forall i: nat | i < |s'.history|
      ensures EntryOk(s', i)
    {
      assert EntryOk(s, i);
    }
    forall i: nat, j: nat | i < j < |s'.history|
      ensures Rising(s', i, j)
    {
      assert Rising(s, i, j);
    }
    forall o | o in s'.calls
      ensures CallOk(s', o)
    {
      assert CallOk(s, o);
    }
  }

  lemma TermsKeepSnapshots(s: Catalog, s': Catalog)
    requires SameTerms(s, s') && Snapshots(s) && s'.attempts == s.attempts && s'.table == s.table
    ensures Snapshots(s')
  {
  }

  lemma MovedKeeps(s: Catalog, op: nat, phase: Phase)
    requires Inv(s) && op in s.calls && phase != First
    requires phase == Installed ==> HasInstalled(s, op)
    requires phase == Check(true) || phase == Fenced ==> s.calls[op].expected < |s.history|
    requires phase == Fenced ==> !PointsTo(s, op)
    ensures Inv(Moved(s, op, phase))
  {
    var s' := Moved(s, op, phase);
    TermsKeep(s, s');
    TermsKeepSnapshots(s, s');
    MovedAnswers(s, op, phase);
    MovedOutcomes(s, op, phase);
  }

  lemma MovedAnswers(s: Catalog, op: nat, phase: Phase)
    requires Answers(s) && op in s.calls && phase != First
    requires forall o :: HasInstalled(Moved(s, op, phase), o) <==> HasInstalled(s, o)
    ensures Answers(Moved(s, op, phase))
  {
  }

  lemma MovedOutcomes(s: Catalog, op: nat, phase: Phase)
    requires Outcomes(s) && op in s.calls
    requires phase == Installed ==> HasInstalled(s, op)
    requires phase == Check(true) || phase == Fenced ==> s.calls[op].expected < |s.history|
    requires phase == Fenced ==> !PointsTo(s, op)
    requires forall o :: HasInstalled(Moved(s, op, phase), o) <==> HasInstalled(s, o)
    ensures Outcomes(Moved(s, op, phase))
  {
    assert forall o :: PointsTo(Moved(s, op, phase), o) <==> PointsTo(s, o);
  }

  /** Refused on its only request, a call has not installed and never will. */
  lemma RefusedOutright(s: Catalog, op: nat)
    requires Inv(s) && op in s.calls && s.calls[op].phase == First && (op, 0) in s.answered && !s.answered[(op, 0)]
    ensures !PointsTo(s, op)
  {
    assert (op, 1) !in s.answered && !HasInstalled(s, op);
    assert s.history != [] ==> EntryOk(s, |s.history| - 1);
  }

  lemma HearFirstKeeps(s: Catalog, s': Catalog, op: nat)
    requires Inv(s) && HearFirst(s, s', op)
    ensures Inv(s')
  {
    if s.answered[(op, 0)] {
      MovedKeeps(s, op, Installed);
    } else {
      RefusedOutright(s, op);
      MovedKeeps(s, op, Fenced);
    }
  }

  lemma ResendKeeps(s: Catalog, s': Catalog, op: nat)
    requires Inv(s) && Resend(s, s', op)
    ensures Inv(s')
  {
    MovedKeeps(s, op, Second);
    var moved := Moved(s, op, Second);
    TermsKeep(moved, s');
    TermsKeepSnapshots(moved, s');
    ResendAnswers(moved, s', op);
    SameOutcomes(moved, s');
  }

  lemma ResendAnswers(s: Catalog, s': Catalog, op: nat)
    requires Answers(s) && op in s.calls && s.calls[op].phase == Second && s' == s.(sent := s.sent + {(op, 1)})
    ensures Answers(s')
  {
    assert forall o :: HasInstalled(s', o) <==> HasInstalled(s, o);
  }

  lemma SameOutcomes(s: Catalog, s': Catalog)
    requires Outcomes(s) && s'.calls == s.calls && s'.history == s.history
    ensures Outcomes(s')
  {
    assert forall o :: HasInstalled(s', o) <==> HasInstalled(s, o);
    assert forall o :: PointsTo(s', o) <==> PointsTo(s, o);
  }

  lemma ReadPointerKeeps(s: Catalog, s': Catalog, op: nat)
    requires Inv(s) && ReadPointer(s, s', op)
    ensures Inv(s')
  {
    if PointsTo(s, op) {
      assert EntryOk(s, |s.history| - 1) && HasInstalled(s, op);
      MovedKeeps(s, op, Installed);
    } else {
      MovedKeeps(s, op, if s.calls[op].phase.refused then Fenced else Unknown);
    }
  }

  lemma SnapshotStepKeeps(s: Catalog, s': Catalog)
    requires Inv(s) && Snapshots(s') && s'.history == s.history && s'.calls == s.calls
    requires s'.sent == s.sent && s'.answered == s.answered
    ensures Inv(s')
  {
    TermsKeep(s, s');
    assert forall o :: PointsTo(s', o) <==> PointsTo(s, o);
  }

  lemma BeginKeeps(s: Catalog, s': Catalog, a: nat, generation: nat, chunks: seq<Bytes>)
    requires Snapshots(s) && BeginAttempt(s, s', a, generation, chunks)
    ensures Snapshots(s')
  {
  }

  lemma LandKeeps(s: Catalog, s': Catalog, a: nat, i: nat)
    requires Snapshots(s) && LandChunk(s, s', a, i)
    ensures Snapshots(s')
  {
  }

  lemma AckKeeps(s: Catalog, s': Catalog, a: nat)
    requires Snapshots(s) && AckChunk(s, s', a)
    ensures Snapshots(s')
  {
  }

  /** Only what the pointer has moved past is ever deleted. */
  lemma DeleteKeeps(s: Catalog, s': Catalog, a: nat, i: nat)
    requires Snapshots(s) && DeleteChunk(s, s', a, i)
    ensures Snapshots(s')
  {
  }

  lemma StepKeeps(s: Catalog, s': Catalog, step: Step)
    requires Inv(s) && Taken(s, s', step)
    ensures Inv(s')
  {
    match step
    case Starting(op, expected, generation, attempt) => StartKeeps(s, s', op, expected, generation, attempt);
    case Delivering(op, copy) => DeliverKeeps(s, s', op, copy);
    case HearingFirst(op) => HearFirstKeeps(s, s', op);
    case Resending(op) => ResendKeeps(s, s', op);
    case HearingSecond(op) => MovedKeeps(s, op, if s.answered[(op, 1)] then Installed else Check(true));
    case GivingUp(op) => MovedKeeps(s, op, Check(false));
    case Reading(op) => ReadPointerKeeps(s, s', op);
    case FailingToRead(op) => MovedKeeps(s, op, Unknown);
    case Beginning(a, generation, chunks) => BeginKeeps(s, s', a, generation, chunks); SnapshotStepKeeps(s, s');
    case Landing(a, i) => LandKeeps(s, s', a, i); SnapshotStepKeeps(s, s');
    case Acking(a) => AckKeeps(s, s', a); SnapshotStepKeeps(s, s');
    case Deleting(a, i) => DeleteKeeps(s, s', a, i); SnapshotStepKeeps(s, s');
  }

  /** What no step undoes: the chain, a call's terms, a fence, an attempt's bytes. */
  predicate Onward(s: Catalog, s': Catalog) {
    && s.history <= s'.history
    && (forall op :: op in s.calls ==>
          && op in s'.calls && s'.calls[op].(phase := First) == s.calls[op].(phase := First)
          && (s.calls[op].phase == Fenced ==> s'.calls[op].phase == Fenced))
    && (forall a :: a in s.attempts ==> a in s'.attempts && s'.attempts[a].chunks == s.attempts[a].chunks)
  }

  lemma StepsOnward(s: Catalog, s': Catalog, step: Step)
    requires Taken(s, s', step)
    ensures Onward(s, s')
  {
  }

  lemma NextOnward(s: Catalog, s': Catalog)
    requires Next(s, s')
    ensures Onward(s, s')
  {
    var step :| Taken(s, s', step);
    StepsOnward(s, s', step);
  }

  lemma OnwardSelf(s: Catalog)
    ensures Onward(s, s)
  {
  }

  lemma OnwardTwice(s: Catalog, s': Catalog, s'': Catalog)
    requires Onward(s, s') && Onward(s', s'')
    ensures Onward(s, s'')
  {
  }

  // ---------- every run ----------

  ghost predicate StepAt(ss: seq<Catalog>, i: nat) {
    0 < i < |ss| && Next(ss[i - 1], ss[i])
  }

  ghost predicate Run(ss: seq<Catalog>) {
    ss != [] && Init(ss[0]) && forall i: nat :: 0 < i < |ss| ==> StepAt(ss, i)
  }

  lemma {:induction false} RunKeeps(ss: seq<Catalog>, n: nat)
    requires Run(ss) && n < |ss|
    ensures Inv(ss[n])
  {
    if n > 0 {
      RunKeeps(ss, n - 1);
      assert StepAt(ss, n);
      var step :| Taken(ss[n - 1], ss[n], step);
      StepKeeps(ss[n - 1], ss[n], step);
    }
  }

  lemma OneStepOnward(ss: seq<Catalog>, n: nat)
    requires Run(ss) && 0 < n < |ss|
    ensures Onward(ss[n - 1], ss[n])
  {
    assert StepAt(ss, n);
    NextOnward(ss[n - 1], ss[n]);
  }

  /** The versions form one chain: nothing installed is ever taken back or replaced in place. */
  lemma {:induction false} RunsOnward(ss: seq<Catalog>, m: nat, n: nat)
    requires Run(ss) && m <= n < |ss|
    ensures Onward(ss[m], ss[n])
    decreases n
  {
    if m == n {
      OnwardSelf(ss[n]);
    } else {
      RunsOnward(ss, m, n - 1);
      OneStepOnward(ss, n);
      OnwardTwice(ss[m], ss[n - 1], ss[n]);
    }
  }

  /** At most one call takes effect per expected version, and no call takes effect twice. */
  lemma OneInstallPerToken(ss: seq<Catalog>, n: nat, i: nat, j: nat)
    requires Run(ss) && n < |ss| && i < |ss[n].history| && j < |ss[n].history|
    requires var s := ss[n];
             s.history[i].op == s.history[j].op
             || (s.history[i].op in s.calls && s.history[j].op in s.calls
                 && s.calls[s.history[i].op].expected == s.calls[s.history[j].op].expected)
             || s.history[i].generation == s.history[j].generation
    ensures i == j
  {
    RunKeeps(ss, n);
    assert EntryOk(ss[n], i) && EntryOk(ss[n], j);
    assert i < j ==> Rising(ss[n], i, j);
    assert j < i ==> Rising(ss[n], j, i);
  }

  /** A returned entry: that call's install is in the chain, once, at the version it names. */
  lemma EntryMeansInstalled(ss: seq<Catalog>, n: nat, op: nat)
    requires Run(ss) && n < |ss| && op in ss[n].calls && ss[n].calls[op].phase == Installed
    ensures var c := ss[n].calls[op];
            c.expected < |ss[n].history| && ss[n].history[c.expected] == Install(op, c.generation, c.attempt)
    ensures forall i :: 0 <= i < |ss[n].history| && ss[n].history[i].op == op ==> i == ss[n].calls[op].expected
  {
    RunKeeps(ss, n);
    assert EntryOk(ss[n], ss[n].calls[op].expected);
    forall i | 0 <= i < |ss[n].history| && ss[n].history[i].op == op
      ensures i == ss[n].calls[op].expected
    {
      assert EntryOk(ss[n], i);
    }
  }

  /** A returned `nullopt`: the pointer is not this call's install, then or at any later time. */
  lemma FencedForGood(ss: seq<Catalog>, m: nat, n: nat, op: nat)
    requires Run(ss) && m <= n < |ss| && op in ss[m].calls && ss[m].calls[op].phase == Fenced
    ensures !PointsTo(ss[n], op)
  {
    RunsOnward(ss, m, n);
    RunKeeps(ss, n);
  }

  predicate Returned(s: Catalog, op: nat) {
    op in s.calls && (s.calls[op].phase == Installed || s.calls[op].phase == Fenced || s.calls[op].phase == Unknown)
  }

  /**
   A call whose install is the pointer when it returns is told so, however it comes to return, unless the read that
   would settle it fails.
   */
  lemma StandingInstallIsReported(ss: seq<Catalog>, n: nat, op: nat, step: Step)
    requires Run(ss) && n + 1 < |ss| && Taken(ss[n], ss[n + 1], step) && step != FailingToRead(op)
    requires op in ss[n].calls && !Returned(ss[n], op) && Returned(ss[n + 1], op) && PointsTo(ss[n], op)
    ensures ss[n + 1].calls[op].phase == Installed
  {
    var s := ss[n];
    RunKeeps(ss, n);
    assert EntryOk(s, |s.history| - 1) && HasInstalled(s, op);
  }

  /** A call that returns without knowing has failed to read the pointer, or read another's there. */
  lemma UnknownMeansUnsettled(ss: seq<Catalog>, n: nat, op: nat, step: Step)
    requires Run(ss) && n + 1 < |ss| && Taken(ss[n], ss[n + 1], step)
    requires op in ss[n].calls && !Returned(ss[n], op) && op in ss[n + 1].calls && ss[n + 1].calls[op].phase == Unknown
    ensures ss[n].calls[op].phase.Check?
    ensures step == FailingToRead(op) || (!PointsTo(ss[n], op) && !ss[n].calls[op].phase.refused)
  {
  }

  /** A call can be brought to return by its own steps alone, and as installed if its install stands. */
  lemma CallCanReturn(s: Catalog, op: nat) returns (ss: seq<Catalog>)
    requires op in s.calls && !Returned(s, op)
    ensures ss != [] && ss[0] == s && forall i :: 0 <= i < |ss| - 1 ==> Next(ss[i], ss[i + 1])
    ensures var last := ss[|ss| - 1];
            && Returned(last, op) && last.history == s.history
            && (last.calls[op].phase == Installed <==> PointsTo(s, op))
  {
    var waiting := if s.calls[op].phase == First then Moved(s, op, Second).(sent := s.sent + {(op, 1)}) else s;
    var checking := if waiting.calls[op].phase == Second then Moved(waiting, op, Check(false)) else waiting;
    var refused := checking.calls[op].phase.refused;
    var settled := Moved(checking, op, if PointsTo(s, op) then Installed else if refused then Fenced else Unknown);
    assert Taken(checking, settled, Reading(op));
    ss := [checking, settled];
    if waiting.calls[op].phase == Second {
      assert Taken(waiting, checking, GivingUp(op));
      ss := [waiting] + ss;
    }
    if s.calls[op].phase == First {
      assert Taken(s, waiting, Resending(op));
      ss := [s] + ss;
    }
  }

  /** An answer that says installed is believed, whatever has happened to the pointer since. */
  lemma HeardIsInstalled(s: Catalog, op: nat) returns (s': Catalog)
    requires op in s.calls && (s.calls[op].phase == First || s.calls[op].phase == Second)
    requires var copy := if s.calls[op].phase == First then 0 else 1;
             (op, copy) in s.answered && s.answered[(op, copy)]
    ensures Next(s, s') && s' == Moved(s, op, Installed)
  {
    s' := Moved(s, op, Installed);
    assert Taken(s, s', if s.calls[op].phase == First then HearingFirst(op) else HearingSecond(op));
  }

  /** The snapshot an installed pointer refers to is whole: every chunk is there and is what its installer wrote. */
  lemma PointerNamesAWholeSnapshot(ss: seq<Catalog>, n: nat, i: nat)
    requires Run(ss) && n < |ss| && ss[n].history != []
    requires ss[n].history[|ss[n].history| - 1].attempt.Some?
    requires var a := ss[n].history[|ss[n].history| - 1].attempt.value;
             a in ss[n].attempts && i < |ss[n].attempts[a].chunks|
    ensures var a := ss[n].history[|ss[n].history| - 1].attempt.value;
            (a, i) in ss[n].table && ss[n].table[(a, i)] == ss[n].attempts[a].chunks[i]
  {
    RunKeeps(ss, n);
    assert EntryOk(ss[n], |ss[n].history| - 1);
  }

  /**
   A reader that has read the pointer, however much later it fetches: whatever it finds under the attempt
   it was told is what that attempt's writer wrote, and while the pointer still names that generation it
   finds all of it.
   */
  lemma ReaderSeesTheInstaller(ss: seq<Catalog>, m: nat, n: nat, i: nat)
    requires Run(ss) && m <= n < |ss| && ss[m].history != []
    requires ss[m].history[|ss[m].history| - 1].attempt.Some?
    requires var a := ss[m].history[|ss[m].history| - 1].attempt.value;
             a in ss[m].attempts && i < |ss[m].attempts[a].chunks|
    ensures var a := ss[m].history[|ss[m].history| - 1].attempt.value;
            && ((a, i) in ss[n].table ==> ss[n].table[(a, i)] == ss[m].attempts[a].chunks[i])
            && (Generation(ss[n]) == Generation(ss[m]) ==> (a, i) in ss[n].table)
  {
    var a := ss[m].history[|ss[m].history| - 1].attempt.value;
    RunKeeps(ss, m);
    RunKeeps(ss, n);
    RunsOnward(ss, m, n);
    var last := |ss[m].history| - 1;
    if Generation(ss[n]) == Generation(ss[m]) {
      assert last < |ss[n].history| - 1 ==> Rising(ss[n], last, |ss[n].history| - 1);
      PointerNamesAWholeSnapshot(ss, n, i);
    }
  }

  // ---------- what the pointer's generation alone does not say ----------

  /** The generation roll's rule after an unknown outcome: take the pointer as its own if the generation matches. */
  predicate Adopts(s: Catalog, op: nat) {
    op in s.calls && s.calls[op].phase == Unknown && s.history != [] && Generation(s) == s.calls[op].generation
  }

  /** Right exactly when the call did take effect, and never wrong unless a rival rolls to the same generation. */
  lemma AdoptionExactly(ss: seq<Catalog>, n: nat, op: nat)
    requires Run(ss) && n < |ss| && Adopts(ss[n], op)
    ensures PointsTo(ss[n], op) <==> HasInstalled(ss[n], op)
    ensures !PointsTo(ss[n], op) ==>
              exists d :: d in ss[n].calls && d != op && ss[n].calls[d].generation == ss[n].calls[op].generation
  {
    var s := ss[n];
    var last := |s.history| - 1;
    RunKeeps(ss, n);
    assert EntryOk(s, last);
    if HasInstalled(s, op) {
      assert EntryOk(s, s.calls[op].expected);
      assert s.calls[op].expected < last ==> Rising(s, s.calls[op].expected, last);
    }
    if !PointsTo(s, op) {
      assert s.history[last].op in s.calls && s.calls[s.history[last].op].generation == s.calls[op].generation;
    }
  }

  /** Two writers that have each put a whole snapshot of generation 1, the first `begun` steps of it. */
  function Putting(begun: nat): Catalog {
    var one := if begun < 3 then Attempt(1, [[1]], 0) else Attempt(1, [[1]], 1);
    var two := if begun < 6 then Attempt(1, [[2]], 0) else Attempt(1, [[2]], 1);
    Catalog([], map[], {}, map[],
            if begun == 0 then map[] else if begun < 4 then map[1 := one] else map[1 := one, 2 := two],
            if begun < 2 then map[] else if begun < 5 then map[(1, 0) := [1]] else map[(1, 0) := [1], (2, 0) := [2]])
  }

  function Rivals(history: seq<Install>, one: Phase, two: Phase, sent: set<(nat, nat)>,
      answered: map<(nat, nat), bool>): Catalog
  {
    Putting(6).(history := history, sent := sent, answered := answered,
                calls := map[1 := Call(0, 1, Some(1), one), 2 := Call(0, 1, Some(2), two)])
  }

  const ONLY_TWO := [Install(2, 1, Some(2))]
  const BOTH_SENT: set<(nat, nat)> := {(1, 0), (2, 0)}
  const RACE_0 := Putting(6)
  const RACE_1 := RACE_0.(calls := map[1 := Call(0, 1, Some(1), First)], sent := {(1, 0)})
  const RACE_2 := Rivals([], First, First, BOTH_SENT, map[])
  const RACE_3 := Rivals(ONLY_TWO, First, First, BOTH_SENT, map[(2, 0) := true])
  const RACE_4 := Rivals(ONLY_TWO, First, Installed, BOTH_SENT, map[(2, 0) := true])
  const RACE_5 := Rivals(ONLY_TWO, Second, Installed, BOTH_SENT + {(1, 1)}, map[(2, 0) := true])
  const RACE_6 := Rivals(ONLY_TWO, Check(false), Installed, BOTH_SENT + {(1, 1)}, map[(2, 0) := true])
  const RACE_7 := Rivals(ONLY_TWO, Unknown, Installed, BOTH_SENT + {(1, 1)}, map[(2, 0) := true])

  lemma OnePuts()
    ensures Init(Putting(0)) && Next(Putting(0), Putting(1)) && Next(Putting(1), Putting(2))
            && Next(Putting(2), Putting(3))
  {
    assert Taken(Putting(0), Putting(1), Beginning(1, 1, [[1]]));
    assert Taken(Putting(1), Putting(2), Landing(1, 0));
    assert Taken(Putting(2), Putting(3), Acking(1));
  }

  lemma TwoPuts()
    ensures Next(Putting(3), Putting(4)) && Next(Putting(4), Putting(5)) && Next(Putting(5), RACE_0)
  {
    assert Putting(4).attempts == Putting(3).attempts[2 := Attempt(1, [[2]], 0)];
    assert Taken(Putting(3), Putting(4), Beginning(2, 1, [[2]]));
    assert Putting(5).table == Putting(4).table[(2, 0) := [2]];
    assert Taken(Putting(4), Putting(5), Landing(2, 0));
    assert RACE_0.attempts == Putting(5).attempts[2 := Attempt(1, [[2]], 1)];
    assert Taken(Putting(5), RACE_0, Acking(2));
  }

  lemma RaceBegins()
    ensures Next(RACE_0, RACE_1) && Next(RACE_1, RACE_2)
  {
    assert Taken(RACE_0, RACE_1, Starting(1, 0, 1, Some(1)));
    assert RACE_2.calls == RACE_1.calls[2 := Call(0, 1, Some(2), First)];
    assert Taken(RACE_1, RACE_2, Starting(2, 0, 1, Some(2)));
  }

  lemma OneIsAnswered()
    ensures Next(RACE_2, RACE_3) && Next(RACE_3, RACE_4)
  {
    assert Taken(RACE_2, RACE_3, Delivering(2, 0));
    assert RACE_4.calls == RACE_3.calls[2 := Call(0, 1, Some(2), Installed)];
    assert Taken(RACE_3, RACE_4, HearingFirst(2));
  }

  lemma TheOtherHearsNothing()
    ensures Next(RACE_4, RACE_5) && Next(RACE_5, RACE_6) && Next(RACE_6, RACE_7)
  {
    assert RACE_5.calls == RACE_4.calls[1 := Call(0, 1, Some(1), Second)];
    assert Taken(RACE_4, RACE_5, Resending(1));
    assert RACE_6.calls == RACE_5.calls[1 := Call(0, 1, Some(1), Check(false))];
    assert Taken(RACE_5, RACE_6, GivingUp(1));
    assert RACE_7.calls == RACE_6.calls[1 := Call(0, 1, Some(1), Unknown)];
    assert Taken(RACE_6, RACE_7, FailingToRead(1));
  }

  /**
   Two writers create generation 1 at once. One installs it; the other's requests are all lost, it reads
   the pointer, finds generation 1 there and takes it for its own. Both now hold the store, and the
   snapshot in force is not the second one's.
   */
  lemma AdoptingARival()
    ensures Init(Putting(0)) && Next(Putting(0), Putting(1)) && Next(Putting(1), Putting(2))
            && Next(Putting(2), Putting(3))
    ensures Next(Putting(3), Putting(4)) && Next(Putting(4), Putting(5)) && Next(Putting(5), RACE_0)
    ensures Next(RACE_0, RACE_1) && Next(RACE_1, RACE_2) && Next(RACE_2, RACE_3)
    ensures Next(RACE_3, RACE_4) && Next(RACE_4, RACE_5) && Next(RACE_5, RACE_6) && Next(RACE_6, RACE_7)
    ensures Adopts(RACE_7, 1) && PointsTo(RACE_7, 2) && !PointsTo(RACE_7, 1) && RACE_7.calls[2].phase == Installed
  {
    OnePuts();
    TwoPuts();
    RaceBegins();
    OneIsAnswered();
    TheOtherHearsNothing();
  }
}

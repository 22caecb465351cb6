module Replay {
  /**
   Replaying a generation's edits: in sequence from the first, stopping where the sequence stops.

   Only the last listed edit may be a write that never finished; anything wrong below it is damage and is
   reported, not skipped.
   */

  /** What fetching, opening and decoding one edit comes to. */
  datatype Outcome<E> =
    | Edit(edit: E)
    | Missing      // no such object
    | Torn         // fetched, but its payload or its encoding is damaged
    | Unreadable   // could not be fetched, opened or understood

  datatype Replayed<E> = Applied(edits: seq<E>) | Damaged(at: nat)

  /** The first `n` listed edits are numbers 1 to `n`, and each was read. */
  predicate Reads<E>(listed: seq<nat>, outcomes: map<nat, Outcome<E>>, n: nat) {
    && n <= |listed|
    && forall i :: 0 <= i < n ==> listed[i] == i + 1 && listed[i] in outcomes && outcomes[listed[i]].Edit?
  }

  /** What may end the replay quietly after `n` edits: the end, a gap, or an unfinished last edit. */
  predicate Ends<E>(listed: seq<nat>, outcomes: map<nat, Outcome<E>>, n: nat) {
    || n == |listed|
    || (n < |listed| && listed[n] != n + 1)
    || (n == |listed| - 1 && listed[n] in outcomes && (outcomes[listed[n]].Missing? || outcomes[listed[n]].Torn?))
  }

  /** What must not: an edit next in sequence that cannot be read, or is missing or torn below the last. */
  predicate Breaks<E>(listed: seq<nat>, outcomes: map<nat, Outcome<E>>, n: nat) {
    && n < |listed| && listed[n] == n + 1 && listed[n] in outcomes
    && (outcomes[listed[n]].Unreadable? || (n < |listed| - 1 && !outcomes[listed[n]].Edit?))
  }

  /** A listing is sorted and names each edit once, from 1. */
  predicate Listed(listed: seq<nat>) {
    (forall i :: 0 <= i < |listed| ==> listed[i] > 0) && forall i, j :: 0 <= i < j < |listed| ==> listed[i] < listed[j]
  }

  /** The replay loop of `load_version`. */
  method LoadVersion<E>(listed: seq<nat>, outcomes: map<nat, Outcome<E>>) returns (r: Replayed<E>)
    requires Listed(listed) && forall s :: s in listed ==> s in outcomes
    ensures r.Applied? ==>
              && Reads(listed, outcomes, |r.edits|) && Ends(listed, outcomes, |r.edits|)
              && forall i :: 0 <= i < |r.edits| ==> outcomes[listed[i]] == Edit(r.edits[i])
    ensures r.Damaged? ==> r.at > 0 && Reads(listed, outcomes, r.at - 1) && Breaks(listed, outcomes, r.at - 1)
  {
    var edits: seq<E> := [];
    var expected := 1;
    for i := 0 to |listed|
      invariant expected == i + 1 && |edits| == i && Reads(listed, outcomes, i)
      invariant forall j :: 0 <= j < i ==> outcomes[listed[j]] == Edit(edits[j])
    {
      var s := listed[i];
      if s != expected {
        return Applied(edits);
      }
      var tail := s == listed[|listed| - 1];
      assert listed[i] in listed;
      match outcomes[s]
      case Unreadable =>
        return Damaged(s);
      case Missing | Torn =>
        if tail {
          return Applied(edits);
        }
        return Damaged(s);
      case Edit(e) =>
        edits := edits + [e];
        expected := expected + 1;
    }
    return Applied(edits);
  }

  /** A listing that holds 1 to `m` starts with them. */
  lemma {:induction false} ListedFrom(listed: seq<nat>, m: nat, i: nat)
    requires Listed(listed) && i < m && forall s :: 1 <= s <= m ==> s in listed
    ensures i < |listed| && listed[i] == i + 1
  {
    assert i + 1 in listed;
    var j :| 0 <= j < |listed| && listed[j] == i + 1;
    if i > 0 {
      ListedFrom(listed, m, i - 1);
    }
  }

  /** A replay that succeeds has applied every edit that was reported written. */
  lemma AcknowledgedEditsAreApplied<E>(listed: seq<nat>, outcomes: map<nat, Outcome<E>>, m: nat, n: nat)
    requires Listed(listed) && Reads(listed, outcomes, n) && Ends(listed, outcomes, n)
    requires forall s :: 1 <= s <= m ==> s in listed && s in outcomes && outcomes[s].Edit?
    ensures n >= m
  {
    if n < m {
      ListedFrom(listed, m, n);
    }
  }

  /** And one that fails has found damage above them all. */
  lemma DamageIsAboveTheAcknowledged<E>(listed: seq<nat>, outcomes: map<nat, Outcome<E>>, m: nat, n: nat)
    requires Listed(listed) && Reads(listed, outcomes, n) && Breaks(listed, outcomes, n)
    requires forall s :: 1 <= s <= m ==> s in listed && s in outcomes && outcomes[s].Edit?
    ensures n >= m
  {
    if n < m {
      ListedFrom(listed, m, n);
    }
  }

  /** Ending and breaking exclude each other, so the replay fails exactly when some prefix breaks. */
  lemma FailsExactlyOnDamage<E>(listed: seq<nat>, outcomes: map<nat, Outcome<E>>, n: nat, k: nat)
    requires Reads(listed, outcomes, n) && Ends(listed, outcomes, n)
    requires Reads(listed, outcomes, k)
    ensures !Breaks(listed, outcomes, k)
  {
    if n < k {
      assert listed[n] == n + 1 && outcomes[listed[n]].Edit?;
    } else if k < n {
      assert listed[k] == k + 1 && outcomes[listed[k]].Edit?;
    }
  }
}

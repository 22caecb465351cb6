/**
 Which tier a file belongs on, and when a list of tiers is acceptable.

 A file's age bound on a tier is the tier's span less a jitter fixed per file, so that files written
 together do not all move together. The jitter is any function that stays within the span.
 */
module Placement {
  import opened Keys

  datatype Durability = Transient | Durable

  datatype Tier = Tier(
    store: nat,
    durability: Durability,
    maxAge: Option<nat>,
    stallAge: Option<nat>,
    maxBytes: Option<nat>)

  /** Tiers, hottest first, and the jitter of a file's number, write time and span. */
  datatype Tiers = Tiers(tiers: seq<Tier>, jitter: (nat, nat, nat) -> nat)

  ghost predicate JitterFits(ts: Tiers) {
    forall number: nat, written: nat, span: nat :: ts.jitter(number, written, span) <= span
  }

  function Last(ts: Tiers): nat
    requires ts.tiers != []
  {
    |ts.tiers| - 1
  }

  function Age(written: nat, now: nat): nat {
    if now > written then now - written else 0
  }

  /** Whether a file may stay on a tier at this time; an unbounded tier admits everything. */
  predicate Admits(ts: Tiers, i: nat, number: nat, written: nat, now: nat)
    requires i < |ts.tiers|
  {
    var span := ts.tiers[i].maxAge;
    span.None?
    || var early := if number == 0 then 0 else ts.jitter(number, written, span.value);
       early <= span.value && now + early <= written + span.value
  }

  /** The first tier that admits the file, or the last. */
  function Place(ts: Tiers, number: nat, written: nat, now: nat, from: nat): (t: nat)
    requires from < |ts.tiers|
    ensures from <= t <= Last(ts)
    ensures t < Last(ts) ==> Admits(ts, t, number, written, now)
    ensures forall i :: from <= i < t ==> !Admits(ts, i, number, written, now)
    decreases |ts.tiers| - from
  {
    if Admits(ts, from, number, written, now) || from == Last(ts) then from
    else Place(ts, number, written, now, from + 1)
  }

  /** `placement`, as the loop that computes it. */
  method PlaceFile(ts: Tiers, number: nat, written: nat, now: nat) returns (t: nat)
    requires ts.tiers != [] && JitterFits(ts)
    ensures t == Place(ts, number, written, now, 0)
  {
    for i := 0 to |ts.tiers|
      invariant forall j :: 0 <= j < i ==> !Admits(ts, j, number, written, now)
    {
      var tier := ts.tiers[i];
      if tier.maxAge.Some? {
        var bound := tier.maxAge.value - (if number == 0 then 0 else ts.jitter(number, written, tier.maxAge.value));
        if Age(written, now) > bound {
          continue;
        }
      }
      FirstIsPlace(ts, number, written, now, 0, i);
      return i;
    }
    NoneIsLast(ts, number, written, now, 0);
    return Last(ts);
  }

  lemma {:induction false} FirstIsPlace(ts: Tiers, number: nat, written: nat, now: nat, from: nat, i: nat)
    requires from <= i < |ts.tiers| && Admits(ts, i, number, written, now)
    requires forall j :: from <= j < i ==> !Admits(ts, j, number, written, now)
    ensures Place(ts, number, written, now, from) == i
    decreases i - from
  {
    if from < i {
      FirstIsPlace(ts, number, written, now, from + 1, i);
    }
  }

  lemma {:induction false} NoneIsLast(ts: Tiers, number: nat, written: nat, now: nat, from: nat)
    requires from < |ts.tiers| && forall j :: from <= j < |ts.tiers| ==> !Admits(ts, j, number, written, now)
    ensures Place(ts, number, written, now, from) == Last(ts)
    decreases |ts.tiers| - from
  {
    if from < Last(ts) {
      NoneIsLast(ts, number, written, now, from + 1);
    }
  }

  /** A file's placement only ever moves colder as time passes. */
  lemma {:induction false} PlacementIsMonotone(ts: Tiers, number: nat, written: nat, now: nat, later: nat, from: nat)
    requires from < |ts.tiers| && now <= later
    ensures Place(ts, number, written, now, from) <= Place(ts, number, written, later, from)
    decreases |ts.tiers| - from
  {
    if !Admits(ts, from, number, written, now) && from < Last(ts) {
      PlacementIsMonotone(ts, number, written, now, later, from + 1);
    }
  }

  // ---------- which tier a store is ----------

  function TierOf(tiers: seq<Tier>, store: nat): Option<nat> {
    if tiers == [] then None
    else if tiers[0].store == store then Some(0)
    else
      var rest := TierOf(tiers[1..], store);
      if rest.None? then None else Some(rest.value + 1)
  }

  predicate DistinctStores(tiers: seq<Tier>) {
    forall i, j :: 0 <= i < j < |tiers| ==> tiers[i].store != tiers[j].store
  }

  lemma {:induction false} TierOfIs(tiers: seq<Tier>, store: nat)
    ensures TierOf(tiers, store).Some? ==>
              var t := TierOf(tiers, store).value;
              t < |tiers| && tiers[t].store == store && forall i :: 0 <= i < t ==> tiers[i].store != store
    ensures TierOf(tiers, store).None? ==> forall i :: 0 <= i < |tiers| ==> tiers[i].store != store
  {
    if tiers != [] {
      TierOfIs(tiers[1..], store);
      assert forall i :: 0 < i < |tiers| ==> tiers[i] == tiers[1..][i - 1];
    }
  }

  /** With distinct stores, a store's tier is the one tier that names it. */
  lemma TierOfStore(tiers: seq<Tier>, t: nat)
    requires DistinctStores(tiers) && t < |tiers|
    ensures TierOf(tiers, tiers[t].store) == Some(t)
  {
    TierOfIs(tiers, tiers[t].store);
  }

  // ---------- which tiers are acceptable ----------

  predicate TierOk(tiers: seq<Tier>, i: nat)
    requires i < |tiers|
  {
    var t := tiers[i];
    && (t.durability == Transient ==> t.maxAge.Some? && Stall(t) > t.maxAge.value)
    && (i > 0 ==> NonDecreasing(tiers[i - 1].maxAge, t.maxAge))
    && (i == |tiers| - 1 ==> t.maxAge.None? && t.durability == Durable)
  }

  /** The age at which writes stall; twice the age bound unless given. */
  function Stall(t: Tier): nat
    requires t.maxAge.Some?
  {
    if t.stallAge.Some? then t.stallAge.value else 2 * t.maxAge.value
  }

  /** An absent bound is the largest. */
  predicate NonDecreasing(a: Option<nat>, b: Option<nat>) {
    b.None? || (a.Some? && a.value <= b.value)
  }

  /** Transient tiers come first. */
  predicate TransientPrefix(tiers: seq<Tier>) {
    forall i, j :: 0 <= i < j < |tiers| && tiers[j].durability == Transient ==> tiers[i].durability == Transient
  }

  /** What can be wrong with a tier's store: none was given, it is only a cache, or it has no name. */
  datatype Backing = Backing(given: bool, cache: bool, named: bool)

  predicate Usable(b: Backing) {
    b.given && !b.cache && b.named
  }

  /** `resolve_tiers`: accepts exactly the lists on which placement is total and files cannot thrash. */
  method ResolveTiers(tiers: seq<Tier>, backings: seq<Backing>, ageJitter: real) returns (accepted: bool)
    requires |backings| == |tiers|
    ensures accepted <==>
              && tiers != [] && 0.0 <= ageJitter <= 1.0 && (forall i :: 0 <= i < |tiers| ==> Usable(backings[i]))
              && (forall i :: 0 <= i < |tiers| ==> TierOk(tiers, i)) && TransientPrefix(tiers)
  {
    if tiers == [] || !(ageJitter >= 0.0) || ageJitter > 1.0 {
      return false;
    }
    for i := 0 to |tiers|
      invariant forall j :: 0 <= j < i ==> TierOk(tiers, j) && Usable(backings[j])
    {
      var tier := tiers[i];
      if !backings[i].given {
        return false;
      }
      if backings[i].cache || !backings[i].named {
        return false;
      }
      if tier.durability == Transient {
        if tier.maxAge.None? {
          assert !TierOk(tiers, i);
          return false;
        }
        var stall := if tier.stallAge.Some? then tier.stallAge.value else 2 * tier.maxAge.value;
        if stall <= tier.maxAge.value {
          assert !TierOk(tiers, i);
          return false;
        }
      }
      if i > 0 {
        var previous := tiers[i - 1];
        if previous.maxAge.Some? && tier.maxAge.Some? && tier.maxAge.value < previous.maxAge.value {
          assert !TierOk(tiers, i);
          return false;
        }
        if previous.maxAge.None? && tier.maxAge.Some? {
          assert !TierOk(tiers, i);
          return false;
        }
      }
      if i == |tiers| - 1 {
        if tier.maxAge.Some? || tier.durability != Durable {
          assert !TierOk(tiers, i);
          return false;
        }
      }
    }
    var seenDurable := false;
    for i := 0 to |tiers|
      invariant seenDurable <==> exists j :: 0 <= j < i && tiers[j].durability == Durable
      invariant TransientPrefix(tiers[..i])
    {
      if tiers[i].durability == Transient && seenDurable {
        return false;
      }
      if tiers[i].durability == Durable {
        seenDurable := true;
      }
    }
    assert tiers[..|tiers|] == tiers;
    return true;
  }

  /** On an accepted list the last tier admits everything, so no file falls off the end. */
  lemma LastAdmits(ts: Tiers, number: nat, written: nat, now: nat)
    requires ts.tiers != [] && TierOk(ts.tiers, Last(ts))
    ensures Admits(ts, Place(ts, number, written, now, 0), number, written, now)
  {
  }
}

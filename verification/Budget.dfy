/** The process-wide memory budget: one counter that every holder charges and gives back to. */
module Budget {

  class MemoryBudget {
    const total: nat
    var used: nat

    constructor (total: nat)
      ensures this.total == total && used == 0
    {
      this.total, used := total, 0;
    }

    /** Charges only what fits; a refusal charges nothing. */
    method TryAcquire(bytes: nat) returns (acquired: bool)
      modifies this
      ensures acquired <==> old(used) + bytes <= total
      ensures used == if acquired then old(used) + bytes else old(used)
    {
      if used + bytes > total {
        return false;
      }
      used := used + bytes;
      return true;
    }

    /** For a holder that cannot decline: charges regardless and says whether that was within the limit. */
    method TryAcquireOver(bytes: nat) returns (within: bool)
      modifies this
      ensures used == old(used) + bytes && within == (used <= total)
    {
      used := used + bytes;
      return used <= total;
    }

    /** Giving back more than is charged would wrap the counter. */
    method Release(bytes: nat)
      requires bytes <= used
      modifies this
      ensures used == old(used) - bytes
    {
      used := used - bytes;
    }

    function Overage(): (over: nat)
      reads this
      ensures used <= total + over && (over == 0 || used == total + over)
    {
      if used > total then used - total else 0
    }
  }

  // ---------- all holders together ----------

  function Sum(held: seq<nat>): nat {
    if held == [] then 0 else held[0] + Sum(held[1..])
  }

  lemma {:induction false} SumUpdate(held: seq<nat>, i: nat, v: nat)
    requires i < |held|
    ensures Sum(held[i := v]) + held[i] == Sum(held) + v
  {
    if i == 0 {
      assert held[0 := v][1..] == held[1..];
    } else {
      assert held[i := v][1..] == held[1..][i - 1 := v];
      SumUpdate(held[1..], i - 1, v);
    }
  }

  lemma {:induction false} SumHolds(held: seq<nat>, i: nat)
    requires i < |held|
    ensures held[i] <= Sum(held)
  {
    if i > 0 {
      SumHolds(held[1..], i - 1);
    }
  }

  lemma {:induction false} SumConcat(a: seq<nat>, b: seq<nat>)
    ensures Sum(a + b) == Sum(a) + Sum(b)
  {
    if a == [] {
      assert a + b == b;
    } else {
      assert (a + b)[1..] == a[1..] + b;
      SumConcat(a[1..], b);
    }
  }

  lemma SumWithout(held: seq<nat>, i: nat)
    requires i < |held|
    ensures Sum(held[..i] + held[i + 1..]) + held[i] == Sum(held)
  {
    assert held == held[..i] + ([held[i]] + held[i + 1..]);
    SumConcat(held[..i], [held[i]] + held[i + 1..]);
    SumConcat([held[i]], held[i + 1..]);
    SumConcat(held[..i], held[i + 1..]);
    assert Sum([held[i]]) == held[i] by { assert [held[i]][1..] == []; }
  }
}

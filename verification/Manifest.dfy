/** The size recorded in a manifest counts the manifest itself, whose length depends on that size. */
module Manifest {
  import opened Common

  /** The number of decimal digits, which is how long a number is once rendered. */
  function DecimalLength(n: nat): (d: nat)
    ensures d >= 1
  {
    if n < 10 then 1 else 1 + DecimalLength(n / 10)
  }

  lemma {:induction false} LengthIsMonotone(a: nat, b: nat)
    requires a <= b
    ensures DecimalLength(a) <= DecimalLength(b)
    decreases b
  {
    if a >= 10 {
      LengthIsMonotone(a / 10, b / 10);
    }
  }

  /**
   * The bytes of a bundle whose manifest records `total`: the evidence, the fixed part of the manifest and
   * the digits of `total`.
   */
  function BundleBytes(evidence: nat, fixed: nat, total: nat): nat { evidence + fixed + DecimalLength(total) }

  ghost predicate SelfConsistent(evidence: nat, fixed: nat, total: nat) { total == BundleBytes(evidence, fixed, total) }

  /** Every candidate below a self-consistent total stays below it when re-rendered. */
  lemma StaysBelow(evidence: nat, fixed: nat, candidate: nat, total: nat)
    requires candidate <= total && SelfConsistent(evidence, fixed, total)
    ensures BundleBytes(evidence, fixed, candidate) <= total
  {
    LengthIsMonotone(candidate, total);
  }

  /** Re-render from a candidate until the total no longer changes. */
  function Settle(evidence: u64, fixed: nat, total: u64): Option<u64>
    requires total <= BundleBytes(evidence, fixed, total)
    decreases U64_MAX - total
  {
    var next := BundleBytes(evidence, fixed, total);
    if next > U64_MAX then None
    else if next == total then Some(total)
    else LengthIsMonotone(total, next); Settle(evidence, fixed, next)
  }

  /** The total a manifest ends up recording. */
  function RecordedTotal(evidence: u64, fixed: nat): Option<u64> { Settle(evidence, fixed, evidence) }

  /**
   * The rendering loop: it terminates, and the total it settles on is the least self-consistent one; it
   * gives up exactly when no self-consistent total fits sixty-four bits.
   */
  method SettleTotal(evidence: u64, fixed: nat) returns (r: Option<u64>)
    ensures r == RecordedTotal(evidence, fixed)
    ensures r.Some? ==> SelfConsistent(evidence, fixed, r.value)
    ensures r.Some? ==> forall t: nat :: SelfConsistent(evidence, fixed, t) ==> r.value <= t
    ensures r.None? ==> forall t: u64 :: !SelfConsistent(evidence, fixed, t)
  {
    var total: u64 := evidence;
    while true
      invariant total <= BundleBytes(evidence, fixed, total)
      invariant RecordedTotal(evidence, fixed) == Settle(evidence, fixed, total)
      invariant forall t: nat :: SelfConsistent(evidence, fixed, t) ==> total <= t
      decreases U64_MAX - total
    {
      var next := BundleBytes(evidence, fixed, total);
      forall t: nat | SelfConsistent(evidence, fixed, t)
        ensures next <= t
      {
        StaysBelow(evidence, fixed, total, t);
      }
      if next > U64_MAX {
        return None;
      }
      if total == next {
        return Some(total);
      }
      LengthIsMonotone(total, next);
      total := next;
    }
  }
}

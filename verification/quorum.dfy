/** The majority test a proposer applies to its tally, and why it is safe:
    two majorities of the same acceptors always share an acceptor.
 */
module Quorums {

  /** More accepts than half the acceptors, with the half rounded down. */
  predicate IsMajority(count: int, total: int) {
    count > total / 2
  }

  /** The rounded-down test is exactly a strict majority. */
  lemma MajorityIsStrict(count: int, total: int)
    ensures IsMajority(count, total) <==> 2 * count > total
  {
  }

  /** The acceptor indices 0 .. n-1. */
  function Indices(n: nat): (r: set<nat>)
    ensures forall i: nat :: i in r <==> i < n
    ensures |r| == n
  {
    if n == 0 then {} else Indices(n - 1) + {n - 1}
  }

  /** A subset is no larger than the set containing it. */
  lemma {:induction false} SubsetSize(a: set<nat>, b: set<nat>)
    requires a <= b
    ensures |a| <= |b|
    decreases |b|
  {
    if a != {} {
      var x :| x in a;
      SubsetSize(a - {x}, b - {x});
    }
  }

  /** Any two majorities of `total` acceptors overlap. */
  lemma MajoritiesIntersect(a: set<nat>, b: set<nat>, total: nat)
    requires forall i :: i in a ==> i < total
    requires forall i :: i in b ==> i < total
    requires IsMajority(|a|, total) && IsMajority(|b|, total)
    ensures a * b != {}
  {
    SubsetSize(a + b, Indices(total));
  }
}

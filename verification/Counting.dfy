/** Sizes of sets of numbers. */
module Counting {

  ghost function Below(n: nat): (r: set<nat>)
    ensures |r| == n && forall s: nat :: s in r <==> s < n
  {
    if n == 0 then {} else Below(n - 1) + {n - 1}
  }

  lemma {:induction false} SubsetSize(a: set<nat>, b: set<nat>)
    requires a <= b
    ensures |a| <= |b|
  {
    if a != {} {
      var x :| x in a;
      SubsetSize(a - {x}, b - {x});
    }
  }
}

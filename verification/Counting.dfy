/** The pigeonhole principle for sequences of distinct numbers. */
module Counting {

  ghost function Below(bound: nat): (s: set<nat>)
    ensures |s| == bound
    ensures forall x: nat :: x in s <==> x < bound
  {
    if bound == 0 then {} else Below(bound - 1) + {bound - 1}
  }

  ghost predicate NoDup(xs: seq<nat>) {
    forall i, j :: 0 <= i < j < |xs| ==> xs[i] != xs[j]
  }

  lemma {:induction false} SubsetSize(a: set<nat>, b: set<nat>)
    requires a <= b
    ensures |a| <= |b|
  {
    if x :| x in a {
      SubsetSize(a - {x}, b - {x});
    }
  }

  ghost function Elems(xs: seq<nat>): (s: set<nat>)
    ensures forall x :: x in s <==> x in xs
  {
    if xs == [] then {} else Elems(xs[..|xs| - 1]) + {xs[|xs| - 1]}
  }

  lemma {:induction false} ElemsSize(xs: seq<nat>)
    requires NoDup(xs)
    ensures |Elems(xs)| == |xs|
  {
    if xs != [] {
      ElemsSize(xs[..|xs| - 1]);
    }
  }

  lemma Pigeonhole(xs: seq<nat>, bound: nat)
    requires NoDup(xs) && forall i :: 0 <= i < |xs| ==> xs[i] < bound
    ensures |xs| <= bound
  {
    ElemsSize(xs);
    SubsetSize(Elems(xs), Below(bound));
  }
}

/** Sizes of finite sets and distinct sequences of numbers. */
module Counting {
  import opened Layout

  function UpTo(n: nat): (s: set<nat>)
    ensures |s| == n && forall i: nat :: i in s <==> i < n
  {
    if n == 0 then {} else UpTo(n - 1) + {n - 1}
  }

  function Elements(xs: seq<nat>): (s: set<nat>)
    ensures |s| <= |xs| && forall x :: x in s <==> x in xs
  {
    if xs == [] then {} else Elements(Init(xs)) + {Last(xs)}
  }

  lemma {:induction false} DistinctElements(xs: seq<nat>)
    requires forall i, j :: 0 <= i < j < |xs| ==> xs[i] != xs[j]
    ensures |Elements(xs)| == |xs|
    decreases |xs|
  {
    if xs != [] {
      DistinctElements(Init(xs));
      assert forall i :: 0 <= i < |xs| - 1 ==> xs[i] != Last(xs);
      assert Last(xs) !in Init(xs);
    }
  }

  lemma {:induction false} SubsetSize(a: set<nat>, b: set<nat>)
    requires a <= b
    ensures |a| <= |b|
    decreases a
  {
    if a != {} {
      var x :| x in a;
      SubsetSize(a - {x}, b - {x});
    }
  }

  /** Distinct numbers below `q` are at most `q` many. */
  lemma Pigeonhole(xs: seq<nat>, q: nat)
    requires forall i :: 0 <= i < |xs| ==> xs[i] < q
    requires forall i, j :: 0 <= i < j < |xs| ==> xs[i] != xs[j]
    ensures |xs| <= q
  {
    DistinctElements(xs);
    SubsetSize(Elements(xs), UpTo(q));
  }
}

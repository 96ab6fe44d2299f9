/** What several of the models share. */
module Prelude {

  datatype Option<T> = None | Some(value: T)

  lemma {:induction false} SubsetSize<T>(a: set<T>, b: set<T>)
    requires a <= b
    ensures |a| <= |b|
  {
    if a != {} {
      var x :| x in a;
      SubsetSize(a - {x}, b - {x});
    }
  }

  /** The numbers below n. */
  ghost function Below(n: nat): (s: set<nat>)
    ensures forall i: nat :: i in s <==> i < n
    ensures |s| == n
  {
    if n == 0 then {} else Below(n - 1) + {n - 1}
  }

  lemma MissesOne(s: set<nat>, n: nat, i: nat)
    requires (forall x :: x in s ==> x < n) && i < n && i !in s
    ensures |s| < n
  {
    assert s <= Below(n) - {i};
    SubsetSize(s, Below(n) - {i});
  }

  lemma HasAll(s: set<nat>, n: nat)
    requires forall i: nat :: i < n ==> i in s
    ensures |s| >= n
  {
    SubsetSize(Below(n), s);
  }

  lemma OneMore(n: nat, k: nat)
    ensures (n + 1) * k == n * k + k
  {
  }
}

/** Sums over sequences of processes, elements of sequences, and sizes of sets. */
module Collections {

  function SumBy<T>(xs: seq<T>, f: T -> nat): nat {
    if xs == [] then 0 else SumBy(xs[..|xs| - 1], f) + f(xs[|xs| - 1])
  }

  lemma {:induction false} SumUpdate<T>(xs: seq<T>, k: nat, y: T, f: T -> nat)
    requires k < |xs|
    ensures SumBy(xs[k := y], f) + f(xs[k]) == SumBy(xs, f) + f(y)
  {
    var n := |xs| - 1;
    if k < n {
      SumUpdate(xs[..n], k, y, f);
      assert xs[k := y][..n] == xs[..n][k := y];
    } else {
      assert xs[k := y][..n] == xs[..n];
    }
  }

  lemma {:induction false} SumAtLeast<T>(xs: seq<T>, k: nat, f: T -> nat)
    requires k < |xs|
    ensures SumBy(xs, f) >= f(xs[k])
  {
    if k < |xs| - 1 {
      SumAtLeast(xs[..|xs| - 1], k, f);
    }
  }

  lemma {:induction false} SumZero<T>(xs: seq<T>, f: T -> nat)
    ensures SumBy(xs, f) == 0 <==> forall k :: 0 <= k < |xs| ==> f(xs[k]) == 0
  {
    if xs != [] {
      var n := |xs| - 1;
      SumZero(xs[..n], f);
      assert forall k :: 0 <= k < n ==> xs[..n][k] == xs[k];
    }
  }

  lemma {:induction false} SumFront<T>(xs: seq<T>, f: T -> nat)
    requires xs != []
    ensures SumBy(xs, f) == f(xs[0]) + SumBy(xs[1..], f)
  {
    var n := |xs| - 1;
    if n > 0 {
      SumFront(xs[..n], f);
      assert xs[1..][..n - 1] == xs[..n][1..];
    } else {
      assert xs[..0] == [] && xs[1..] == [];
    }
  }

  // ---------- elements ----------

  function Elements<T(!new)>(xs: seq<T>): (r: set<T>)
    ensures forall x :: x in r <==> x in xs
  {
    set x | x in xs
  }

  lemma ElementsSnoc<T(!new)>(xs: seq<T>, i: nat)
    requires i < |xs|
    ensures Elements(xs[..i + 1]) == Elements(xs[..i]) + {xs[i]}
  {
    assert xs[..i + 1] == xs[..i] + [xs[i]];
  }

  ghost predicate NoDuplicates<T(!new)>(xs: seq<T>) {
    forall i, j :: 0 <= i < j < |xs| ==> xs[i] != xs[j]
  }

  lemma {:induction false} ElementsSize<T(!new)>(xs: seq<T>)
    requires NoDuplicates(xs)
    ensures |Elements(xs)| == |xs|
  {
    if xs != [] {
      var n := |xs| - 1;
      ElementsSize(xs[..n]);
      ElementsSnoc(xs, n);
      assert xs[..n + 1] == xs;
    }
  }

  // ---------- sizes of sets ----------

  lemma {:induction false} SubsetSize<T>(a: set<T>, b: set<T>)
    requires a <= b
    ensures |a| <= |b|
  {
    if a != {} {
      var x :| x in a;
      SubsetSize(a - {x}, b - {x});
    }
  }

  lemma Smaller<T>(a: set<T>, b: set<T>, x: T)
    requires a <= b && x in b && x !in a
    ensures |a| < |b|
  {
    SubsetSize(a, b - {x});
  }
}

// Small vocabulary shared by every module of the project.
module Basics {

  datatype Option<+T> = None | Some(value: T)

  datatype Result<+T, +E> = Ok(value: T) | Err(error: E)

  function Min(a: int, b: int): int {
    if a <= b then a else b
  }

  function Max(a: int, b: int): int {
    if a >= b then a else b
  }

  function RMin(a: real, b: real): real {
    if a <= b then a else b
  }

  function RMax(a: real, b: real): real {
    if a >= b then a else b
  }

  // All elements of a sequence are pairwise different.
  ghost predicate Distinct<T>(s: seq<T>) {
    forall i, j :: 0 <= i < j < |s| ==> s[i] != s[j]
  }

  lemma AnyOf<T>(s: set<T>) returns (x: T)
    requires s != {}
    ensures x in s
  {
    x :| x in s;
  }

  lemma AllIn(a: set<int>, b: set<int>)
    requires forall x :: x in a ==> x in b
    ensures a <= b
  {
    if a - b != {} {
      var x := AnyOf(a - b);
    }
    assert a == (a - b) + (a * b);
  }

  lemma SubsetSize<T>(a: set<T>, b: set<T>)
    requires a <= b
    ensures |a| <= |b|
  {
    assert b == a + (b - a);
  }

  // q times m is n: the ratio of n to m, without a quotient.
  predicate IsRatio(q: real, n: nat, m: nat) {
    q * m as real == n as real
  }

  lemma {:induction false} QuotientIsRatio(q: real, n: nat, m: nat)
    requires 0 < m && q == n as real / m as real
    ensures IsRatio(q, n, m)
  {
  }

  lemma {:induction false} RatioIsOne(q: real, n: nat, m: nat)
    requires 0 < m && IsRatio(q, n, m)
    ensures q == 1.0 <==> n == m
  {
    ProductOrder(q, 1.0, m as real);
    ProductOrder(1.0, q, m as real);
  }

  lemma {:induction false} ProductOrder(x: real, y: real, z: real)
    requires 0.0 < z
    ensures x < y ==> x * z < y * z
  {
  }
}

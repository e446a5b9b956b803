// Sequences as lists of distinct elements.
module Sequences {

  function Without<T>(xs: seq<T>, j: nat): seq<T>
    requires j < |xs|
  {
    xs[..j] + xs[j + 1..]
  }

  function IndexOf<T(==)>(xs: seq<T>, x: T): (j: nat)
    requires x in xs
    ensures j < |xs| && xs[j] == x
  {
    if xs[0] == x then 0 else 1 + IndexOf(xs[1..], x)
  }

  ghost predicate NoDup<T(!new)>(xs: seq<T>) { forall i, j :: 0 <= i < j < |xs| ==> xs[i] != xs[j] }

  lemma WithoutOne<T(!new)>(xs: seq<T>, x: T)
    requires NoDup(xs) && x in xs
    ensures NoDup(Without(xs, IndexOf(xs, x)))
    ensures forall y :: y in Without(xs, IndexOf(xs, x)) <==> y in xs && y != x
  {
    var j := IndexOf(xs, x);
    var ys := Without(xs, j);
    forall y | y in xs && y != x ensures y in ys {
      var i :| 0 <= i < |xs| && xs[i] == y;
      assert ys[if i < j then i else i - 1] == y;
    }
  }

  lemma ConsNoDup<T(!new)>(xs: seq<T>, x: T)
    requires NoDup(xs) && x !in xs
    ensures NoDup([x] + xs) && forall y :: y in [x] + xs <==> y == x || y in xs
  {}
}

/**
 * Iterating a Python `set`: the order is not specified, so it is modelled as
 * some enumeration of the set's elements, each exactly once.
 */
module Sets {

  /** No element occurs twice. */
  predicate Distinct<T(==)>(xs: seq<T>) {
    forall i, j :: 0 <= i < j < |xs| ==> xs[i] != xs[j]
  }

  /** `xs` lists the elements of `s`, each once, in some order. */
  predicate IsOrdering<T(==)>(xs: seq<T>, s: set<T>) {
    && Distinct(xs)
    && (forall x :: x in xs ==> x in s)
    && (forall x :: x in s ==> x in xs)
  }

  /** An enumeration of a set has as many entries as the set has elements. */
  lemma {:induction false} OrderingSize<T>(xs: seq<T>, s: set<T>)
    requires IsOrdering(xs, s)
    ensures |xs| == |s|
    decreases |xs|
  {
    if xs == [] {
      assert s == {};
    } else {
      var n := |xs| - 1;
      var x := xs[n];
      var init := xs[..n];
      forall y | y in init || y in s - {x}
        ensures y in init <==> y in s - {x}
      {
        if y in init {
          var k :| 0 <= k < n && init[k] == y;
          assert xs[k] == y;
        }
        if y in s - {x} {
          assert y in xs;
          var k :| 0 <= k < |xs| && xs[k] == y;
          assert k != n;
          assert init[k] == y;
        }
      }
      assert Distinct(init) by {
        forall i, j | 0 <= i < j < |init|
          ensures init[i] != init[j]
        {
          assert init[i] == xs[i] && init[j] == xs[j];
        }
      }
      OrderingSize(init, s - {x});
    }
  }

  /** `for x in s`: picks the elements one at a time, in an order the model leaves open. */
  method ListOfSet<T>(s: set<T>) returns (xs: seq<T>)
    ensures IsOrdering(xs, s)
  {
    xs := [];
    var rest := s;
    while rest != {}
      invariant rest <= s
      invariant Distinct(xs)
      invariant forall x :: x in xs ==> x in s && x !in rest
      invariant forall x :: x in s ==> x in xs || x in rest
      decreases |rest|
    {
      var x :| x in rest;
      xs := xs + [x];
      rest := rest - {x};
    }
  }
}

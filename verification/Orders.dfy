/** The least element of a finite set under a strict order. */
module Orders {

  /** On the elements of `s`, `less` is asymmetric, transitive and total. */
  ghost predicate IsOrder<T>(less: (T, T) -> bool, s: set<T>) {
    && (forall x, y :: x in s && y in s && less(x, y) ==> !less(y, x))
    && (forall x, y, z :: x in s && y in s && z in s && less(x, y) && less(y, z) ==> less(x, z))
    && (forall x, y :: x in s && y in s && x != y ==> less(x, y) || less(y, x))
  }

  predicate IsLeast<T(==)>(less: (T, T) -> bool, s: set<T>, x: T) {
    x in s && forall y :: y in s && y != x ==> less(x, y)
  }

  lemma {:induction false} LeastExists<T>(less: (T, T) -> bool, s: set<T>)
    requires s != {} && IsOrder(less, s)
    ensures exists x :: x in s && IsLeast(less, s, x)
    decreases |s|
  {
    var k :| k in s;
    var rest := s - {k};
    if rest == {} {
      assert s == {k};
      assert IsLeast(less, s, k);
    } else {
      LeastExists(less, rest);
      var x :| x in rest && IsLeast(less, rest, x);
      var z := if less(k, x) then k else x;
      forall y | y in s && y != z
        ensures less(z, y)
      {
        assert y == k || y in rest;
      }
      assert IsLeast(less, s, z);
    }
  }

  function Least<T(==)>(less: (T, T) -> bool, s: set<T>): (x: T)
    requires s != {} && IsOrder(less, s)
    ensures x in s && IsLeast(less, s, x)
  {
    LeastExists(less, s);
    var x :| x in s && IsLeast(less, s, x);
    x
  }
}

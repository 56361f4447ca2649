/** Counting finite sets. */
module Cardinality {
  function Image<T>(f: nat -> T, n: nat): set<T> {
    set i | 0 <= i < n :: f(i)
  }

  lemma {:induction false} ImageCount<T>(f: nat -> T, n: nat)
    requires forall i, j | 0 <= i < j < n :: f(i) != f(j)
    ensures |Image(f, n)| == n
  {
    if n > 0 {
      ImageCount(f, n - 1);
      assert Image(f, n) == Image(f, n - 1) + {f(n - 1)};
    }
  }

  lemma {:induction false} SubsetIsSmaller<T>(a: set<T>, b: set<T>)
    requires a <= b
    ensures |a| <= |b|
  {
    if a != {} {
      var x :| x in a;
      SubsetIsSmaller(a - {x}, b - {x});
    }
  }
}

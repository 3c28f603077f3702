/** Sizes of finite sets, and values that a sequence repeats. */
module Sets {

  lemma {:induction false} SubsetSize<T>(a: set<T>, b: set<T>)
    requires a <= b
    ensures |a| <= |b|
    ensures |a| == |b| ==> a == b
  {
    if a != {} {
      var x :| x in a;
      SubsetSize(a - {x}, b - {x});
    }
  }

  /** At most `n` numbers are smaller than `n`. */
  lemma {:induction false} BoundedSize(a: set<nat>, n: nat)
    requires forall k :: k in a ==> k < n
    ensures |a| <= n
  {
    if n > 0 {
      BoundedSize(a - {n - 1}, n - 1);
    } else {
      assert a == {};
    }
  }

  /** A value counts twice exactly when it stands at two positions. */
  lemma {:induction false} OccursTwice<T>(xs: seq<T>, x: T)
    ensures multiset(xs)[x] >= 2 <==> exists i, j :: 0 <= i < j < |xs| && xs[i] == x && xs[j] == x
  {
    if xs != [] {
      var n := |xs| - 1;
      OccursTwice(xs[..n], x);
      assert xs == xs[..n] + [xs[n]];
      if i, j :| 0 <= i < j < |xs| && xs[i] == x && xs[j] == x {
        assert xs[..n][i] == x && x in multiset(xs[..n]);
      }
      if multiset(xs)[x] >= 2 && multiset(xs[..n])[x] <= 1 {
        assert x in multiset(xs[..n]);
        var i :| 0 <= i < n && xs[..n][i] == x;
      }
    }
  }
}

/** Sizes of finite sets. */
module Sets {

  lemma {:induction false} SubsetSize<T>(a: set<T>, b: set<T>)
    requires a <= b
    ensures |a| <= |b|
  {
    if a != {} {
      var x :| x in a;
      SubsetSize(a - {x}, b - {x});
    }
  }

  lemma SubsetFull<T>(a: set<T>, b: set<T>)
    requires a <= b && |a| == |b|
    ensures a == b
  {
    if a != b {
      var x :| x in b && x !in a;
      SubsetSize(a, b - {x});
    }
  }

  /** The numbers from 1 to n. */
  function UpTo(n: nat): (s: set<int>)
    ensures |s| == n && forall a :: a in s ==> 0 < a <= n
  {
    if n == 0 then {} else UpTo(n - 1) + {n}
  }

  lemma {:induction false} UpToHas(n: nat, a: int)
    ensures a in UpTo(n) <==> 0 < a <= n
  {
    if n > 0 {
      UpToHas(n - 1, a);
    }
  }
}

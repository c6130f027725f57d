/** Linear equations over GF(2^8): dot products, row operations, solution sets. */
module LinearSystem {
  import opened Galois
  import opened GaloisField

  type Vector = seq<Byte>

  function Dot(a: Vector, b: Vector): (r: Byte)
    requires |a| == |b|
  {
    if |a| == 0 then 0
    else
      var n := |a| - 1;
      Add(Dot(a[..n], b[..n]), Mul(a[n], b[n]))
  }

  function Scaled(c: Byte, a: Vector): (r: Vector)
    ensures |r| == |a|
  {
    seq(|a|, i requires 0 <= i < |a| => Mul(c, a[i]))
  }

  /** The row operation of the elimination: a + c * b. */
  function Combined(a: Vector, c: Byte, b: Vector): (r: Vector)
    requires |a| == |b|
    ensures |r| == |a|
  {
    seq(|a|, i requires 0 <= i < |a| => Add(a[i], Mul(c, b[i])))
  }

  function Zeros(n: nat): (r: Vector)
    ensures |r| == n
  {
    seq(n, _ => 0)
  }

  function Unit(n: nat, k: nat): (r: Vector)
    ensures |r| == n
  {
    seq(n, i => if i == k then 1 else 0)
  }

  ghost predicate Nonzero(a: Vector) {
    exists i | 0 <= i < |a| :: a[i] != 0
  }

  lemma {:induction false} DotScaled(c: Byte, a: Vector, z: Vector)
    requires |a| == |z|
    ensures Dot(Scaled(c, a), z) == Mul(c, Dot(a, z))
  {
    hide Mul, Xor;
    if |a| == 0 {
      MulZero(c);
    } else {
      var n := |a| - 1;
      assert Scaled(c, a)[..n] == Scaled(c, a[..n]);
      DotScaled(c, a[..n], z[..n]);
      MulAssoc(c, a[n], z[n]);
      Distribute(c, Dot(a[..n], z[..n]), Mul(a[n], z[n]));
    }
  }

  lemma {:induction false} DotCombined(a: Vector, c: Byte, b: Vector, z: Vector)
    requires |a| == |b| == |z|
    ensures Dot(Combined(a, c, b), z) == Add(Dot(a, z), Mul(c, Dot(b, z)))
  {
    hide Mul, Xor;
    if |a| == 0 {
      MulZero(c);
      AddZero(0);
    } else {
      var n := |a| - 1;
      assert Combined(a, c, b)[..n] == Combined(a[..n], c, b[..n]);
      DotCombined(a[..n], c, b[..n], z[..n]);
      Distribute(z[n], a[n], Mul(c, b[n]));
      MulAssoc(c, b[n], z[n]);
      Distribute(c, Dot(b[..n], z[..n]), Mul(b[n], z[n]));
      AddSwap(Dot(a[..n], z[..n]), Mul(c, Dot(b[..n], z[..n])), Mul(a[n], z[n]), Mul(c, Mul(b[n], z[n])));
    }
  }

  lemma {:induction false} DotAppend(a: Vector, b: Vector, x: Vector, y: Vector)
    requires |a| == |x| && |b| == |y|
    ensures Dot(a + b, x + y) == Add(Dot(a, x), Dot(b, y))
    decreases |b|
  {
    hide Mul, Xor;
    if |b| == 0 {
      assert a + b == a && x + y == x;
      AddZero(Dot(a, x));
    } else {
      var n := |b| - 1;
      assert (a + b)[..|a| + n] == a + b[..n];
      assert (x + y)[..|x| + n] == x + y[..n];
      DotAppend(a, b[..n], x, y[..n]);
      XorAssoc(Dot(a, x), Dot(b[..n], y[..n]), Mul(b[n], y[n]));
    }
  }

  lemma {:induction false} DotZeros(a: Vector, z: Vector)
    requires |a| == |z|
    requires forall i | 0 <= i < |a| :: a[i] == 0 || z[i] == 0
    ensures Dot(a, z) == 0
  {
    hide Mul, Xor;
    if |a| > 0 {
      var n := |a| - 1;
      DotZeros(a[..n], z[..n]);
      NoZeroDivisors(a[n], z[n]);
      AddZero(0);
    }
  }

  /** A row with a single 1, at k, picks out the k-th component. */
  lemma {:induction false} DotUnit(a: Vector, k: nat, z: Vector)
    requires |a| == |z| && k < |a|
    requires forall i | 0 <= i < |a| :: a[i] == if i == k then 1 else 0
    ensures Dot(a, z) == z[k]
  {
    hide Mul, Xor;
    var n := |a| - 1;
    if k == n {
      DotZeros(a[..n], z[..n]);
      MulUnit(z[n]);
    } else {
      DotUnit(a[..n], k, z[..n]);
      ZeroMul(z[n]);
    }
    AddZero(z[k]);
  }

  // ---- systems of equations ----

  type Matrix = seq<Vector>

  ghost predicate Shape(m: Matrix, rows: nat, width: nat) {
    |m| == rows && forall r | 0 <= r < rows :: |m[r]| == width
  }

  ghost predicate Solves(m: Matrix, z: Vector)
    requires Shape(m, |m|, |z|)
  {
    forall r | 0 <= r < |m| :: Dot(m[r], z) == 0
  }

  /** The two systems have exactly the same solutions. */
  ghost predicate SameSolutions(m: Matrix, m': Matrix, width: nat)
    requires Shape(m, |m|, width) && Shape(m', |m'|, width)
  {
    forall z: Vector | |z| == width :: Solves(m, z) <==> Solves(m', z)
  }

  lemma SwapKeeps(m: Matrix, p: nat, q: nat, width: nat)
    requires Shape(m, |m|, width) && p < |m| && q < |m|
    ensures SameSolutions(m, m[p := m[q]][q := m[p]], width)
  {
    hide Dot;
    var m' := m[p := m[q]][q := m[p]];
    forall z: Vector | |z| == width
      ensures Solves(m, z) <==> Solves(m', z)
    {
      assert m'[p] == m[q] && m'[q] == m[p];
      if Solves(m', z) {
        assert forall r | 0 <= r < |m| :: m[r] == m'[if r == p then q else if r == q then p else r];
      }
    }
  }

  lemma ScaleKeeps(m: Matrix, r: nat, c: Byte, width: nat)
    requires Shape(m, |m|, width) && r < |m| && c != 0
    ensures SameSolutions(m, m[r := Scaled(c, m[r])], width)
  {
    hide Dot;
    var m' := m[r := Scaled(c, m[r])];
    forall z: Vector | |z| == width
      ensures Solves(m, z) <==> Solves(m', z)
    {
      DotScaled(c, m[r], z);
      NoZeroDivisors(c, Dot(m[r], z));
      assert Dot(m'[r], z) == 0 <==> Dot(m[r], z) == 0;
      assert forall k | 0 <= k < |m| && k != r :: m'[k] == m[k];
    }
  }

  lemma CombineKeeps(m: Matrix, r: nat, c: Byte, s: nat, width: nat)
    requires Shape(m, |m|, width) && r < |m| && s < |m| && r != s
    ensures SameSolutions(m, m[r := Combined(m[r], c, m[s])], width)
  {
    hide Dot;
    var m' := m[r := Combined(m[r], c, m[s])];
    forall z: Vector | |z| == width
      ensures Solves(m, z) <==> Solves(m', z)
    {
      DotCombined(m[r], c, m[s], z);
      MulZero(c);
      AddZero(Dot(m[r], z));
      assert m'[s] == m[s];
      assert Dot(m[s], z) == 0 ==> Dot(m'[r], z) == Dot(m[r], z);
      assert forall k | 0 <= k < |m| && k != r :: m'[k] == m[k];
    }
  }

  lemma SameTransitive(a: Matrix, b: Matrix, c: Matrix, width: nat)
    requires Shape(a, |a|, width) && Shape(b, |b|, width) && Shape(c, |c|, width)
    requires SameSolutions(a, b, width) && SameSolutions(b, c, width)
    ensures SameSolutions(a, c, width)
  {
    hide Solves;
  }
}

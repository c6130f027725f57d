/** Every square Cauchy matrix 1 / (x + y) over GF(2^8) has a trivial kernel.

In characteristic 2 one row and one column can be removed at a time: the weights that remain
solve a smaller Cauchy system, so they vanish by induction. No determinants are needed. */
module Cauchy {
  import opened Galois
  import opened GaloisField
  import opened LinearSystem

  /** The coefficients 1 / (x + y) of one row. */
  ghost function CauchyRow(x: Byte, ys: Vector): (r: Vector)
    ensures |r| == |ys|
  {
    seq(|ys|, j requires 0 <= j < |ys| => Inv(Add(x, ys[j])))
  }

  ghost predicate Distinct(s: Vector) {
    forall i, j | 0 <= i < j < |s| :: s[i] != s[j]
  }

  ghost predicate Apart(xs: Vector, ys: Vector) {
    forall i, j | 0 <= i < |xs| && 0 <= j < |ys| :: xs[i] != ys[j]
  }

  /** The row equations of the square system with weights w. */
  ghost predicate Kernel(xs: Vector, ys: Vector, w: Vector)
    requires |ys| == |w|
  {
    forall i | 0 <= i < |xs| :: Dot(CauchyRow(xs[i], ys), w) == 0
  }

  ghost function Sum(w: Vector): (r: Byte) {
    if |w| == 0 then 0 else Add(Sum(w[..|w| - 1]), w[|w| - 1])
  }

  /** Weights after clearing the column of y: w[j] * (y + ys[j]). */
  ghost function Cleared(y: Byte, ys: Vector, w: Vector): (r: Vector)
    requires |ys| == |w|
    ensures |r| == |w|
  {
    seq(|w|, j requires 0 <= j < |w| => Mul(Add(y, ys[j]), w[j]))
  }

  /** Weights after removing the row of x: w[j] / (x + ys[j]). */
  ghost function Divided(x: Byte, ys: Vector, w: Vector): (r: Vector)
    requires |ys| == |w|
    ensures |r| == |w|
  {
    seq(|w|, j requires 0 <= j < |w| => Mul(Inv(Add(x, ys[j])), w[j]))
  }

  lemma AddAssoc(a: Byte, b: Byte, c: Byte)
    ensures Add(Add(a, b), c) == Add(a, Add(b, c))
  {
    XorAssoc(a, b, c);
  }

  lemma AddMeet(a: Byte, b: Byte, c: Byte)
    ensures Add(a, b) == Add(Add(a, c), Add(c, b))
    ensures Add(a, b) == Add(Add(a, c), Add(b, c))
  {
    AddSwap(a, c, b, c);
    AddZero(c);
    AddZero(Add(a, b));
    XorComm(c, b);
  }

  lemma AddDiffer(a: Byte, b: Byte)
    ensures Add(a, b) == 0 <==> a == b
  {
    XorZero(a, b);
  }

  /** One term of clearing a column: (x + y) w / (x + v) is w plus (y + v) w / (x + v). */
  lemma ClearTerm(x: Byte, y: Byte, v: Byte, w: Byte)
    requires x != v
    ensures Mul(Add(x, y), Mul(Inv(Add(x, v)), w)) == Add(w, Mul(Inv(Add(x, v)), Mul(Add(y, v), w)))
  {
    hide Mul, Add, Inv;
    var d := Add(x, v);
    var q := Mul(Inv(d), w);
    AddDiffer(x, v);
    AddMeet(x, y, v);
    Distribute(q, d, Add(y, v));
    Cancel(d, w);
    MulAssoc(Add(y, v), Inv(d), w);
    MulComm(Add(y, v), Inv(d));
    MulAssoc(Inv(d), Add(y, v), w);
  }

  lemma {:induction false} ClearColumn(x: Byte, y: Byte, ys: Vector, w: Vector)
    requires |ys| == |w|
    requires forall j | 0 <= j < |ys| :: x != ys[j]
    ensures Mul(Add(x, y), Dot(CauchyRow(x, ys), w)) == Add(Sum(w), Dot(CauchyRow(x, ys), Cleared(y, ys, w)))
  {
    hide Mul, Add, Inv;
    if |w| == 0 {
      MulZero(Add(x, y));
      AddZero(0);
    } else {
      var n := |w| - 1;
      assert CauchyRow(x, ys)[..n] == CauchyRow(x, ys[..n]);
      assert Cleared(y, ys, w)[..n] == Cleared(y, ys[..n], w[..n]);
      ClearColumn(x, y, ys[..n], w[..n]);
      ClearTerm(x, y, ys[n], w[n]);
      var d, c := Dot(CauchyRow(x, ys[..n]), w[..n]), Inv(Add(x, ys[n]));
      Distribute(Add(x, y), d, Mul(c, w[n]));
      AddSwap(Sum(w[..n]), Dot(CauchyRow(x, ys[..n]), Cleared(y, ys[..n], w[..n])),
              w[n], Mul(c, Mul(Add(y, ys[n]), w[n])));
    }
  }

  /** One term of subtracting two rows: w / a + w / b is (a + b) (w / b) / a. */
  lemma SubtractTerm(a: Byte, b: Byte, w: Byte)
    requires a != 0 && b != 0
    ensures Add(Mul(Inv(a), w), Mul(Inv(b), w)) == Mul(Add(a, b), Mul(Inv(a), Mul(Inv(b), w)))
  {
    hide Mul, Add, Inv;
    var q := Mul(Inv(a), Mul(Inv(b), w));
    Distribute(q, a, b);
    Cancel(a, Mul(Inv(b), w));
    MulAssoc(Inv(a), Inv(b), w);
    MulComm(Inv(a), Inv(b));
    MulAssoc(Inv(b), Inv(a), w);
    Cancel(b, Mul(Inv(a), w));
    AddComm(Mul(Inv(a), w), Mul(Inv(b), w));
  }

  lemma AddComm(a: Byte, b: Byte)
    ensures Add(a, b) == Add(b, a)
  {
    XorComm(a, b);
  }

  lemma {:induction false} SubtractRows(x: Byte, x': Byte, ys: Vector, w: Vector)
    requires |ys| == |w|
    requires forall j | 0 <= j < |ys| :: x != ys[j] && x' != ys[j]
    ensures Add(Dot(CauchyRow(x, ys), w), Dot(CauchyRow(x', ys), w))
         == Mul(Add(x, x'), Dot(CauchyRow(x, ys), Divided(x', ys, w)))
  {
    hide Mul, Add, Inv;
    if |w| == 0 {
      MulZero(Add(x, x'));
      AddZero(0);
    } else {
      var n := |w| - 1;
      assert CauchyRow(x, ys)[..n] == CauchyRow(x, ys[..n]);
      assert CauchyRow(x', ys)[..n] == CauchyRow(x', ys[..n]);
      assert Divided(x', ys, w)[..n] == Divided(x', ys[..n], w[..n]);
      SubtractRows(x, x', ys[..n], w[..n]);
      var a, b := Add(x, ys[n]), Add(x', ys[n]);
      AddDiffer(x, ys[n]);
      AddDiffer(x', ys[n]);
      AddMeet(x, x', ys[n]);
      SubtractTerm(a, b, w[n]);
      AddSwap(Dot(CauchyRow(x, ys[..n]), w[..n]), Mul(Inv(a), w[n]), Dot(CauchyRow(x', ys[..n]), w[..n]), Mul(Inv(b), w[n]));
      Distribute(Add(x, x'), Dot(CauchyRow(x, ys[..n]), Divided(x', ys[..n], w[..n])), Mul(Inv(a), Mul(Inv(b), w[n])));
    }
  }

  /** The weights of the system with the last row and column removed. */
  ghost function Removed(x: Byte, y: Byte, ys: Vector, w: Vector): (r: Vector)
    requires |ys| == |w|
    ensures |r| == |w|
  {
    Divided(x, ys, Cleared(y, ys, w))
  }

  lemma RowRemoved(x: Byte, x': Byte, y: Byte, ys: Vector, w: Vector)
    requires |ys| == |w| && x != x'
    requires forall j | 0 <= j < |ys| :: x != ys[j] && x' != ys[j]
    requires Dot(CauchyRow(x, ys), w) == 0 && Dot(CauchyRow(x', ys), w) == 0
    ensures Dot(CauchyRow(x, ys), Removed(x', y, ys, w)) == 0
  {
    hide Dot, Mul, Add, Inv, CauchyRow, Cleared, Divided;
    var w' := Cleared(y, ys, w);
    var s, d, d' := Sum(w), Dot(CauchyRow(x, ys), w'), Dot(CauchyRow(x', ys), w');
    ClearColumn(x, y, ys, w);
    ClearColumn(x', y, ys, w);
    MulZero(Add(x, y));
    MulZero(Add(x', y));
    AddDiffer(s, d);
    AddDiffer(s, d');
    SubtractRows(x, x', ys, w');
    AddZero(d);
    AddDiffer(x, x');
    NoZeroDivisors(Add(x, x'), Dot(CauchyRow(x, ys), Divided(x', ys, w')));
  }

  lemma RemovedAt(x: Byte, y: Byte, ys: Vector, w: Vector, j: nat)
    requires |ys| == |w| && j < |w| && x != ys[j]
    ensures Removed(x, y, ys, w)[j] == 0 <==> y == ys[j] || w[j] == 0
  {
    hide Mul, Add, Inv;
    AddDiffer(x, ys[j]);
    AddDiffer(y, ys[j]);
    InvLaw(Add(x, ys[j]));
    NoZeroDivisors(Add(y, ys[j]), w[j]);
    NoZeroDivisors(Inv(Add(x, ys[j])), Mul(Add(y, ys[j]), w[j]));
  }

  lemma LastTermZero(a: Vector, w: Vector)
    requires |a| == |w| && |w| > 0 && w[|w| - 1] == 0
    ensures Dot(a[..|w| - 1], w[..|w| - 1]) == Dot(a, w)
  {
    hide Mul, Xor;
    var n := |w| - 1;
    MulZero(a[n]);
    AddZero(Dot(a[..n], w[..n]));
  }

  /** Only the zero vector is mapped to zero. */
  lemma {:induction false} KernelTrivial(xs: Vector, ys: Vector, w: Vector)
    requires |xs| == |ys| == |w|
    requires Distinct(xs) && Distinct(ys) && Apart(xs, ys) && Kernel(xs, ys, w)
    ensures !Nonzero(w)
    decreases |w|
  {
    hide Mul, Add, Inv, Dot;
    if |w| > 0 {
      var n := |w| - 1;
      var v := Removed(xs[n], ys[n], ys, w);
      RemovedAt(xs[n], ys[n], ys, w, n);
      forall i | 0 <= i < n
        ensures Dot(CauchyRow(xs[..n][i], ys[..n]), v[..n]) == 0
      {
        RowRemoved(xs[i], xs[n], ys[n], ys, w);
        LastTermZero(CauchyRow(xs[i], ys), v);
        assert CauchyRow(xs[i], ys)[..n] == CauchyRow(xs[i], ys[..n]);
      }
      KernelTrivial(xs[..n], ys[..n], v[..n]);
      forall j | 0 <= j < n
        ensures w[j] == 0
      {
        assert v[..n][j] == 0;
        RemovedAt(xs[n], ys[n], ys, w, j);
      }
      LastWeightZero(xs[n], ys, w);
    }
  }

  lemma LastWeightZero(x: Byte, ys: Vector, w: Vector)
    requires |ys| == |w| > 0 && x != ys[|w| - 1]
    requires forall j | 0 <= j < |w| - 1 :: w[j] == 0
    requires Dot(CauchyRow(x, ys), w) == 0
    ensures w[|w| - 1] == 0
  {
    hide Mul, Xor, Inv;
    var n := |w| - 1;
    DotZeros(CauchyRow(x, ys)[..n], w[..n]);
    AddZero(Mul(CauchyRow(x, ys)[n], w[n]));
    AddDiffer(x, ys[n]);
    InvLaw(Add(x, ys[n]));
    NoZeroDivisors(CauchyRow(x, ys)[n], w[n]);
  }
}

/** The in-place Gauss-Jordan solver of the erasure decoder.

The buffers are row-major byte arrays in the source; here they are two-dimensional arrays. */
module Elimination {
  import opened Galois
  import opened GaloisField
  import opened LinearSystem

  ghost function Row(a: array2<Byte>, r: nat): (v: Vector)
    requires r < a.Length0
    reads a
    ensures |v| == a.Length1
  {
    seq(a.Length1, j requires 0 <= j < a.Length1 reads a => a[r, j])
  }

  ghost function Rows(a: array2<Byte>): (m: Matrix)
    reads a
    ensures Shape(m, a.Length0, a.Length1)
  {
    seq(a.Length0, r requires 0 <= r < a.Length0 reads a => Row(a, r))
  }

  ghost predicate Products(multiply: array2<Byte>)
    reads multiply
  {
    && multiply.Length0 == 256 && multiply.Length1 == 256
    && forall a: Byte :: ProductRow(multiply, a, 256)
  }

  lemma Lookup(multiply: array2<Byte>, a: Byte, b: Byte)
    requires Products(multiply)
    ensures multiply[a, b] == Mul(a, b)
  {
    assert ProductRow(multiply, a, 256);
  }

  /** dst[i] ^= multiply[coefficient][src[i]], over one row of each buffer. */
  method MultiplyAdd(multiply: array2<Byte>, dst: array2<Byte>, d: nat,
                     src: array2<Byte>, s: nat, coefficient: Byte)
    requires Products(multiply) && dst != multiply
    requires d < dst.Length0 && s < src.Length0 && dst.Length1 == src.Length1
    requires dst == src ==> d != s
    modifies dst
    ensures Rows(dst) == old(Rows(dst))[d := Combined(old(Row(dst, d)), coefficient, old(Row(src, s)))]
  {
    hide Mul, Add;
    for i := 0 to dst.Length1
      invariant forall j | 0 <= j < i :: dst[d, j] == Add(old(dst[d, j]), Mul(coefficient, old(src[s, j])))
      invariant forall j | i <= j < dst.Length1 :: dst[d, j] == old(dst[d, j])
      invariant forall r, j | 0 <= r < dst.Length0 && 0 <= j < dst.Length1 && r != d :: dst[r, j] == old(dst[r, j])
    {
      Lookup(multiply, coefficient, src[s, i]);
      dst[d, i] := Add(dst[d, i], multiply[coefficient, src[s, i]]);
    }
    assert Row(dst, d) == Combined(old(Row(dst, d)), coefficient, old(Row(src, s)));
    assert forall r | 0 <= r < dst.Length0 && r != d :: Row(dst, r) == old(Row(dst, r));
  }

  method ScaleRow(multiply: array2<Byte>, matrix: array2<Byte>, r: nat, scale: Byte)
    requires Products(multiply) && matrix != multiply && r < matrix.Length0
    modifies matrix
    ensures Rows(matrix) == old(Rows(matrix))[r := Scaled(scale, old(Row(matrix, r)))]
  {
    hide Mul;
    for i := 0 to matrix.Length1
      invariant forall j | 0 <= j < i :: matrix[r, j] == Mul(scale, old(matrix[r, j]))
      invariant forall j | i <= j < matrix.Length1 :: matrix[r, j] == old(matrix[r, j])
      invariant forall k, j | 0 <= k < matrix.Length0 && 0 <= j < matrix.Length1 && k != r :: matrix[k, j] == old(matrix[k, j])
    {
      Lookup(multiply, scale, matrix[r, i]);
      matrix[r, i] := multiply[scale, matrix[r, i]];
    }
    assert Row(matrix, r) == Scaled(scale, old(Row(matrix, r)));
    assert forall k | 0 <= k < matrix.Length0 && k != r :: Row(matrix, k) == old(Row(matrix, k));
  }

  method SwapRows(matrix: array2<Byte>, p: nat, q: nat)
    requires p < matrix.Length0 && q < matrix.Length0 && p != q
    modifies matrix
    ensures Rows(matrix) == old(Rows(matrix))[p := old(Row(matrix, q))][q := old(Row(matrix, p))]
  {
    for i := 0 to matrix.Length1
      invariant forall j | 0 <= j < i :: matrix[p, j] == old(matrix[q, j]) && matrix[q, j] == old(matrix[p, j])
      invariant forall j | i <= j < matrix.Length1 :: matrix[p, j] == old(matrix[p, j]) && matrix[q, j] == old(matrix[q, j])
      invariant forall k, j | 0 <= k < matrix.Length0 && 0 <= j < matrix.Length1 && k != p && k != q :: matrix[k, j] == old(matrix[k, j])
    {
      matrix[p, i], matrix[q, i] := matrix[q, i], matrix[p, i];
    }
    assert Row(matrix, p) == old(Row(matrix, q)) && Row(matrix, q) == old(Row(matrix, p));
    assert forall k | 0 <= k < matrix.Length0 && k != p && k != q :: Row(matrix, k) == old(Row(matrix, k));
  }

  /** Columns before col are columns of the identity matrix. */
  ghost predicate Reduced(m: Matrix, col: nat, width: nat)
    requires Shape(m, |m|, width) && col <= width
  {
    forall r, j | 0 <= r < |m| && 0 <= j < col :: m[r][j] == if r == j then 1 else 0
  }

  /** A column with no pivot left gives a nonzero vector that the left block maps to zero. */
  lemma NullVector(m: Matrix, col: nat) returns (x: Vector)
    requires col < |m| && Shape(m, |m|, 2 * |m|) && Reduced(m, col, 2 * |m|)
    requires forall r | col <= r < |m| :: m[r][col] == 0
    ensures |x| == |m| && Nonzero(x) && Solves(m, x + Zeros(|m|))
  {
    hide Dot;
    var n := |m|;
    x := seq(n, j requires 0 <= j < n => if j < col then m[j][col] else if j == col then 1 else 0);
    assert x[col] != 0;
    forall r | 0 <= r < n
      ensures Dot(m[r], x + Zeros(n)) == 0
    {
      NullRow(m[r], r, col, n, x);
    }
  }

  lemma NullRow(row: Vector, r: nat, col: nat, n: nat, x: Vector)
    requires r < n && col < n && |row| == 2 * n && |x| == n
    requires forall j | 0 <= j < col :: row[j] == if r == j then 1 else 0
    requires col <= r ==> row[col] == 0
    requires x[col] == 1 && (forall j | col < j < n :: x[j] == 0) && (r < col ==> x[r] == row[col])
    ensures Dot(row, x + Zeros(n)) == 0
  {
    hide Dot, Mul, Xor;
    var tail := row[col + 1..];
    var zeros := Zeros(2 * n - col - 1);
    assert row == (row[..col] + [row[col]]) + tail;
    assert x + Zeros(n) == (x[..col] + [x[col]]) + zeros;
    DotAppend(row[..col] + [row[col]], tail, x[..col] + [x[col]], zeros);
    DotAppend(row[..col], [row[col]], x[..col], [x[col]]);
    DotZeros(tail, zeros);
    DotOne(row[col], x[col]);
    MulUnit(row[col]);
    AddZero(row[col]);
    AddZero(0);
    if r < col {
      DotUnit(row[..col], r, x[..col]);
    } else {
      DotZeros(row[..col], x[..col]);
    }
  }

  lemma DotOne(a: Byte, b: Byte)
    ensures Dot([a], [b]) == Mul(a, b)
  {
    AddZero(Mul(a, b));
  }

  method FindPivot(matrix: array2<Byte>, col: nat) returns (pivot: nat)
    requires col < matrix.Length0 <= matrix.Length1
    ensures col <= pivot <= matrix.Length0
    ensures forall r | col <= r < pivot :: matrix[r, col] == 0
    ensures pivot < matrix.Length0 ==> matrix[pivot, col] != 0
  {
    pivot := col;
    while pivot < matrix.Length0 && matrix[pivot, col] == 0
      invariant col <= pivot <= matrix.Length0
      invariant forall r | col <= r < pivot :: matrix[r, col] == 0
    {
      pivot := pivot + 1;
    }
  }

  lemma EliminateStep(m: Matrix, col: nat, other: nat, width: nat)
    requires Shape(m, |m|, width) && col < |m| && other < |m| && other != col && col < width
    requires Reduced(m, col, width) && m[col][col] == 1
    ensures var m' := m[other := Combined(m[other], m[other][col], m[col])];
            Reduced(m', col, width) && m'[other][col] == 0 && m'[col] == m[col]
  {
    hide Mul, Xor;
    var f := m[other][col];
    MulUnit(f);
    AddZero(f);
    MulZero(f);
    forall j | 0 <= j < col
      ensures Combined(m[other], f, m[col])[j] == m[other][j]
    {
      AddZero(m[other][j]);
    }
  }

  method EliminateColumn(multiply: array2<Byte>, matrix: array2<Byte>, col: nat)
    requires Products(multiply) && matrix != multiply
    requires col < matrix.Length0 && matrix.Length1 == 2 * matrix.Length0
    requires Reduced(Rows(matrix), col, matrix.Length1) && matrix[col, col] == 1
    modifies matrix
    ensures Reduced(Rows(matrix), col + 1, matrix.Length1)
    ensures SameSolutions(old(Rows(matrix)), Rows(matrix), matrix.Length1)
  {
    hide Mul, Add, SameSolutions;
    var count, width := matrix.Length0, matrix.Length1;
    ghost var m0 := Rows(matrix);
    SameRefl(m0, width);
    for other := 0 to count
      invariant SameSolutions(m0, Rows(matrix), width)
      invariant Reduced(Rows(matrix), col, width) && Rows(matrix)[col][col] == 1
      invariant forall r | 0 <= r < other && r != col :: Rows(matrix)[r][col] == 0
    {
      if other != col {
        var factor := matrix[other, col];
        if factor != 0 {
          ghost var m := Rows(matrix);
          EliminateStep(m, col, other, width);
          CombineKeeps(m, other, factor, col, width);
          MultiplyAdd(multiply, matrix, other, matrix, col, factor);
          SameTransitive(m0, m, Rows(matrix), width);
        }
      }
    }
  }

  lemma SameRefl(m: Matrix, width: nat)
    requires Shape(m, |m|, width)
    ensures SameSolutions(m, m, width)
  {
  }

  lemma ScaleStep(m: Matrix, col: nat, width: nat)
    requires Shape(m, |m|, width) && col < |m| && col < width
    requires Reduced(m, col, width) && m[col][col] != 0
    ensures var m' := m[col := Scaled(Inv(m[col][col]), m[col])];
            Reduced(m', col, width) && m'[col][col] == 1
  {
    hide Mul, Inv;
    var c := Inv(m[col][col]);
    InvLaw(m[col][col]);
    MulZero(c);
  }

  /** Bring the pivot row into place and scale its pivot to one. */
  method NormalizePivot(multiply: array2<Byte>, inverse: array<Byte>, matrix: array2<Byte>, col: nat, pivot: nat)
    requires Tables(multiply, inverse) && matrix != multiply
    requires col <= pivot < matrix.Length0 && matrix.Length1 == 2 * matrix.Length0
    requires Reduced(Rows(matrix), col, matrix.Length1) && matrix[pivot, col] != 0
    modifies matrix
    ensures Reduced(Rows(matrix), col, matrix.Length1) && matrix[col, col] == 1
    ensures SameSolutions(old(Rows(matrix)), Rows(matrix), matrix.Length1)
  {
    hide Mul, Inv, SameSolutions;
    var width := matrix.Length1;
    ghost var m0 := Rows(matrix);
    SameRefl(m0, width);
    if pivot != col {
      SwapKeeps(m0, col, pivot, width);
      SwapRows(matrix, col, pivot);
    }
    ghost var m := Rows(matrix);
    assert Reduced(m, col, width) && m[col][col] != 0;
    var scale := inverse[matrix[col, col]];
    assert InverseRow(inverse, matrix[col, col]);
    ScaleStep(m, col, width);
    InvLaw(m[col][col]);
    ScaleKeeps(m, col, scale, width);
    ScaleRow(multiply, matrix, col, scale);
    SameTransitive(m0, m, Rows(matrix), width);
    assert Rows(matrix)[col][col] == 1;
  }

  /** The solver. It keeps the solution set; it succeeds with the identity on the left,
      or fails and the left block was singular. */
  method GaussJordan(multiply: array2<Byte>, inverse: array<Byte>, matrix: array2<Byte>) returns (ok: bool)
    requires Tables(multiply, inverse) && matrix != multiply
    requires matrix.Length1 == 2 * matrix.Length0
    modifies matrix
    ensures SameSolutions(old(Rows(matrix)), Rows(matrix), matrix.Length1)
    ensures ok ==> Reduced(Rows(matrix), matrix.Length0, matrix.Length1)
    ensures !ok ==> exists x: Vector :: |x| == matrix.Length0 && Nonzero(x)
                      && Solves(old(Rows(matrix)), x + Zeros(matrix.Length0))
  {
    hide Mul, Inv, Dot, SameSolutions;
    var count, width := matrix.Length0, matrix.Length1;
    ghost var m0 := Rows(matrix);
    SameRefl(m0, width);
    for col := 0 to count
      invariant SameSolutions(m0, Rows(matrix), width)
      invariant Reduced(Rows(matrix), col, width)
    {
      var pivot := FindPivot(matrix, col);
      if pivot == count {
        ghost var x := NullVector(Rows(matrix), col);
        SameAt(m0, Rows(matrix), width, x + Zeros(count));
        return false;
      }
      ghost var m1 := Rows(matrix);
      NormalizePivot(multiply, inverse, matrix, col, pivot);
      ghost var m2 := Rows(matrix);
      EliminateColumn(multiply, matrix, col);
      SameTransitive(m0, m1, m2, width);
      SameTransitive(m0, m2, Rows(matrix), width);
    }
    return true;
  }

  lemma SameAt(m: Matrix, m': Matrix, width: nat, z: Vector)
    requires Shape(m, |m|, width) && Shape(m', |m'|, width) && |z| == width
    requires SameSolutions(m, m', width)
    ensures Solves(m, z) <==> Solves(m', z)
  {
  }
}

/** The systematic erasure code the receiver decodes: data shards followed by Cauchy parity shards. */
module ErasureCode {
  import opened Galois
  import opened LinearSystem
  import opened Cauchy
  import opened Elimination

  /** The bytes at position p of every shard. */
  ghost function Column(d: Matrix, p: nat): (v: Vector)
    requires forall i | 0 <= i < |d| :: p < |d[i]|
    ensures |v| == |d|
  {
    seq(|d|, i requires 0 <= i < |d| => d[i][p])
  }

  /** parity[row][col] = inverse[(m + col) xor row], the coefficients on the wire. */
  ghost function Coefficients(m: nat, row: nat, k: nat): (v: Vector)
    requires row < m && m + k <= 255
    ensures |v| == k
  {
    CauchyRow(row, seq(k, c requires 0 <= c < k => m + c))
  }

  ghost function ParityShard(d: Matrix, m: nat, row: nat, size: nat): (v: Vector)
    requires Shape(d, |d|, size) && row < m && m + |d| <= 255
    ensures |v| == size
  {
    seq(size, p requires 0 <= p < size => Dot(Coefficients(m, row, |d|), Column(d, p)))
  }

  /** The i-th shard the sender transmits for the data block d with m parity shards. */
  ghost function Shard(d: Matrix, m: nat, size: nat, i: nat): (v: Vector)
    requires Shape(d, |d|, size) && i < |d| + m && (m > 0 ==> m + |d| <= 255)
    ensures |v| == size
  {
    if i < |d| then d[i] else ParityShard(d, m, i - |d|, size)
  }

  /** Every shard marked present is the one the sender transmits for d. */
  ghost predicate Agrees(shards: Matrix, present: seq<bool>, d: Matrix, m: nat, size: nat)
    requires Shape(d, |d|, size) && (m > 0 ==> m + |d| <= 255)
    requires |present| == |d| + m && Shape(shards, |d| + m, size)
  {
    forall i | 0 <= i < |d| + m && present[i] :: shards[i] == Shard(d, m, size, i)
  }

  // ---- which shards are there ----

  /** The positions below n whose flag equals want, in increasing order. */
  function Indices(flags: seq<bool>, n: nat, want: bool): (r: seq<nat>)
    requires n <= |flags|
  {
    if n == 0 then []
    else if flags[n - 1] == want then Indices(flags, n - 1, want) + [n - 1]
    else Indices(flags, n - 1, want)
  }

  lemma {:induction false} IndicesSound(flags: seq<bool>, n: nat, want: bool)
    requires n <= |flags|
    ensures forall j | 0 <= j < |Indices(flags, n, want)| ::
              Indices(flags, n, want)[j] < n && flags[Indices(flags, n, want)[j]] == want
    ensures forall i, j | 0 <= i < j < |Indices(flags, n, want)| ::
              Indices(flags, n, want)[i] < Indices(flags, n, want)[j]
    ensures |Indices(flags, n, want)| <= n
  {
    if n > 0 {
      IndicesSound(flags, n - 1, want);
    }
  }

  lemma {:induction false} IndicesComplete(flags: seq<bool>, n: nat, want: bool, i: nat)
    requires n <= |flags| && i < n && flags[i] == want
    ensures i in Indices(flags, n, want)
  {
    if i < n - 1 {
      IndicesComplete(flags, n - 1, want, i);
    }
  }

  lemma {:induction false} IndicesSplit(flags: seq<bool>, n: nat)
    requires n <= |flags|
    ensures |Indices(flags, n, true)| + |Indices(flags, n, false)| == n
  {
    if n > 0 {
      IndicesSplit(flags, n - 1);
    }
  }

  function Select(v: Vector, at: seq<nat>): (r: Vector)
    requires forall j | 0 <= j < |at| :: at[j] < |v|
    ensures |r| == |at|
  {
    seq(|at|, j requires 0 <= j < |at| => v[at[j]])
  }

  ghost predicate Within(at: seq<nat>, n: nat) {
    forall j | 0 <= j < |at| :: at[j] < n
  }

  /** The part of a dot product over the positions whose flag equals want. */
  ghost function Part(a: Vector, b: Vector, flags: seq<bool>, n: nat, want: bool): (r: Byte)
    requires |a| == |b| && n <= |a| && n <= |flags|
  {
    IndicesSound(flags, n, want);
    Dot(Select(a, Indices(flags, n, want)), Select(b, Indices(flags, n, want)))
  }

  lemma PartStep(a: Vector, b: Vector, flags: seq<bool>, n: nat, want: bool)
    requires |a| == |b| && 0 < n <= |a| && n <= |flags|
    ensures Part(a, b, flags, n, want)
         == if flags[n - 1] == want then Add(Part(a, b, flags, n - 1, want), Mul(a[n - 1], b[n - 1]))
            else Part(a, b, flags, n - 1, want)
  {
    hide Mul, Xor;
    IndicesSound(flags, n, want);
    IndicesSound(flags, n - 1, want);
    if flags[n - 1] == want {
      var at := Indices(flags, n - 1, want);
      assert Select(a, at + [n - 1])[..|at|] == Select(a, at);
      assert Select(b, at + [n - 1])[..|at|] == Select(b, at);
    }
  }

  /** A dot product is the sum over the present and over the missing positions. */
  lemma {:induction false} SplitDot(a: Vector, b: Vector, flags: seq<bool>, n: nat)
    requires |a| == |b| && n <= |a| && n <= |flags|
    ensures Dot(a[..n], b[..n]) == Add(Part(a, b, flags, n, true), Part(a, b, flags, n, false))
  {
    hide Mul, Xor, Part;
    if n == 0 {
      PartEmpty(a, b, flags, true);
      PartEmpty(a, b, flags, false);
      AddZero(0);
    } else {
      SplitDot(a, b, flags, n - 1);
      PartStep(a, b, flags, n, true);
      PartStep(a, b, flags, n, false);
      assert a[..n][..n - 1] == a[..n - 1] && b[..n][..n - 1] == b[..n - 1];
      var p, q, t := Part(a, b, flags, n - 1, true), Part(a, b, flags, n - 1, false), Mul(a[n - 1], b[n - 1]);
      AddAssoc(p, q, t);
      AddComm(q, t);
      AddAssoc(p, t, q);
    }
  }

  lemma PartEmpty(a: Vector, b: Vector, flags: seq<bool>, want: bool)
    requires |a| == |b|
    ensures Part(a, b, flags, 0, want) == 0
  {
  }

  // ---- the linear system of the missing shards ----

  /** Points of the missing columns: m + missing[j]. */
  ghost function Points(m: nat, missing: seq<nat>): (v: Vector)
    requires forall j | 0 <= j < |missing| :: m + missing[j] < 256
    ensures |v| == |missing|
  {
    seq(|missing|, j requires 0 <= j < |missing| => m + missing[j])
  }

  ghost predicate InitialMatrix(mat: Matrix, xs: Vector, ys: Vector)
    requires |xs| == |ys|
  {
    Shape(mat, |xs|, 2 * |xs|) && forall r | 0 <= r < |xs| :: mat[r] == CauchyRow(xs[r], ys) + Unit(|xs|, r)
  }

  /** The elimination can never run out of pivots. */
  lemma NonSingular(mat: Matrix, xs: Vector, ys: Vector, x: Vector)
    requires |xs| == |ys| == |x| && InitialMatrix(mat, xs, ys)
    requires Distinct(xs) && Distinct(ys) && Apart(xs, ys)
    requires Solves(mat, x + Zeros(|x|))
    ensures !Nonzero(x)
  {
    hide Dot, Xor, CauchyRow;
    var n := |x|;
    forall i | 0 <= i < n
      ensures Dot(CauchyRow(xs[i], ys), x) == 0
    {
      DotAppend(CauchyRow(xs[i], ys), Unit(n, i), x, Zeros(n));
      DotZeros(Unit(n, i), Zeros(n));
      AddZero(Dot(CauchyRow(xs[i], ys), x));
      assert Dot(mat[i], x + Zeros(n)) == 0;
    }
    KernelTrivial(xs, ys, x);
  }

  /** Once the left block is the identity, the right block maps the knowns y back to x. */
  lemma Recover(mat: Matrix, mat': Matrix, xs: Vector, ys: Vector, x: Vector, y: Vector, r: nat)
    requires |xs| == |ys| == |x| == |y| && r < |x| && InitialMatrix(mat, xs, ys)
    requires Shape(mat', |xs|, 2 * |xs|) && Reduced(mat', |xs|, 2 * |xs|)
    requires SameSolutions(mat, mat', 2 * |xs|)
    requires forall i | 0 <= i < |y| :: y[i] == Dot(CauchyRow(xs[i], ys), x)
    ensures Dot(mat'[r][|xs|..], y) == x[r]
  {
    hide Dot, Xor, CauchyRow;
    var n := |x|;
    forall i | 0 <= i < n
      ensures Dot(mat[i], x + y) == 0
    {
      DotAppend(CauchyRow(xs[i], ys), Unit(n, i), x, y);
      DotUnit(Unit(n, i), i, y);
      AddZero(y[i]);
    }
    assert Solves(mat', x + y);
    var row := mat'[r];
    assert row == row[..n] + row[n..];
    DotAppend(row[..n], row[n..], x, y);
    DotUnit(row[..n], r, x);
    AddDiffer(x[r], Dot(row[n..], y));
  }
}

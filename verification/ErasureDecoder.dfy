/** Reconstruction of missing data shards from whichever parity shards arrived. */
module ErasureDecoder {
  import opened Galois
  import opened GaloisField
  import opened LinearSystem
  import opened Cauchy
  import opened Elimination
  import opened ErasureCode

  const MAX_SHARDS := 255

  lemma {:induction false} IndicesPrefix(flags: seq<bool>, i: nat, n: nat, want: bool)
    requires i <= n <= |flags|
    ensures Indices(flags, i, want) <= Indices(flags, n, want)
    decreases n
  {
    if i < n {
      IndicesPrefix(flags, i, n - 1, want);
    }
  }

  /** The missing data shards; gives up when the fixed table of 255 entries is full. */
  method ScanMissing(present: array<bool>, k: nat) returns (missing: seq<nat>, full: bool)
    requires k <= present.Length
    ensures full <==> |Indices(present[..], k, false)| > MAX_SHARDS
    ensures !full ==> missing == Indices(present[..], k, false)
  {
    missing, full := [], false;
    for i := 0 to k
      invariant !full && |missing| <= MAX_SHARDS && missing == Indices(present[..], i, false)
    {
      if !present[i] {
        if |missing| == MAX_SHARDS {
          IndicesPrefix(present[..], i + 1, k, false);
          full := true;
          return;
        }
        missing := missing + [i];
      }
    }
  }

  /** The first count parity shards that are present, or all of them when there are fewer. */
  method ScanParity(present: array<bool>, k: nat, m: nat, count: nat) returns (parity: seq<nat>)
    requires present.Length == k + m
    ensures parity <= Indices(present[k..], m, true) && |parity| <= count
    ensures |parity| == count <==> |Indices(present[k..], m, true)| >= count
  {
    parity := [];
    ghost var flags := present[k..];
    var i := 0;
    while i < m && |parity| < count
      invariant i <= m && |parity| <= count && parity == Indices(flags, i, true)
    {
      assert flags[i] == present[k + i];
      if present[k + i] {
        parity := parity + [i];
      }
      i := i + 1;
    }
    IndicesPrefix(flags, i, m, true);
  }

  /** A parity shard minus the contribution of the data shards known among the first c. */
  ghost function Known(s: Matrix, present: seq<bool>, k: nat, m: nat, x: nat, c: nat, size: nat): (v: Vector)
    requires x < m && m + k <= 255 && c <= k && |present| == k + m && Shape(s, k + m, size)
    ensures |v| == size
  {
    seq(size, p requires 0 <= p < size =>
      Add(s[k + x][p], Part(Coefficients(m, x, k), Column(s[..k], p), present, c, true)))
  }

  lemma KnownStart(s: Matrix, present: seq<bool>, k: nat, m: nat, x: nat, size: nat)
    requires x < m && m + k <= 255 && |present| == k + m && Shape(s, k + m, size)
    ensures Known(s, present, k, m, x, 0, size) == s[k + x]
  {
    hide Xor, Coefficients;
    forall p | 0 <= p < size
      ensures Known(s, present, k, m, x, 0, size)[p] == s[k + x][p]
    {
      AddZero(s[k + x][p]);
    }
  }

  lemma KnownStep(s: Matrix, present: seq<bool>, k: nat, m: nat, x: nat, c: nat, size: nat)
    requires x < m && m + k <= 255 && c < k && |present| == k + m && Shape(s, k + m, size)
    ensures Known(s, present, k, m, x, c + 1, size)
         == if present[c] then Combined(Known(s, present, k, m, x, c, size), Coefficients(m, x, k)[c], s[c])
            else Known(s, present, k, m, x, c, size)
  {
    hide Xor, Mul, Coefficients, Part;
    var a := Coefficients(m, x, k);
    forall p | 0 <= p < size
      ensures Known(s, present, k, m, x, c + 1, size)[p]
           == if present[c] then Add(Known(s, present, k, m, x, c, size)[p], Mul(a[c], s[c][p]))
              else Known(s, present, k, m, x, c, size)[p]
    {
      var b := Column(s[..k], p);
      PartStep(a, b, present, c + 1, true);
      AddAssoc(s[k + x][p], Part(a, b, present, c, true), Mul(a[c], b[c]));
    }
  }

  /** inverse[(m + col) ^ row], the coefficient the decoder looks up. */
  lemma CoefficientAt(m: nat, x: nat, k: nat, c: nat)
    requires x < m && m + k <= 255 && c < k
    ensures Coefficients(m, x, k)[c] == Inv(Add(m + c, x))
  {
    AddComm(x, m + c);
  }

  /** rhs[row] becomes the parity shard with every known data shard subtracted. */
  method BuildKnown(multiply: array2<Byte>, inverse: array<Byte>, shards: array2<Byte>, present: array<bool>,
                    rhs: array2<Byte>, row: nat, k: nat, m: nat, x: nat)
    requires Tables(multiply, inverse) && rhs != multiply && rhs != shards
    requires x < m && m + k <= 255 && present.Length == k + m
    requires shards.Length0 == k + m && shards.Length1 == rhs.Length1 && row < rhs.Length0
    modifies rhs
    ensures Rows(rhs) == old(Rows(rhs))[row := Known(Rows(shards), present[..], k, m, x, k, rhs.Length1)]
  {
    hide Mul, Add, Inv, Known, Coefficients;
    ghost var s, size := Rows(shards), rhs.Length1;
    for p := 0 to rhs.Length1
      invariant forall j | 0 <= j < p :: rhs[row, j] == shards[k + x, j]
      invariant forall r, j | 0 <= r < rhs.Length0 && 0 <= j < rhs.Length1 && r != row :: rhs[r, j] == old(rhs[r, j])
    {
      rhs[row, p] := shards[k + x, p];
    }
    assert Row(rhs, row) == s[k + x];
    assert forall r | 0 <= r < rhs.Length0 && r != row :: Row(rhs, r) == old(Row(rhs, r));
    KnownStart(s, present[..], k, m, x, size);
    for col := 0 to k
      invariant Rows(rhs) == old(Rows(rhs))[row := Known(s, present[..], k, m, x, col, size)]
      invariant Rows(shards) == s && Tables(multiply, inverse)
    {
      KnownStep(s, present[..], k, m, x, col, size);
      if present[col] {
        CoefficientAt(m, x, k, col);
        assert InverseRow(inverse, Add(m + col, x));
        assert Row(rhs, row) == Rows(rhs)[row] && Row(shards, col) == s[col];
        MultiplyAdd(multiply, rhs, row, shards, col, inverse[Add(m + col, x)]);
        assert Rows(rhs) == old(Rows(rhs))[row := Known(s, present[..], k, m, x, col + 1, size)];
      }
    }
  }

  /** One equation: the Cauchy coefficients of the missing columns, then a unit vector. */
  method BuildEquation(inverse: array<Byte>, matrix: array2<Byte>, row: nat, m: nat, missing: seq<nat>, x: Byte)
    requires inverse.Length == 256 && forall a: Byte :: InverseRow(inverse, a)
    requires forall j | 0 <= j < |missing| :: m + missing[j] < 256
    requires matrix.Length0 == |missing| && matrix.Length1 == 2 * |missing| && row < |missing|
    requires Row(matrix, row) == Zeros(2 * |missing|)
    modifies matrix
    ensures Rows(matrix) == old(Rows(matrix))[row := CauchyRow(x, Points(m, missing)) + Unit(|missing|, row)]
  {
    hide Add, Inv;
    var count := |missing|;
    assert forall j | 0 <= j < 2 * count :: matrix[row, j] == Row(matrix, row)[j];
    for col := 0 to count
      invariant forall j | 0 <= j < col :: matrix[row, j] == Inv(Add(x, m + missing[j]))
      invariant forall j | count <= j < 2 * count :: matrix[row, j] == 0
      invariant forall r, j | 0 <= r < count && 0 <= j < 2 * count && r != row :: matrix[r, j] == old(matrix[r, j])
    {
      AddComm(m + missing[col], x);
      assert InverseRow(inverse, Add(m + missing[col], x));
      matrix[row, col] := inverse[Add(m + missing[col], x)];
    }
    matrix[row, count + row] := 1;
    assert Row(matrix, row) == CauchyRow(x, Points(m, missing)) + Unit(count, row);
    assert forall r | 0 <= r < count && r != row :: Row(matrix, r) == old(Row(matrix, r));
  }

  /** The first n rows of rhs, weighted by c and added up. */
  ghost function Weighted(rhs: Matrix, c: Vector, n: nat, size: nat): (v: Vector)
    requires Shape(rhs, |c|, size) && n <= |c|
    ensures |v| == size
  {
    seq(size, p requires 0 <= p < size => Dot(c[..n], Column(rhs, p)[..n]))
  }

  lemma WeightedStep(rhs: Matrix, c: Vector, n: nat, size: nat)
    requires Shape(rhs, |c|, size) && n < |c|
    ensures Weighted(rhs, c, n + 1, size) == Combined(Weighted(rhs, c, n, size), c[n], rhs[n])
  {
    hide Mul, Xor;
    forall p | 0 <= p < size
      ensures Weighted(rhs, c, n + 1, size)[p] == Add(Weighted(rhs, c, n, size)[p], Mul(c[n], rhs[n][p]))
    {
      var y := Column(rhs, p);
      assert c[..n + 1][..n] == c[..n] && y[..n + 1][..n] == y[..n];
    }
  }

  /** Overwrite one missing shard with the solver's combination of the right-hand sides. */
  method RestoreShard(multiply: array2<Byte>, matrix: array2<Byte>, rhs: array2<Byte>, row: nat,
                      shards: array2<Byte>, dst: nat)
    requires Products(multiply) && shards != multiply && shards != matrix && shards != rhs
    requires matrix.Length1 == 2 * matrix.Length0 && rhs.Length0 == matrix.Length0 && row < matrix.Length0
    requires shards.Length1 == rhs.Length1 && dst < shards.Length0
    modifies shards
    ensures Rows(shards) == old(Rows(shards))[dst :=
              Weighted(Rows(rhs), Rows(matrix)[row][matrix.Length0..], matrix.Length0, rhs.Length1)]
  {
    hide Mul, Add, Weighted;
    var count, size := matrix.Length0, shards.Length1;
    ghost var y, c := Rows(rhs), Rows(matrix)[row][count..];
    for p := 0 to size
      invariant forall j | 0 <= j < p :: shards[dst, j] == 0
      invariant forall r, j | 0 <= r < shards.Length0 && 0 <= j < size && r != dst :: shards[r, j] == old(shards[r, j])
    {
      shards[dst, p] := 0;
    }
    WeightedStart(y, c, size);
    assert Row(shards, dst) == Weighted(y, c, 0, size);
    assert forall r | 0 <= r < shards.Length0 && r != dst :: Row(shards, r) == old(Row(shards, r));
    for col := 0 to count
      invariant Rows(shards) == old(Rows(shards))[dst := Weighted(y, c, col, size)]
      invariant Rows(rhs) == y && Rows(matrix)[row][count..] == c && Products(multiply)
    {
      WeightedStep(y, c, col, size);
      assert matrix[row, count + col] == Rows(matrix)[row][count + col] == c[col];
      assert Row(shards, dst) == Rows(shards)[dst] && Row(rhs, col) == y[col];
      MultiplyAdd(multiply, shards, dst, rhs, col, matrix[row, count + col]);
      assert Rows(shards) == old(Rows(shards))[dst := Weighted(y, c, col + 1, size)];
    }
  }

  lemma WeightedStart(rhs: Matrix, c: Vector, size: nat)
    requires Shape(rhs, |c|, size)
    ensures Weighted(rhs, c, 0, size) == Zeros(size)
  {
  }

  // ---- why the combination is the lost shard ----

  lemma SelectPresent(s: Matrix, present: seq<bool>, d: Matrix, p: nat, size: nat)
    requires |s| >= |d| && |present| >= |d| && p < size
    requires Shape(d, |d|, size) && (forall i | 0 <= i < |s| :: |s[i]| == size)
    requires forall i | 0 <= i < |d| && present[i] :: s[i] == d[i]
    ensures forall a: Vector | |a| == |d| ::
              Part(a, Column(s[..|d|], p), present, |d|, true) == Part(a, Column(d, p), present, |d|, true)
  {
    hide Dot;
    IndicesSound(present, |d|, true);
    var at := Indices(present, |d|, true);
    assert Select(Column(s[..|d|], p), at) == Select(Column(d, p), at);
  }

  /** With a genuine block, the known part of a parity shard is the missing part of the sum. */
  lemma KnownIsMissingSum(s: Matrix, present: seq<bool>, d: Matrix, m: nat, x: nat, size: nat, p: nat)
    requires x < m && m + |d| <= 255 && |present| == |d| + m && Shape(s, |d| + m, size) && p < size
    requires Shape(d, |d|, size) && Agrees(s, present, d, m, size) && present[|d| + x]
    ensures Known(s, present, |d|, m, x, |d|, size)[p]
         == Part(Coefficients(m, x, |d|), Column(d, p), present, |d|, false)
  {
    hide Dot, Xor, Part, Coefficients;
    var k := |d|;
    var a, b := Coefficients(m, x, k), Column(d, p);
    SelectPresent(s, present, d, p, size);
    assert s[k + x] == Shard(d, m, size, k + x);
    assert s[k + x][p] == Dot(a, b);
    SplitDot(a, b, present, k);
    assert a[..k] == a && b[..k] == b;
    var t, f := Part(a, b, present, k, true), Part(a, b, present, k, false);
    AddComm(t, f);
    AddAssoc(f, t, t);
    AddZero(t);
    AddZero(f);
  }

  lemma SelectCoefficients(present: seq<bool>, k: nat, m: nat, x: nat)
    requires x < m && m + k <= 255 && |present| == k + m
    ensures Within(Indices(present, k, false), k)
    ensures Select(Coefficients(m, x, k), Indices(present, k, false))
         == CauchyRow(x, Points(m, Indices(present, k, false)))
  {
    IndicesSound(present, k, false);
  }

  // ---- the whole reconstruction ----

  ghost predicate Chosen(parity: seq<nat>, present: seq<bool>, k: nat, m: nat) {
    && |present| == k + m
    && (forall j | 0 <= j < |parity| :: parity[j] < m && present[k + parity[j]])
    && (forall i, j | 0 <= i < j < |parity| :: parity[i] < parity[j])
  }

  lemma ChosenParity(present: seq<bool>, k: nat, m: nat, parity: seq<nat>)
    requires |present| == k + m && parity <= Indices(present[k..], m, true)
    ensures Chosen(parity, present, k, m)
  {
    IndicesSound(present[k..], m, true);
  }

  ghost function RightSides(s: Matrix, present: seq<bool>, k: nat, m: nat, parity: seq<nat>, size: nat): (v: Matrix)
    requires m + k <= 255 && |present| == k + m && Shape(s, k + m, size) && Within(parity, m)
    ensures Shape(v, |parity|, size)
  {
    seq(|parity|, r requires 0 <= r < |parity| => Known(s, present, k, m, parity[r], k, size))
  }

  method BuildSystem(multiply: array2<Byte>, inverse: array<Byte>, shards: array2<Byte>, present: array<bool>,
                     k: nat, m: nat, missing: seq<nat>, parity: seq<nat>)
      returns (matrix: array2<Byte>, rhs: array2<Byte>)
    requires Tables(multiply, inverse) && m + k <= 255
    requires present.Length == k + m && shards.Length0 == k + m
    requires |missing| == |parity| && Within(missing, k) && Within(parity, m)
    ensures fresh(matrix) && fresh(rhs) && matrix != rhs
    ensures matrix.Length0 == |missing| && matrix.Length1 == 2 * |missing|
    ensures rhs.Length0 == |missing| && rhs.Length1 == shards.Length1
    ensures InitialMatrix(Rows(matrix), parity, Points(m, missing))
    ensures Rows(rhs) == RightSides(Rows(shards), present[..], k, m, parity, shards.Length1)
  {
    hide Known, CauchyRow, Inv, Mul;
    var count, size := |missing|, shards.Length1;
    matrix := new Byte[count, 2 * count]((_, _) => 0);
    rhs := new Byte[count, size]((_, _) => 0);
    ghost var s, ys := Rows(shards), Points(m, missing);
    for row := 0 to count
      invariant Tables(multiply, inverse)
      invariant forall r | 0 <= r < row :: Rows(matrix)[r] == CauchyRow(parity[r], ys) + Unit(count, r)
      invariant forall r | row <= r < count :: Rows(matrix)[r] == Zeros(2 * count)
      invariant forall r | 0 <= r < row :: Rows(rhs)[r] == Known(s, present[..], k, m, parity[r], k, size)
    {
      assert Row(matrix, row) == Rows(matrix)[row];
      BuildEquation(inverse, matrix, row, m, missing, parity[row]);
      BuildKnown(multiply, inverse, shards, present, rhs, row, k, m, parity[row]);
    }
  }

  lemma PivotsExist(mat: Matrix, present: seq<bool>, k: nat, m: nat, parity: seq<nat>)
    requires m + k <= 255 && Chosen(parity, present, k, m)
    requires |parity| == |Indices(present, k, false)|
    ensures Within(Indices(present, k, false), k)
    ensures InitialMatrix(mat, parity, Points(m, Indices(present, k, false))) ==>
              !exists x: Vector :: |x| == |parity| && Nonzero(x) && Shape(mat, |mat|, 2 * |parity|) && Solves(mat, x + Zeros(|x|))
  {
    hide Dot, CauchyRow;
    IndicesSound(present, k, false);
    var ys := Points(m, Indices(present, k, false));
    if InitialMatrix(mat, parity, ys) {
      forall x: Vector | |x| == |parity| && Shape(mat, |mat|, 2 * |parity|) && Solves(mat, x + Zeros(|x|))
        ensures !Nonzero(x)
      {
        NonSingular(mat, parity, ys, x);
      }
    }
  }

  /** What the caller can count on: enough distinct shards and enough memory. */
  ghost predicate Recoverable(present: seq<bool>, k: nat, m: nat, memory: bool)
    requires |present| == k + m
  {
    var lost := |Indices(present, k, false)|;
    lost == 0 || (k + m <= MAX_SHARDS && lost <= |Indices(present[k..], m, true)| && memory)
  }

  lemma RestoredShard(s: Matrix, present: seq<bool>, d: Matrix, m: nat, parity: seq<nat>, size: nat,
                      mat: Matrix, mat': Matrix, r: nat)
    requires m + |d| <= 255 && Chosen(parity, present, |d|, m) && Shape(s, |d| + m, size) && Shape(d, |d|, size)
    requires Agrees(s, present, d, m, size)
    requires |parity| == |Indices(present, |d|, false)| && r < |parity|
    requires Within(Indices(present, |d|, false), |d|)
    requires InitialMatrix(mat, parity, Points(m, Indices(present, |d|, false)))
    requires Shape(mat', |parity|, 2 * |parity|) && Reduced(mat', |parity|, 2 * |parity|)
    requires SameSolutions(mat, mat', 2 * |parity|)
    ensures Weighted(RightSides(s, present, |d|, m, parity, size), mat'[r][|parity|..], |parity|, size)
         == d[Indices(present, |d|, false)[r]]
  {
    hide Dot, Xor, CauchyRow, Known, Coefficients, Reduced, SameSolutions, InitialMatrix;
    var k, n, missing := |d|, |parity|, Indices(present, |d|, false);
    var rhs := RightSides(s, present, k, m, parity, size);
    var c := mat'[r][n..];
    forall p | 0 <= p < size
      ensures Weighted(rhs, c, n, size)[p] == d[missing[r]][p]
    {
      var x, y := Select(Column(d, p), missing), Column(rhs, p);
      forall i | 0 <= i < n
        ensures y[i] == Dot(CauchyRow(parity[i], Points(m, missing)), x)
      {
        KnownIsMissingSum(s, present, d, m, parity[i], size, p);
        SelectCoefficients(present, k, m, parity[i]);
      }
      Recover(mat, mat', parity, Points(m, missing), x, y, r);
      assert c[..n] == c && y[..n] == y;
    }
  }

  ghost predicate Increasing(at: seq<nat>) {
    forall i, j | 0 <= i < j < |at| :: at[i] < at[j]
  }

  /** t is s with each missing shard replaced by the solver's combination for it. */
  ghost predicate Replaced(s: Matrix, t: Matrix, missing: seq<nat>, rhs: Matrix, mat: Matrix, n: nat, size: nat)
    requires Shape(rhs, |missing|, size) && Shape(mat, |missing|, 2 * |missing|)
    requires |s| == |t| && Within(missing, |s|) && n <= |missing|
  {
    && (forall r | 0 <= r < n :: t[missing[r]] == Weighted(rhs, mat[r][|missing|..], |missing|, size))
    && (forall i | 0 <= i < |s| && i !in missing[..n] :: t[i] == s[i])
  }

  method RestoreAll(multiply: array2<Byte>, matrix: array2<Byte>, rhs: array2<Byte>, shards: array2<Byte>, missing: seq<nat>)
    requires Products(multiply) && shards != multiply && shards != matrix && shards != rhs
    requires matrix.Length0 == |missing| && matrix.Length1 == 2 * |missing| && rhs.Length0 == |missing|
    requires shards.Length1 == rhs.Length1 && Within(missing, shards.Length0) && Increasing(missing)
    modifies shards
    ensures Replaced(old(Rows(shards)), Rows(shards), missing, Rows(rhs), Rows(matrix), |missing|, rhs.Length1)
  {
    hide Mul, Weighted;
    ghost var s, y, mat, size := Rows(shards), Rows(rhs), Rows(matrix), rhs.Length1;
    for row := 0 to |missing|
      invariant Products(multiply) && Rows(rhs) == y && Rows(matrix) == mat
      invariant Replaced(s, Rows(shards), missing, y, mat, row, size)
    {
      RestoreShard(multiply, matrix, rhs, row, shards, missing[row]);
      assert missing[..row + 1] == missing[..row] + [missing[row]];
    }
    assert missing[..|missing|] == missing;
  }

  lemma RestoredAll(s: Matrix, present: seq<bool>, d: Matrix, m: nat, parity: seq<nat>, size: nat,
                    mat: Matrix, mat': Matrix, t: Matrix)
    requires m + |d| <= 255 && Chosen(parity, present, |d|, m) && Shape(s, |d| + m, size) && Shape(d, |d|, size)
    requires Agrees(s, present, d, m, size)
    requires |parity| == |Indices(present, |d|, false)| && Within(Indices(present, |d|, false), |d|)
    requires InitialMatrix(mat, parity, Points(m, Indices(present, |d|, false)))
    requires Shape(mat', |parity|, 2 * |parity|) && Reduced(mat', |parity|, 2 * |parity|)
    requires SameSolutions(mat, mat', 2 * |parity|)
    requires |t| == |s| && Replaced(s, t, Indices(present, |d|, false),
               RightSides(s, present, |d|, m, parity, size), mat', |parity|, size)
    ensures t[..|d|] == d
  {
    hide Weighted, RightSides, InitialMatrix, Reduced, SameSolutions;
    var missing := Indices(present, |d|, false);
    IndicesSound(present, |d|, false);
    forall i | 0 <= i < |d|
      ensures t[i] == d[i]
    {
      if present[i] {
        assert s[i] == Shard(d, m, size, i);
        assert i !in missing;
      } else {
        IndicesComplete(present, |d|, false, i);
        var r :| 0 <= r < |missing| && missing[r] == i;
        RestoredShard(s, present, d, m, parity, size, mat, mat', r);
      }
    }
  }

  lemma AllPresent(s: Matrix, present: seq<bool>, d: Matrix, m: nat, size: nat)
    requires Shape(d, |d|, size) && (m > 0 ==> m + |d| <= 255)
    requires |present| == |d| + m && Shape(s, |d| + m, size) && |Indices(present, |d|, false)| == 0
    ensures Agrees(s, present, d, m, size) ==> s[..|d|] == d
  {
    forall i | 0 <= i < |d|
      ensures present[i]
    {
      if !present[i] {
        IndicesComplete(present, |d|, false, i);
      }
    }
    assert Agrees(s, present, d, m, size) ==> forall i | 0 <= i < |d| :: s[i] == Shard(d, m, size, i);
  }

  /** Rebuild the missing data shards in place. For every data block d whose shards arrived
      unaltered, success leaves exactly the data shards of d. */
  method Reconstruct(multiply: array2<Byte>, inverse: array<Byte>, shards: array2<Byte>, present: array<bool>,
                     k: nat, m: nat, memory: bool)
      returns (ok: bool, noMemory: bool)
    requires Tables(multiply, inverse) && shards != multiply
    requires present.Length == k + m && shards.Length0 == k + m
    modifies shards
    ensures ok <==> Recoverable(present[..], k, m, memory)
    ensures noMemory <==> !ok && Recoverable(present[..], k, m, true)
    ensures !ok ==> Rows(shards) == old(Rows(shards))
    ensures forall i | 0 <= i < k + m && (present[i] || i >= k) :: Rows(shards)[i] == old(Rows(shards))[i]
    ensures ok && (m > 0 ==> k + m <= MAX_SHARDS) ==>
              Restores(old(Rows(shards)), present[..], k, m, shards.Length1, Rows(shards))
  {
    hide Mul, Inv, Dot, Known, Shard, Weighted, CauchyRow, Reduced, SameSolutions, InitialMatrix, Agrees;
    ghost var flags, s, size := present[..], Rows(shards), shards.Length1;
    var missing, full := ScanMissing(present, k);
    IndicesSound(flags, k, false);
    if full {
      return false, false;
    }
    var count := |missing|;
    if count == 0 {
      forall d: Matrix | (m > 0 ==> k + m <= MAX_SHARDS) && Shape(d, k, size) && Agrees(s, flags, d, m, size)
        ensures s[..k] == d
      {
        AllPresent(s, flags, d, m, size);
      }
      return true, false;
    }
    IndicesSound(present[k..], m, true);
    if m == 0 || count > m || k + m > MAX_SHARDS {
      return false, false;
    }
    var parity := ScanParity(present, k, m, count);
    if |parity| != count {
      return false, false;
    }
    if !memory {
      return false, true;
    }
    noMemory := false;
    ChosenParity(flags, k, m, parity);
    var matrix, rhs := BuildSystem(multiply, inverse, shards, present, k, m, missing, parity);
    ghost var mat := Rows(matrix);
    PivotsExist(mat, flags, k, m, parity);
    ok := GaussJordan(multiply, inverse, matrix);
    assert ok;
    if ok {
      RestoreAll(multiply, matrix, rhs, shards, missing);
    }
    forall d: Matrix | Shape(d, k, size) && Agrees(s, flags, d, m, size)
      ensures Rows(shards)[..k] == d
    {
      RestoredAll(s, flags, d, m, parity, size, mat, Rows(matrix), Rows(shards));
    }
  }

  /** t holds the data shards of every block that the present shards of s belong to. */
  ghost predicate Restores(s: Matrix, present: seq<bool>, k: nat, m: nat, size: nat, t: Matrix)
    requires |present| == k + m && Shape(s, k + m, size) && |t| == k + m && (m > 0 ==> k + m <= MAX_SHARDS)
  {
    forall d: Matrix | Shape(d, k, size) && Agrees(s, present, d, m, size) :: t[..k] == d
  }
}

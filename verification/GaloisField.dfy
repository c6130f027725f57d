/** The field laws of GF(2^8), and the tables the receiver looks products up in. */
module GaloisField {
  import opened Galois
  import opened GaloisOrder

  /** The discrete logarithm of a nonzero byte. */
  ghost function Log(a: Byte): (i: nat)
    requires a != 0
    ensures i < 255 && Exp(i) == a
  {
    assert exists i: nat :: i < 255 && Exp(i) == a by {
      var i := LogExists(a);
    }
    var i: nat :| i < 255 && Exp(i) == a;
    i
  }

  /** The multiplicative inverse; zero is its own, as in the zeroed table entry. */
  ghost function Inv(a: Byte): (r: Byte) {
    if a == 0 then 0 else Exp(255 - Log(a))
  }

  lemma MulZero(a: nat)
    ensures Mul(a, 0) == 0 && Mul(0, 0) == 0
  {
    MulAddRight(a, 0, 0);
    AddZero(Mul(a, 0));
    AddZero(0);
  }

  lemma MulUnit(a: Byte)
    ensures Mul(a, 1) == a && Mul(1, a) == a
  {
    MulByOne(a);
    MulOne(a);
  }

  lemma MulComm(a: Byte, b: Byte)
    ensures Mul(a, b) == Mul(b, a)
  {
    hide Mul, Exp;
    if a == 0 || b == 0 {
      MulZero(a);
      MulZero(b);
      ZeroMul(a);
      ZeroMul(b);
    } else {
      MulExp(Log(a), Log(b));
      MulExp(Log(b), Log(a));
    }
  }

  lemma ZeroMul(a: Byte)
    ensures Mul(0, a) == 0
  {
  }

  lemma MulAssoc(a: Byte, b: Byte, c: Byte)
    ensures Mul(Mul(a, b), c) == Mul(a, Mul(b, c))
  {
    hide Mul, Exp;
    if a == 0 || b == 0 || c == 0 {
      MulZero(a);
      MulZero(b);
      MulZero(Mul(a, b));
      ZeroMul(b);
      ZeroMul(c);
      ZeroMul(Mul(b, c));
    } else {
      var i, j, k := Log(a), Log(b), Log(c);
      MulExp(i, j);
      MulExp(i + j, k);
      MulExp(j, k);
      MulExp(i, j + k);
    }
  }

  lemma Distribute(a: Byte, b: Byte, c: Byte)
    ensures Mul(a, Add(b, c)) == Add(Mul(a, b), Mul(a, c))
    ensures Mul(Add(b, c), a) == Add(Mul(b, a), Mul(c, a))
  {
    MulAddRight(a, b, c);
    MulAddLeft(b, c, a);
  }

  lemma InvLaw(a: Byte)
    requires a != 0
    ensures Inv(a) != 0 && Mul(a, Inv(a)) == 1 && Mul(Inv(a), a) == 1
  {
    hide Mul, Exp;
    var i := Log(a);
    MulExp(i, 255 - i);
    MulComm(a, Inv(a));
    Milestones(0);
    ExpNonzero(255 - i);
  }

  lemma NoZeroDivisors(a: Byte, b: Byte)
    ensures Mul(a, b) == 0 <==> a == 0 || b == 0
  {
    hide Mul, Exp;
    if a != 0 && b != 0 {
      MulExp(Log(a), Log(b));
      ExpNonzero(Log(a) + Log(b));
    } else {
      MulZero(a);
      ZeroMul(b);
    }
  }

  /** Moving a factor across an equation. */
  lemma Cancel(a: Byte, b: Byte)
    requires a != 0
    ensures Mul(Inv(a), Mul(a, b)) == b && Mul(a, Mul(Inv(a), b)) == b
  {
    hide Mul, Inv;
    InvLaw(a);
    MulAssoc(Inv(a), a, b);
    MulAssoc(a, Inv(a), b);
    MulUnit(b);
  }

  // ---- the tables ----

  ghost predicate PowerTables(exp: seq<Byte>, log: seq<Byte>, n: nat)
    requires n <= 255
  {
    && |exp| == 510 && |log| == 256
    && (forall i | 0 <= i < n :: exp[i] == Exp(i) && exp[i + 255] == Exp(i))
    && (forall i | 0 <= i < n :: log[Exp(i)] == i)
  }

  ghost predicate InverseRow(inverse: array<Byte>, a: Byte)
    requires inverse.Length == 256
    reads inverse
  {
    inverse[a] == Inv(a)
  }

  ghost predicate ProductRow(multiply: array2<Byte>, a: Byte, n: nat)
    requires multiply.Length0 == 256 && multiply.Length1 == 256 && n <= 256
    reads multiply
  {
    forall b: Byte :: b < n ==> multiply[a, b] == Mul(a, b)
  }

  /** What every lookup relies on: the tables hold products and inverses. */
  ghost predicate Tables(multiply: array2<Byte>, inverse: array<Byte>)
    reads multiply, inverse
  {
    && multiply.Length0 == 256 && multiply.Length1 == 256 && inverse.Length == 256
    && (forall a: Byte :: ProductRow(multiply, a, 256))
    && (forall a: Byte :: InverseRow(inverse, a))
  }

  lemma PowerLookup(exp: seq<Byte>, log: seq<Byte>, a: Byte)
    requires PowerTables(exp, log, 255) && a != 0
    ensures log[a] == Log(a)
  {
    hide Exp;
    var i := Log(a);
    assert log[Exp(i)] == i;
  }

  lemma ProductLookup(exp: seq<Byte>, log: seq<Byte>, a: Byte, b: Byte)
    requires PowerTables(exp, log, 255) && a != 0 && b != 0
    ensures log[a] < 255 && log[b] < 255 && exp[log[a] as int + log[b] as int] == Mul(a, b)
  {
    hide Exp, Mul;
    PowerLookup(exp, log, a);
    PowerLookup(exp, log, b);
    var s := Log(a) + Log(b);
    MulExp(Log(a), Log(b));
    if s >= 255 {
      assert exp[s - 255 + 255] == Exp(s - 255);
      ExpPeriod(s - 255, 1);
    }
  }

  lemma NoPowers(exp: seq<Byte>, log: seq<Byte>)
    requires |exp| == 510 && |log| == 256
    ensures PowerTables(exp, log, 0)
  {
  }

  /** One more power at both of its places, and its logarithm; the earlier ones are different bytes. */
  lemma NextPower(exp: seq<Byte>, log: seq<Byte>, i: nat)
    requires i < 255 && PowerTables(exp, log, i)
    ensures |exp| == 510 && |log| == 256
    ensures PowerTables(exp[i := Exp(i)][i + 255 := Exp(i)], log[Exp(i) := i], i + 1)
  {
    hide Exp;
    forall j | 0 <= j < i
      ensures Exp(j) != Exp(i)
    {
      ExpInjective(j, i);
    }
  }

  lemma ExpStep(i: nat)
    ensures Exp(i + 1) == Double(Exp(i))
  {
    hide Double;
  }

  method BuildPowers(exp: array<Byte>, log: array<Byte>)
    requires exp.Length == 510 && log.Length == 256 && exp != log
    modifies exp, log
    ensures PowerTables(exp[..], log[..], 255)
  {
    hide Exp, Double, PowerTables;
    var value: Byte := 1;
    ExpZero();
    NoPowers(exp[..], log[..]);
    for i := 0 to 255
      invariant PowerTables(exp[..], log[..], i)
      invariant value == Exp(i)
    {
      ghost var e: seq<Byte>, l: seq<Byte> := exp[..], log[..];
      ghost var e' := e[i := value];
      NextPower(e, l, i);
      exp[i], exp[i + 255] := value, value;
      assert exp[..] == e'[i + 255 := value];
      log[value] := i;
      assert log[..] == l[value := i];
      ExpStep(i);
      value := Double(value);
    }
  }

  method FillRow(multiply: array2<Byte>, exp: array<Byte>, log: array<Byte>, a: Byte)
    requires multiply.Length0 == 256 && multiply.Length1 == 256
    requires exp.Length == 510 && log.Length == 256 && PowerTables(exp[..], log[..], 255)
    requires a != 0 && multiply[a, 0] == 0
    modifies multiply
    ensures ProductRow(multiply, a, 256)
    ensures forall c: Byte, b: Byte :: c != a ==> multiply[c, b] == old(multiply[c, b])
  {
    hide Mul, Exp;
    MulZero(a);
    for b := 1 to 256
      invariant ProductRow(multiply, a, b)
      invariant forall c: Byte, b: Byte :: c != a ==> multiply[c, b] == old(multiply[c, b])
    {
      ProductLookup(exp[..], log[..], a, b);
      multiply[a, b] := exp[log[a] as int + log[b] as int];
    }
  }

  method FillInverse(inverse: array<Byte>, exp: array<Byte>, log: array<Byte>, a: Byte)
    requires inverse.Length == 256
    requires exp.Length == 510 && log.Length == 256 && PowerTables(exp[..], log[..], 255)
    requires a != 0
    modifies inverse
    ensures InverseRow(inverse, a)
    ensures forall c: Byte :: c != a ==> inverse[c] == old(inverse[c])
  {
    hide Exp;
    PowerLookup(exp[..], log[..], a);
    var i := 255 - log[a] as int;
    if i == 255 {
      ExpPeriod(0, 1);
      assert exp[..][0 + 255] == Exp(0);
    } else {
      assert exp[..][i] == Exp(i);
    }
    inverse[a] := exp[i];
  }

  method BuildTables() returns (multiply: array2<Byte>, inverse: array<Byte>)
    ensures fresh(multiply) && fresh(inverse) && Tables(multiply, inverse)
  {
    hide Mul, Exp, Inv, PowerTables;
    var exp, log := new Byte[510](_ => 0), new Byte[256](_ => 0);
    BuildPowers(exp, log);
    multiply, inverse := new Byte[256, 256]((_, _) => 0), new Byte[256](_ => 0);
    forall b: Byte ensures Mul(0, b) == 0 { ZeroMul(b); }
    InvZero();
    for a := 1 to 256
      invariant PowerTables(exp[..], log[..], 255)
      invariant forall c: Byte :: c < a ==> ProductRow(multiply, c, 256) && InverseRow(inverse, c)
      invariant forall c: Byte :: multiply[c, 0] == 0
    {
      label before:
      FillInverse(inverse, exp, log, a);
      FillRow(multiply, exp, log, a);
      MulZero(a);
      forall c: Byte | c < a
        ensures ProductRow(multiply, c, 256) && InverseRow(inverse, c)
      {
        assert old@before(ProductRow(multiply, c, 256) && InverseRow(inverse, c));
      }
    }
  }

  lemma InvZero()
    ensures Inv(0) == 0
  {
  }
}

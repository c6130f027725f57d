/** The field GF(2^8) with reduction polynomial 0x11d that the erasure code works in.

Addition is the bitwise exclusive or; multiplication by the generator is `Double`.
`Mul` is shift-and-add multiplication, the reference the log/exp tables are compared with.
Everything is on integers: exclusive or is defined bit by bit, so that every law
is a short induction. */
module Galois {

  type Byte = x: int | 0 <= x < 256

  const POLYNOMIAL := 0x11d

  function Xor(a: nat, b: nat): (r: nat) {
    if a == 0 then b
    else if b == 0 then a
    else 2 * Xor(a / 2, b / 2) + (a + b) % 2
  }

  function Pow2(k: nat): (r: nat)
    ensures r > 0
  {
    if k == 0 then 1 else 2 * Pow2(k - 1)
  }

  lemma XorStep(a: nat, b: nat)
    ensures Xor(a, b) == 2 * Xor(a / 2, b / 2) + (a + b) % 2
    ensures Xor(a, b) / 2 == Xor(a / 2, b / 2)
    ensures Xor(a, b) % 2 == (a + b) % 2
  {
  }

  lemma {:induction false} XorComm(a: nat, b: nat)
    ensures Xor(a, b) == Xor(b, a)
  {
    if a != 0 && b != 0 {
      XorComm(a / 2, b / 2);
    }
  }

  lemma {:induction false} XorSelf(a: nat)
    ensures Xor(a, a) == 0
  {
    if a != 0 {
      XorSelf(a / 2);
    }
  }

  lemma ParityAssoc(a: nat, b: nat, c: nat, u: nat, v: nat, l: nat, r: nat)
    requires u % 2 == (a + b) % 2 && v % 2 == (b + c) % 2
    requires l % 2 == (u + c) % 2 && r % 2 == (a + v) % 2
    requires l / 2 == r / 2
    ensures l == r
  {
  }

  lemma {:induction false} XorAssoc(a: nat, b: nat, c: nat)
    ensures Xor(Xor(a, b), c) == Xor(a, Xor(b, c))
    decreases a + b + c
  {
    if a != 0 && b != 0 && c != 0 {
      var u, v := Xor(a, b), Xor(b, c);
      XorStep(a, b);
      XorStep(b, c);
      XorStep(u, c);
      XorStep(a, v);
      XorAssoc(a / 2, b / 2, c / 2);
      ParityAssoc(a, b, c, u, v, Xor(u, c), Xor(a, v));
    }
  }

  lemma XorCancel(a: nat, b: nat)
    ensures Xor(a, Xor(a, b)) == b
    ensures Xor(Xor(b, a), a) == b
  {
    XorAssoc(a, a, b);
    XorAssoc(b, a, a);
    XorSelf(a);
  }

  /** Two numbers are equal exactly when their exclusive or is zero. */
  lemma XorZero(a: nat, b: nat)
    ensures Xor(a, b) == 0 <==> a == b
  {
    XorSelf(a);
    XorCancel(a, b);
  }

  lemma XorSwap(a: nat, b: nat, c: nat, d: nat)
    ensures Xor(Xor(a, b), Xor(c, d)) == Xor(Xor(a, c), Xor(b, d))
  {
    calc {
      Xor(Xor(a, b), Xor(c, d));
      { XorAssoc(a, b, Xor(c, d)); }
      Xor(a, Xor(b, Xor(c, d)));
      { XorAssoc(b, c, d); XorComm(b, c); XorAssoc(c, b, d); }
      Xor(a, Xor(c, Xor(b, d)));
      { XorAssoc(a, c, Xor(b, d)); }
      Xor(Xor(a, c), Xor(b, d));
    }
  }

  lemma XorBound(a: nat, b: nat, k: nat)
    requires a < Pow2(k) && b < Pow2(k)
    ensures Xor(a, b) < Pow2(k)
  {
    if k > 0 {
      XorBound(a / 2, b / 2, k - 1);
      XorStep(a, b);
    }
  }

  /** The top bit of an exclusive or is set exactly when one operand has it. */
  lemma XorTop(a: nat, b: nat, k: nat)
    requires a < 2 * Pow2(k) && b < 2 * Pow2(k)
    ensures Xor(a, b) >= Pow2(k) <==> ((a >= Pow2(k)) != (b >= Pow2(k)))
    ensures Xor(a, b) < 2 * Pow2(k)
  {
    XorStep(a, b);
    if k > 0 {
      XorTop(a / 2, b / 2, k - 1);
    } else {
      assert a / 2 == 0 && b / 2 == 0;
    }
  }

  lemma ByteBounds()
    ensures Pow2(7) == 128 && Pow2(8) == 256
  {
    assert Pow2(4) == 16;
    assert Pow2(7) == 128;
  }

  function Add(a: Byte, b: Byte): (r: Byte) {
    ByteBounds();
    XorBound(a, b, 8);
    Xor(a, b)
  }

  function Reduce(v: nat): (r: Byte)
    requires v < 512
  {
    if v >= 256 then
      ByteBounds();
      XorTop(v, POLYNOMIAL, 8);
      Xor(v, POLYNOMIAL)
    else v
  }

  /** One step of the table generator: shift left, and reduce when bit 8 is set. */
  function Double(b: Byte): (r: Byte) {
    Reduce(2 * b)
  }

  lemma XorDouble(a: nat, b: nat)
    ensures Xor(2 * a, 2 * b) == 2 * Xor(a, b)
  {
    hide Xor;
    XorStep(2 * a, 2 * b);
    assert 2 * a / 2 == a && 2 * b / 2 == b;
  }

  lemma DoubleAdd(a: Byte, b: Byte)
    ensures Double(Add(a, b)) == Add(Double(a), Double(b))
  {
    hide Xor, Pow2;
    ByteBounds();
    XorTop(a, b, 7);
    XorDouble(a, b);
    var p := POLYNOMIAL;
    if a >= 128 && b >= 128 {
      XorSwap(2 * a, p, 2 * b, p);
      XorSelf(p);
      XorNone(2 * Xor(a, b));
    } else if a >= 128 {
      XorAssoc(2 * a, p, 2 * b);
      XorComm(p, 2 * b);
      XorAssoc(2 * a, 2 * b, p);
    } else if b >= 128 {
      XorAssoc(2 * a, 2 * b, p);
    }
  }

  lemma XorNone(a: nat)
    ensures Xor(a, 0) == a
  {
  }

  lemma DoubleNonzero(a: Byte)
    ensures Double(a) == 0 <==> a == 0
  {
    if a >= 128 {
      XorZero(2 * a, POLYNOMIAL);
    }
  }

  /** Shift-and-add multiplication. The first operand is any polynomial. */
  function Mul(a: nat, b: Byte): (r: Byte) {
    if a == 0 then 0
    else Add(if a % 2 == 1 then b else 0, Mul(a / 2, Double(b)))
  }

  lemma AddSwap(a: Byte, b: Byte, c: Byte, d: Byte)
    ensures Add(Add(a, b), Add(c, d)) == Add(Add(a, c), Add(b, d))
  {
    XorSwap(a, b, c, d);
  }

  lemma {:induction false} MulAddRight(a: nat, b: Byte, c: Byte)
    ensures Mul(a, Add(b, c)) == Add(Mul(a, b), Mul(a, c))
    decreases a
  {
    if a != 0 {
      DoubleAdd(b, c);
      MulAddRight(a / 2, Double(b), Double(c));
      if a % 2 == 1 {
        AddSwap(b, c, Mul(a / 2, Double(b)), Mul(a / 2, Double(c)));
      }
    }
  }

  function Term(a: nat, c: Byte): (r: Byte) {
    if a % 2 == 1 then c else 0
  }

  lemma MulStep(a: nat, c: Byte)
    ensures Mul(a, c) == Add(Term(a, c), Mul(a / 2, Double(c)))
  {
  }

  lemma AddZero(c: Byte)
    ensures Add(c, c) == 0 && Add(c, 0) == c && Add(0, c) == c
  {
    XorSelf(c);
  }

  lemma OddSum(a: nat, b: nat, x: nat)
    requires x % 2 == (a + b) % 2
    ensures x % 2 == 1 <==> ((a % 2 == 1) != (b % 2 == 1))
  {
  }

  lemma XorOdd(a: nat, b: nat)
    ensures Xor(a, b) % 2 == 1 <==> ((a % 2 == 1) != (b % 2 == 1))
  {
    OddSum(a, b, Xor(a, b));
  }

  lemma TermXor(a: nat, b: nat, c: Byte)
    ensures Term(Xor(a, b), c) == Add(Term(a, c), Term(b, c))
  {
    XorOdd(a, b);
    AddZero(c);
    AddZero(0);
  }

  lemma {:induction false} MulAddLeft(a: nat, b: nat, c: Byte)
    ensures Mul(Xor(a, b), c) == Add(Mul(a, c), Mul(b, c))
    decreases a + b
  {
    if a != 0 && b != 0 {
      var x, d := Xor(a, b), Double(c);
      calc {
        Mul(x, c);
        { MulStep(x, c); XorStep(a, b); }
        Add(Term(x, c), Mul(Xor(a / 2, b / 2), d));
        { TermXor(a, b, c); MulAddLeft(a / 2, b / 2, d); }
        Add(Add(Term(a, c), Term(b, c)), Add(Mul(a / 2, d), Mul(b / 2, d)));
        { AddSwap(Term(a, c), Term(b, c), Mul(a / 2, d), Mul(b / 2, d)); }
        Add(Add(Term(a, c), Mul(a / 2, d)), Add(Term(b, c), Mul(b / 2, d)));
        { MulStep(a, c); MulStep(b, c); }
        Add(Mul(a, c), Mul(b, c));
      }
    }
  }

  lemma {:induction false} MulDouble(a: nat, b: Byte)
    ensures Mul(a, Double(b)) == Double(Mul(a, b))
    decreases a
  {
    if a != 0 {
      MulDouble(a / 2, Double(b));
      DoubleAdd(if a % 2 == 1 then b else 0, Mul(a / 2, Double(b)));
    }
  }

  lemma MulOne(b: Byte)
    ensures Mul(1, b) == b
  {
  }

  lemma SplitLowBit(b: Byte)
    ensures b == Add(Double(b / 2), b % 2)
  {
    XorStep(2 * (b / 2), b % 2);
  }

  lemma {:induction false} MulByOne(a: Byte)
    ensures Mul(a, 1) == a
  {
    if a != 0 {
      MulStep(a, 1);
      MulDouble(a / 2, 1);
      MulByOne(a / 2);
      SplitLowBit(a);
      XorComm(a % 2, Double(a / 2));
    }
  }

  /** The i-th power of the generator, as the table loop produces it. */
  function Exp(i: nat): (r: Byte) {
    if i == 0 then 1 else Double(Exp(i - 1))
  }

  lemma {:induction false} ExpSmall(i: nat)
    requires i < 8
    ensures Exp(i) == Pow2(i) < 256
  {
    ByteBounds();
    if i > 0 {
      ExpSmall(i - 1);
      Pow2Mono(i, 7);
    }
  }

  lemma {:induction false} Pow2Mono(i: nat, j: nat)
    requires i <= j
    ensures Pow2(i) <= Pow2(j)
    decreases j
  {
    if i < j {
      Pow2Mono(i, j - 1);
    }
  }

  lemma {:induction false} MulPow2(i: nat)
    ensures Mul(Pow2(i), 1) == Exp(i)
  {
    if i > 0 {
      MulPow2(i - 1);
      MulDouble(Pow2(i - 1), 1);
    }
  }

  lemma XorLiteral()
    ensures Xor(256, 0x1d) == POLYNOMIAL
  {
    assert Xor(16, 1) == 17;
    assert Xor(32, 3) == 35;
    assert Xor(64, 7) == 71;
    assert Xor(128, 14) == 142;
  }

  lemma MulPolynomialOne(top: nat, low: Byte)
    requires top == Pow2(8) && Xor(top, low) == POLYNOMIAL
    ensures Mul(POLYNOMIAL, 1) == 0
  {
    MulPow2(8);
    ByteBounds();
    ExpSmall(7);
    XorCancel(top, low);
    MulByOne(low);
    MulAddLeft(top, low, 1);
    AddZero(low);
  }

  /** The reduction polynomial acts as zero. */
  lemma {:induction false} MulPolynomial(b: Byte)
    ensures Mul(POLYNOMIAL, b) == 0
  {
    if b == 0 {
      MulAddRight(POLYNOMIAL, 0, 0);
      XorSelf(Mul(POLYNOMIAL, 0));
    } else if b == 1 {
      ByteBounds();
      XorLiteral();
      MulPolynomialOne(Pow2(8), 0x1d);
    } else {
      MulPolynomial(b / 2);
      MulPolynomial(b % 2);
      MulDouble(POLYNOMIAL, b / 2);
      SplitLowBit(b);
      MulAddRight(POLYNOMIAL, Double(b / 2), b % 2);
    }
  }

  lemma DoubleMul(a: Byte, b: Byte)
    ensures Mul(Double(a), b) == Double(Mul(a, b))
  {
    MulDouble(a, b);
    assert Mul(2 * a, b) == Mul(a, Double(b));
    if 2 * a >= 256 {
      MulAddLeft(2 * a, POLYNOMIAL, b);
      MulPolynomial(b);
    }
  }

  lemma {:induction false} MulExp(i: nat, j: nat)
    ensures Mul(Exp(i), Exp(j)) == Exp(i + j)
  {
    if i == 0 {
      MulOne(Exp(j));
    } else {
      MulExp(i - 1, j);
      DoubleMul(Exp(i - 1), Exp(j));
    }
  }

  lemma {:induction false} ExpNonzero(i: nat)
    ensures Exp(i) != 0
  {
    if i > 0 {
      ExpNonzero(i - 1);
      DoubleNonzero(Exp(i - 1));
    }
  }
}

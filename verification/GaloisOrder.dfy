/** The powers of the generator 2 run through all 255 nonzero bytes before they repeat.

The three values Exp(15), Exp(51), Exp(85) differ from 1 and Exp(255) is 1. They are
evaluated on the eight bits of a byte; everything else follows from 255 = 3 * 5 * 17. */
module GaloisOrder {
  import opened Galois
  import opened Modular
  import opened Sets

  /** A byte as its eight bits; only used to evaluate powers of the generator. */
  datatype Bits = Bits(b0: bool, b1: bool, b2: bool, b3: bool, b4: bool, b5: bool, b6: bool, b7: bool)

  function Bit(b: bool): (r: nat) { if b then 1 else 0 }

  function ToByte(b: Bits): (r: Byte) {
    16 * Nibble(b.b7, b.b6, b.b5, b.b4) + Nibble(b.b3, b.b2, b.b1, b.b0)
  }

  function Nibble(p3: bool, p2: bool, p1: bool, p0: bool): (r: nat) {
    8 * Bit(p3) + 4 * Bit(p2) + 2 * Bit(p1) + Bit(p0)
  }

  function Shift(b: Bits): (r: Bits) {
    Bits(b.b7, b.b0, b.b1 != b.b7, b.b2 != b.b7, b.b3 != b.b7, b.b4, b.b5, b.b6)
  }

  function Shift5(b: Bits): (r: Bits) { Shift(Shift(Shift(Shift(Shift(b))))) }

  function Shift17(b: Bits): (r: Bits) { Shift(Shift(Shift5(Shift5(Shift5(b))))) }

  lemma BitParts(a: nat, p: bool, u: nat)
    requires u == 2 * a + Bit(p)
    ensures u / 2 == a && u % 2 == Bit(p)
  {
  }

  lemma XorBit(a: nat, b: nat, p: bool, q: bool, u: nat, v: nat)
    requires u == 2 * a + Bit(p) && v == 2 * b + Bit(q)
    ensures Xor(u, v) == 2 * Xor(a, b) + Bit(p != q)
  {
    BitParts(a, p, u);
    BitParts(b, q, v);
    XorStep(u, v);
    OddSum(u, v, Xor(u, v));
  }

  lemma XorNibble(a: nat, p3: bool, p2: bool, p1: bool, p0: bool,
                  b: nat, q3: bool, q2: bool, q1: bool, q0: bool)
    ensures Xor(16 * a + Nibble(p3, p2, p1, p0), 16 * b + Nibble(q3, q2, q1, q0))
         == 16 * Xor(a, b) + Nibble(p3 != q3, p2 != q2, p1 != q1, p0 != q0)
  {
    hide Xor;
    var a3, b3 := 2 * a + Bit(p3), 2 * b + Bit(q3);
    var a2, b2 := 2 * a3 + Bit(p2), 2 * b3 + Bit(q2);
    var a1, b1 := 2 * a2 + Bit(p1), 2 * b2 + Bit(q1);
    var a0, b0 := 2 * a1 + Bit(p0), 2 * b1 + Bit(q0);
    XorBit(a, b, p3, q3, a3, b3);
    XorBit(a3, b3, p2, q2, a2, b2);
    XorBit(a2, b2, p1, q1, a1, b1);
    XorBit(a1, b1, p0, q0, a0, b0);
  }

  lemma TwiceByte(b: Bits)
    ensures 2 * ToByte(b)
         == 256 * Bit(b.b7) + 16 * Nibble(b.b6, b.b5, b.b4, b.b3) + Nibble(b.b2, b.b1, b.b0, false)
  {
  }

  lemma XorPolynomial(h3: bool, h2: bool, h1: bool, h0: bool, l3: bool, l2: bool, l1: bool)
    ensures Xor(256 + 16 * Nibble(h3, h2, h1, h0) + Nibble(l3, l2, l1, false), POLYNOMIAL)
         == 16 * Nibble(h3, h2, h1, !h0) + Nibble(!l3, !l2, l1, true)
  {
    hide Xor;
    var one := 1;
    XorSelf(one);
    XorNibble(one, h3, h2, h1, h0, one, false, false, false, true);
    var h := 16 * one + Nibble(h3, h2, h1, h0);
    var p := 16 * one + Nibble(false, false, false, true);
    XorNibble(h, l3, l2, l1, false, p, true, true, false, true);
  }

  lemma ShiftIsDouble(b: Bits)
    ensures Double(ToByte(b)) == ToByte(Shift(b))
  {
    hide Xor, Nibble, Reduce;
    TwiceByte(b);
    var h, l := Nibble(b.b6, b.b5, b.b4, b.b3), Nibble(b.b2, b.b1, b.b0, false);
    NibbleBound(b.b6, b.b5, b.b4, b.b3);
    NibbleBound(b.b2, b.b1, b.b0, false);
    if b.b7 {
      ReduceHigh(256 + 16 * h + l);
      XorPolynomial(b.b6, b.b5, b.b4, b.b3, b.b2, b.b1, b.b0);
    } else {
      ReduceLow(16 * h + l);
    }
  }

  lemma ReduceHigh(v: nat)
    requires 256 <= v < 512
    ensures Reduce(v) == Xor(v, POLYNOMIAL)
  {
  }

  lemma ReduceLow(v: nat)
    requires v < 256
    ensures Reduce(v) == v
  {
  }

  lemma NibbleBound(p3: bool, p2: bool, p1: bool, p0: bool)
    ensures 0 <= Nibble(p3, p2, p1, p0) < 16
  {
  }

  lemma ExpShift(i: nat, b: Bits)
    requires Exp(i) == ToByte(b)
    ensures Exp(i + 1) == ToByte(Shift(b))
  {
    ShiftIsDouble(b);
  }

  lemma ExpShift5(i: nat, b: Bits)
    requires Exp(i) == ToByte(b)
    ensures Exp(i + 5) == ToByte(Shift5(b))
  {
    hide Exp, ToByte, Shift;
    ExpShift(i, b);
    ExpShift(i + 1, Shift(b));
    ExpShift(i + 2, Shift(Shift(b)));
    ExpShift(i + 3, Shift(Shift(Shift(b))));
    ExpShift(i + 4, Shift(Shift(Shift(Shift(b)))));
  }

  lemma ExpShift17(i: nat, b: Bits)
    requires Exp(i) == ToByte(b)
    ensures Exp(i + 15) == ToByte(Shift5(Shift5(Shift5(b))))
    ensures Exp(i + 17) == ToByte(Shift17(b))
  {
    hide Exp, ToByte, Shift, Shift5;
    ExpShift5(i, b);
    ExpShift5(i + 5, Shift5(b));
    ExpShift5(i + 10, Shift5(Shift5(b)));
    ExpShift(i + 15, Shift5(Shift5(Shift5(b))));
    ExpShift(i + 16, Shift(Shift5(Shift5(Shift5(b)))));
  }

  // The powers 17 * k, for k from 0 to 15.
  const POWER0 := Bits(true, false, false, false, false, false, false, false)
  const POWER17 := Bits(false, false, false, true, true, false, false, true)
  const POWER34 := Bits(false, true, true, true, false, false, true, false)
  const POWER51 := Bits(false, true, false, true, false, false, false, false)
  const POWER68 := Bits(true, false, false, true, true, false, false, true)
  const POWER85 := Bits(false, true, true, false, true, false, true, true)
  const POWER102 := Bits(false, false, true, false, false, false, true, false)
  const POWER119 := Bits(true, true, false, false, true, false, false, true)
  const POWER136 := Bits(true, true, true, true, false, false, true, false)
  const POWER153 := Bits(false, true, false, false, true, false, false, true)
  const POWER170 := Bits(true, true, true, false, true, false, true, true)
  const POWER187 := Bits(false, false, true, true, true, false, true, true)
  const POWER204 := Bits(true, false, true, true, true, false, true, true)
  const POWER221 := Bits(true, false, true, false, false, false, true, false)
  const POWER238 := Bits(true, true, false, true, false, false, false, false)

  lemma Shift15One()
    ensures Shift5(Shift5(Shift5(POWER0))) == Bits(false, true, true, false, false, true, false, false)
  {
  }

  lemma Shifts51()
    ensures Shift17(POWER0) == POWER17
    ensures Shift17(POWER17) == POWER34
    ensures Shift17(POWER34) == POWER51
  {
  }

  lemma Shifts102()
    ensures Shift17(POWER51) == POWER68
    ensures Shift17(POWER68) == POWER85
    ensures Shift17(POWER85) == POWER102
  {
  }

  lemma Shifts153()
    ensures Shift17(POWER102) == POWER119
    ensures Shift17(POWER119) == POWER136
    ensures Shift17(POWER136) == POWER153
  {
  }

  lemma Shifts204()
    ensures Shift17(POWER153) == POWER170
    ensures Shift17(POWER170) == POWER187
    ensures Shift17(POWER187) == POWER204
  {
  }

  lemma Shifts255()
    ensures Shift17(POWER204) == POWER221
    ensures Shift17(POWER221) == POWER238
    ensures Shift17(POWER238) == POWER0
  {
  }

  lemma ThreeShifts(i: nat, a: Bits, b: Bits, c: Bits, d: Bits)
    requires Exp(i) == ToByte(a)
    requires Shift17(a) == b && Shift17(b) == c && Shift17(c) == d
    ensures Exp(i + 34) == ToByte(c) && Exp(i + 51) == ToByte(d)
  {
    hide Exp, ToByte, Shift17;
    ExpShift17(i, a);
    ExpShift17(i + 17, b);
    ExpShift17(i + 34, c);
  }

  lemma ExpAt(i: nat)
    requires i == 0 && Exp(i) == ToByte(POWER0)
    ensures Exp(i + 15) == ToByte(Shift5(Shift5(Shift5(POWER0))))
    ensures Exp(i + 51) == ToByte(POWER51) && Exp(i + 85) == ToByte(POWER85)
    ensures Exp(i + 255) == ToByte(POWER0)
  {
    hide Exp, ToByte, Shift5, Shift17;
    ExpShift17(i, POWER0);
    Shifts51();
    ThreeShifts(i, POWER0, POWER17, POWER34, POWER51);
    Shifts102();
    ThreeShifts(i + 51, POWER51, POWER68, POWER85, POWER102);
    Shifts153();
    ThreeShifts(i + 102, POWER102, POWER119, POWER136, POWER153);
    Shifts204();
    ThreeShifts(i + 153, POWER153, POWER170, POWER187, POWER204);
    Shifts255();
    ThreeShifts(i + 204, POWER204, POWER221, POWER238, POWER0);
  }

  lemma Milestones(i: nat)
    requires i == 0
    ensures Exp(i + 15) != 1 && Exp(i + 51) != 1 && Exp(i + 85) != 1 && Exp(i + 255) == 1
  {
    assert Exp(i) == ToByte(POWER0);
    hide Exp;
    ExpAt(i);
    Shift15One();
  }

  // ---- every nonzero byte is a power ----

  lemma {:induction false} ExpPeriod(i: nat, q: nat)
    ensures Exp(i + 255 * q) == Exp(i)
    decreases q
  {
    hide Exp, Mul;
    if q > 0 {
      var j := i + 255 * (q - 1);
      ExpPeriod(i, q - 1);
      Milestones(0);
      MulExp(255, j);
      MulOne(Exp(j));
    }
  }

  lemma ExpZero()
    ensures Exp(0) == 1
  {
  }

  lemma {:induction false} ExpMultiple(d: nat, k: nat)
    requires Exp(d) == 1
    ensures Exp(d * k) == 1
    decreases k
  {
    hide Exp, Mul;
    if k == 0 {
      ExpZero();
    } else {
      ExpMultiple(d, k - 1);
      MulExp(d, d * (k - 1));
      MulOne(1);
      assert d + d * (k - 1) == d * k;
    }
  }

  lemma NotOne(d: nat, n: nat, p: nat, m: nat)
    requires p > 0 && n * p == 255 && Exp(n) != 1 && d * m % p == 1
    ensures Exp(d) != 1
  {
    hide Exp;
    if Exp(d) == 1 {
      var q := d * m / p;
      assert d * m == p * q + 1;
      calc {
        d * (m * n);
        (d * m) * n;
        (p * q + 1) * n;
        (n * p) * q + n;
        n + 255 * q;
      }
      ExpMultiple(d, m * n);
      ExpPeriod(n, q);
    }
  }

  lemma Inverse17(d: nat) returns (m: nat)
    requires d % 17 != 0
    ensures d * m % 17 == 1
  {
    var r := d % 17;
    m := [0, 1, 9, 6, 13, 7, 3, 5, 15, 2, 12, 14, 10, 4, 11, 8, 16][r];
    InverseOf(d, 17, r, m);
  }

  lemma Inverse5(d: nat) returns (m: nat)
    requires d % 5 != 0
    ensures d * m % 5 == 1
  {
    var r := d % 5;
    m := [0, 1, 3, 2, 4][r];
    InverseOf(d, 5, r, m);
  }

  lemma Inverse3(d: nat) returns (m: nat)
    requires d % 3 != 0
    ensures d * m % 3 == 1
  {
    var r := d % 3;
    m := r;
    InverseOf(d, 3, r, m);
  }

  lemma InverseOf(d: nat, p: nat, r: nat, m: nat)
    requires p > 0 && r == d % p && r * m % p == 1
    ensures d * m % p == 1
  {
    var a, c := d / p, r * m / p;
    assert d == p * a + r && r * m == p * c + 1;
    assert d * m == p * (a * m + c) + 1;
    assert p > 1;
    ModUnique(d * m, p, a * m + c, 1);
  }

  lemma OrderExact(d: nat)
    requires 0 < d < 255
    ensures Exp(d) != 1
  {
    hide Exp;
    Milestones(0);
    if d % 17 != 0 {
      var m := Inverse17(d);
      NotOne(d, 15, 17, m);
    } else if d % 5 != 0 {
      var m := Inverse5(d);
      NotOne(d, 51, 5, m);
    } else {
      var m := Inverse3(d);
      NotOne(d, 85, 3, m);
    }
  }

  lemma ExpInjective(i: nat, j: nat)
    requires i < j < 255
    ensures Exp(i) != Exp(j)
  {
    hide Exp;
    if Exp(i) == Exp(j) {
      var c := 255 - j;
      MulExp(i, c);
      MulExp(j, c);
      Milestones(0);
      OrderExact(i + c);
    }
  }

  function Powers(n: nat): (s: set<int>) {
    set i | 0 <= i < n :: Exp(i)
  }

  lemma {:induction false} PowersSize(n: nat)
    requires n <= 255
    ensures |Powers(n)| == n
  {
    if n > 0 {
      PowersSize(n - 1);
      assert Powers(n) == Powers(n - 1) + {Exp(n - 1)};
      forall i | 0 <= i < n - 1
        ensures Exp(i) != Exp(n - 1)
      {
        ExpInjective(i, n - 1);
      }
    } else {
      assert Powers(n) == {};
    }
  }

  /** The exponent of a nonzero byte: what the log table must hold. */
  lemma LogExists(a: Byte) returns (i: nat)
    requires a != 0
    ensures i < 255 && Exp(i) == a
  {
    var all := UpTo(255);
    PowersSize(255);
    forall x | x in Powers(255)
      ensures x in all
    {
      var j :| 0 <= j < 255 && Exp(j) == x;
      ExpNonzero(j);
      UpToHas(255, x);
    }
    SubsetFull(Powers(255), all);
    UpToHas(255, a);
    i :| 0 <= i < 255 && Exp(i) == a;
  }
}

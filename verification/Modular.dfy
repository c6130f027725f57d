/** Remainders modulo a variable capacity, as ring buffers index with them. */
module Modular {
  import opened Words

  lemma MulBetween(p: int, k: int, s: int)
    requires p > 0 && p * k == s && -p < s < p
    ensures k == 0
  {
  }

  lemma MulMonotone(p: int, x: int, y: int)
    requires p > 0 && x <= y
    ensures p * x <= p * y
  {
  }

  lemma ModUnique(x: int, p: int, q: int, r: int)
    requires 0 <= r < p && x == p * q + r
    ensures x % p == r && x / p == q
  {
    var q', r' := x / p, x % p;
    assert p * q' + r' == p * q + r;
    MulBetween(p, q' - q, r - r');
  }

  lemma ModAdd(x: int, k: int, p: int)
    requires p > 0
    ensures (x + p * k) % p == x % p
  {
    var q, r := x / p, x % p;
    assert x + p * k == p * (q + k) + r;
    ModUnique(x + p * k, p, q + k, r);
  }

  /** Distinct offsets below the capacity use distinct slots. */
  lemma SlotInjective(h: int, d: int, e: int, cap: int)
    requires 0 <= d < e < cap
    ensures (h + d) % cap != (h + e) % cap
  {
    if (h + d) % cap == (h + e) % cap {
      var a, b, r := (h + d) / cap, (h + e) / cap, (h + d) % cap;
      assert cap * (b - a) == e - d;
      MulBetween(cap, b - a, e - d);
    }
  }

  /** Every slot is used by some offset below the capacity. */
  lemma SlotOffset(h: int, k: int, cap: int) returns (d: int)
    requires 0 <= k < cap
    ensures 0 <= d < cap && (h + d) % cap == k
  {
    d := (k - h) % cap;
    var t := (k - h) / cap;
    assert h + d == k + cap * (-t);
    ModAdd(k, -t, cap);
    ModUnique(k, cap, 0, k);
  }

  ghost predicate Divides(cap: int, n: int) {
    cap > 0 && exists q: int :: cap * q == n
  }

  /** A 16-bit id and its unwrapped value share their slot when the capacity divides 2^16. */
  lemma WrapSlot(x: int, cap: int)
    requires Divides(cap, U16_SIZE)
    ensures Wrap16(x) % cap == x % cap
  {
    var q: int :| cap * q == U16_SIZE;
    var t := x / U16_SIZE;
    assert x == Wrap16(x) + U16_SIZE * t;
    assert U16_SIZE * t == cap * (q * t);
    ModAdd(Wrap16(x), q * t, cap);
  }

  /** Going forward n ids and taking the difference gives n back. */
  lemma OffsetBack(head: U16, n: nat)
    requires n < U16_SIZE
    ensures Wrap16(Wrap16(head + n) - head) == n
  {
  }

  /** 16-bit arithmetic on wrapped ids wraps the exact distance. */
  lemma WordDistance(a: int, b: int, c: int)
    ensures Wrap16(Wrap16(a) - Wrap16(b) + c) == Wrap16(a - b + c)
  {
    var x, y := a / U16_SIZE, b / U16_SIZE;
    assert Wrap16(a) == a - U16_SIZE * x && Wrap16(b) == b - U16_SIZE * y;
    ModAdd(a - b + c, y - x, U16_SIZE);
  }

  const HALF_RANGE := 0x8000_0000

  lemma SignedExact(x: int)
    requires -HALF_RANGE <= x < HALF_RANGE
    ensures Signed32(Wrap32(x)) == x
  {
  }

  /** 32-bit arithmetic on wrapped operands wraps the exact result. */
  lemma WrapDifference(a: int, b: int)
    ensures Wrap32(Wrap32(a) - Wrap32(b)) == Wrap32(a - b)
    ensures Wrap32(Wrap32(a) + b) == Wrap32(a + b)
  {
    var x, y := a / U32_SIZE, b / U32_SIZE;
    assert Wrap32(a) == a - U32_SIZE * x && Wrap32(b) == b - U32_SIZE * y;
    ModAdd(a - b, y - x, U32_SIZE);
    ModAdd(a + b, -x, U32_SIZE);
  }

  lemma WrapSum(a: int, b: int)
    ensures Wrap32(Wrap32(a) + Wrap32(b)) == Wrap32(a + b)
  {
    var x, y := a / U32_SIZE, b / U32_SIZE;
    assert Wrap32(a) == a - U32_SIZE * x && Wrap32(b) == b - U32_SIZE * y;
    ModAdd(a + b, -x - y, U32_SIZE);
  }
}

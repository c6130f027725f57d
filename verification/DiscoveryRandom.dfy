/** The shuffled Park-Miller generator behind the discovery intervals. */
module DiscoveryRandom {
  import opened Words
  import opened Wrappers
  import opened Modular

  const MODULUS := 2147483647
  const MULTIPLIER := 16807
  const QUOTIENT := 127773
  const REMAINDER := 2836
  const TABLE := 32

  function CMod(a: int, b: int): (r: int)
    requires b > 0
  {
    a - b * TruncDiv(a, b)
  }

  /** One Schrage step: multiply without leaving 32 bits. */
  function Step(s: S32): (r: S32)
    ensures 0 <= r < MODULUS && r == MULTIPLIER * s % MODULUS
  {
    var t := MULTIPLIER * CMod(s, QUOTIENT) - REMAINDER * TruncDiv(s, QUOTIENT);
    StepCongruent(s, TruncDiv(s, QUOTIENT), t);
    StepRange(s);
    if t < 0 then t + MODULUS else t
  }

  /** Schrage's identity: the step differs from the product by a multiple of the modulus. */
  lemma StepCongruent(s: int, d: int, t: int)
    requires t == MULTIPLIER * (s - QUOTIENT * d) - REMAINDER * d
    ensures MULTIPLIER * s == t + MODULUS * d
    ensures 0 <= t < MODULUS ==> MULTIPLIER * s % MODULUS == t
    ensures -MODULUS < t < 0 ==> MULTIPLIER * s % MODULUS == t + MODULUS
  {
    if 0 <= t < MODULUS {
      ModUnique(MULTIPLIER * s, MODULUS, d, t);
    } else if -MODULUS < t < 0 {
      ModUnique(MULTIPLIER * s, MODULUS, d - 1, t + MODULUS);
    }
  }

  lemma StepRange(s: S32)
    ensures -MODULUS < MULTIPLIER * CMod(s, QUOTIENT) - REMAINDER * TruncDiv(s, QUOTIENT) < MODULUS
  {
  }

  lemma ModBound(v: nat, w: nat)
    requires w > 0
    ensures 0 <= v % w < w
  {
  }

  function Width(low: int, high: int): (w: nat)
    requires low < high
  {
    high - low + 1
  }

  /** The values a draw keeps. */
  ghost predicate Accepted(v: int, width: nat)
    requires width > 0
  {
    0 <= v <= 0x7fff_ffff - 0x8000_0000 % width
  }

  lemma MulOrder(w: int, d: int)
    requires w > 0
    ensures d >= 1 ==> w * d >= w
    ensures d <= 0 ==> w * d <= 0
  {
  }

  lemma QuotientBelow(v: nat, w: nat, q: int, t: nat, n: int)
    requires w > 0 && v == w * q + t && t < w
    ensures q < n <==> v < w * n
  {
    assert w * n == w * q + w * (n - q);
    MulOrder(w, n - q);
  }

  /** The kept values split evenly over the results: their number is an exact multiple of the width,
      so every residue has the same number of representatives. */
  lemma AcceptedEvenly(width: nat, v: nat)
    requires 0 < width <= 0x8000_0000
    ensures var n := 0x8000_0000 / width;
            n > 0 && (Accepted(v, width) <==> v < width * n) && (Accepted(v, width) <==> v / width < n)
  {
    var all := 0x8000_0000;
    var n, r := all / width, all % width;
    assert all == width * n + r;
    QuotientBelow(all, width, n, r, 1);
    QuotientBelow(v, width, v / width, v % width, n);
  }

  /** Where a new seed starts: its magnitude, the smallest 32-bit value unchanged, and 1 for zero. */
  function Restart(seed: S32): (r: S32) {
    if seed < 0 then (if seed == -0x8000_0000 then seed else -seed) else 1
  }

  /** A seed is stored negated if positive, and starts at its magnitude; zero starts like one. */
  lemma SeedMagnitude(seed: S32)
    requires seed > -0x8000_0000
    ensures var stored := if seed > 0 then -seed else seed;
            Restart(stored) == if seed > 0 then seed else if seed < 0 then -seed else 1
  {
  }

  function Iterate(s: S32, n: nat): (r: S32) {
    if n == 0 then s else Step(Iterate(s, n - 1))
  }

  /** The table after a restart: the last 32 of 40 steps, the newest first. */
  ghost function WarmTable(seed: S32): (t: seq<S32>)
    ensures |t| == TABLE
  {
    seq(TABLE, j requires 0 <= j < TABLE => Iterate(Restart(seed), 40 - j))
  }

  lemma IterateRange(s: S32, n: nat)
    requires n > 0
    ensures 0 <= Iterate(s, n) < MODULUS
  {
  }

  function Power(n: nat): (r: nat) {
    if n == 0 then 1 else MULTIPLIER * Power(n - 1)
  }

  /** The stream in closed form: n steps multiply by the n-th power of the multiplier. */
  lemma {:induction false} IteratePower(s: S32, n: nat)
    requires n > 0
    ensures Iterate(s, n) == Power(n) * s % MODULUS
  {
    if n == 1 {
      assert Power(1) == MULTIPLIER * Power(0);
    } else {
      IteratePower(s, n - 1);
      ModMul(MULTIPLIER, Power(n - 1) * s, MODULUS);
      assert MULTIPLIER * (Power(n - 1) * s) == Power(n) * s;
    }
  }

  lemma ModMul(a: int, b: int, m: int)
    requires m > 0
    ensures a * (b % m) % m == a * b % m
  {
    var q, r := b / m, b % m;
    assert b == m * q + r;
    assert a * b == a * r + m * (a * q);
    ModAdd(a * r, a * q, m);
  }

  class Generator {
    var seed: S32
    var previous: S32
    const shuffle: array<S32>

    /** The table and the last output hold generator states. */
    ghost predicate Valid()
      reads this, shuffle
    {
      && shuffle.Length == TABLE
      && (seed > 0 && previous != 0 ==>
            0 <= previous < MODULUS && seed < MODULUS && forall i | 0 <= i < TABLE :: 0 <= shuffle[i] < MODULUS)
    }

    constructor (s: S32)
      ensures Valid() && seed == (if s > 0 then -s else s) && previous == 0
    {
      seed, previous := if s > 0 then -s else s, 0;
      shuffle := new S32[TABLE](_ => 0);
    }

    /** Fill the table after a new seed, discarding the first eight states. */
    method Warm() returns (s: S32)
      requires shuffle.Length == TABLE
      modifies shuffle
      ensures s == Iterate(Restart(seed), 40)
      ensures forall j | 0 <= j < TABLE :: shuffle[j] == Iterate(Restart(seed), 40 - j)
    {
      s := Restart(seed);
      var j := 39;
      while j >= 0
        invariant -1 <= j <= 39 && s == Iterate(Restart(seed), 39 - j)
        invariant forall i | 0 <= i < TABLE && j < i :: shuffle[i] == Iterate(Restart(seed), 40 - i)
      {
        s := Step(s);
        if j < TABLE {
          shuffle[j] := s;
        }
        j := j - 1;
      }
    }

    /** The table and the index value that the next output starts from. */
    ghost function Table(): (t: seq<S32>)
      reads this, shuffle
    {
      if seed <= 0 || previous == 0 then WarmTable(seed) else shuffle[..]
    }

    ghost function Index(): (k: int)
      requires |Table()| == TABLE
      reads this, shuffle
    {
      (if seed <= 0 || previous == 0 then Table()[0] else previous) / 67108864
    }

    /** One output. The table index stays below 32, the new state is the next one of the stream, and
        the value handed out is the table entry that the new state replaces. */
    method Next() returns (r: S32)
      requires Valid()
      modifies this`seed, this`previous, shuffle
      ensures Valid() && 0 <= r < MODULUS && r == previous
      ensures 0 <= seed < MODULUS
      ensures seed == if old(seed <= 0 || previous == 0) then Iterate(Restart(old(seed)), 41) else Step(old(seed))
      ensures 0 <= old(Index()) < TABLE
      ensures r == old(Table())[old(Index())] && shuffle[..] == old(Table())[old(Index()) := seed]
    {
      var s := seed;
      if s <= 0 || previous == 0 {
        s := Warm();
        IterateRange(Restart(seed), 40);
        forall j | 0 <= j < TABLE
          ensures 0 <= shuffle[j] < MODULUS
        {
          IterateRange(Restart(seed), 40 - j);
        }
        previous := shuffle[0];
        assert shuffle[..] == WarmTable(seed);
      }
      s := Step(s);
      var index := previous / 67108864;
      assert 0 <= index < TABLE;
      previous := shuffle[index];
      shuffle[index] := s;
      seed := s;
      r := previous;
    }

    /** A draw from low to high: the last output is an accepted one, and the draw is its remainder. None
        stands for a generator that keeps producing rejected values. */
    method Draw(low: S32, high: S32, attempts: nat) returns (r: Option<int>)
      requires Valid() && high - low < 0x8000_0000
      modifies this`seed, this`previous, shuffle
      ensures Valid()
      ensures high <= low ==> r == Some(low as int) && unchanged(this) && unchanged(shuffle)
      ensures low < high && r.Some? ==>
                && low <= r.value <= high
                && Accepted(previous, Width(low, high)) && r.value == low + previous % Width(low, high)
      ensures low < high && r.None? && attempts > 0 ==> !Accepted(previous, Width(low, high))
    {
      if high <= low {
        return Some(low);
      }
      var width := Width(low, high);
      var limit := 0x7fff_ffff - 0x8000_0000 % width;
      var n := attempts;
      while n > 0
        invariant Valid() && (n < attempts ==> !Accepted(previous, width))
      {
        var value := Next();
        if value <= limit {
          ModBound(value, width);
          return Some(low + value % width);
        }
        n := n - 1;
      }
      return None;
    }
  }
}

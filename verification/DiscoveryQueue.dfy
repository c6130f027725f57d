/** The bounded queue of discovery commands, and what it does once it is drained. */
module DiscoveryQueue {
  import opened Words
  import opened Rings

  const CAPACITY := 64
  const MOST := U32_SIZE - 1

  datatype Op = Enable | Disable | Trigger
  datatype Target = Target(clientId: U64, ip: nat)
  type Targets = seq<Target>
  datatype Command = Change(op: Op) | Retarget(targets: Targets)

  // ---- owner balance ----

  function Gain(c: Command): (r: int) {
    if c == Change(Enable) then 1 else if c == Change(Disable) then -1 else 0
  }

  /** The owners after the queue is drained. */
  function Balance(q: seq<Command>, owners: int): (r: int) {
    if q == [] then owners else Balance(q[1..], owners + Gain(q[0]))
  }

  /** The owners stay within the bounds at every point of draining the queue. */
  predicate Within(q: seq<Command>, owners: int, lo: int, hi: int) {
    lo <= owners <= hi && (q != [] ==> Within(q[1..], owners + Gain(q[0]), lo, hi))
  }

  /** Draining never goes below zero, nor beyond a machine word, and ends at the accepted owners. */
  predicate Balanced(q: seq<Command>, owners: int, accepted: int) {
    Within(q, owners, 0, MOST) && Balance(q, owners) == accepted
  }

  lemma {:induction false} WithinPush(q: seq<Command>, c: Command, owners: int, lo: int, hi: int)
    ensures Balance(q + [c], owners) == Balance(q, owners) + Gain(c)
    ensures Within(q + [c], owners, lo, hi) <==>
              Within(q, owners, lo, hi) && lo <= Balance(q, owners) + Gain(c) <= hi
  {
    if q == [] {
      assert (q + [c])[1..] == [];
    } else {
      assert (q + [c])[1..] == q[1..] + [c];
      WithinPush(q[1..], c, owners + Gain(q[0]), lo, hi);
    }
  }

  /** More owners at the start are more owners at every point. */
  lemma {:induction false} WithinShift(q: seq<Command>, owners: int, d: int, lo: int, hi: int)
    ensures Balance(q, owners + d) == Balance(q, owners) + d
    ensures Within(q, owners + d, lo, hi) <==> Within(q, owners, lo - d, hi - d)
  {
    if q != [] {
      WithinShift(q[1..], owners + Gain(q[0]), d, lo, hi);
    }
  }

  lemma {:induction false} WithinBoth(q: seq<Command>, owners: int, lo: int, hi: int, lo': int, hi': int)
    requires Within(q, owners, lo, hi)
    ensures Within(q, owners, lo', hi') <==>
              Within(q, owners, if lo > lo' then lo else lo', if hi < hi' then hi else hi')
  {
    if q != [] {
      WithinBoth(q[1..], owners + Gain(q[0]), lo, hi, lo', hi');
    }
  }

  lemma BalancedPush(q: seq<Command>, c: Command, owners: int, accepted: int)
    requires Balanced(q, owners, accepted)
    ensures Balanced(q + [c], owners, accepted + Gain(c)) <==> 0 <= accepted + Gain(c) <= MOST
  {
    WithinPush(q, c, owners, 0, MOST);
  }

  /** An owner taken at once is sound if and only if every later point of the queue has room for it. */
  lemma BalancedShift(q: seq<Command>, owners: int, accepted: int, d: int)
    requires Balanced(q, owners, accepted) && (d == 1 || d == -1)
    ensures Balanced(q, owners + d, accepted + d) <==>
              if d == 1 then Within(q, owners, 0, MOST - 1) else Within(q, owners, 1, MOST)
  {
    WithinShift(q, owners, d, 0, MOST);
    if d == 1 {
      WithinBoth(q, owners, 0, MOST, -1, MOST - 1);
    } else {
      WithinBoth(q, owners, 0, MOST, 1, MOST + 1);
    }
  }

  lemma {:induction false} WithinWiden(q: seq<Command>, owners: int, lo: int, hi: int, hi': int)
    requires Within(q, owners, lo, hi) && hi <= hi'
    ensures Within(q, owners, lo, hi')
  {
    if q != [] {
      WithinWiden(q[1..], owners + Gain(q[0]), lo, hi, hi');
    }
  }

  /** No point of the queue has more owners than the accepted ones and one for every queued command. */
  lemma {:induction false} BalancedBelow(q: seq<Command>, owners: int, accepted: int)
    requires Balanced(q, owners, accepted)
    ensures Within(q, owners, 0, accepted + |q|)
  {
    if q != [] {
      BalancedBelow(q[1..], owners + Gain(q[0]), accepted);
      WithinWiden(q[1..], owners + Gain(q[0]), 0, accepted + |q| - 1, accepted + |q|);
    }
  }

  // ---- committed targets ----

  /** The targets after the queue is drained. */
  function Drained(q: seq<Command>, targets: Targets): (r: Targets) {
    if q == [] then targets else Drained(q[1..], if q[0].Retarget? then q[0].targets else targets)
  }

  function Retargets(q: seq<Command>): (n: nat)
    ensures n <= |q|
  {
    if q == [] then 0 else Retargets(q[1..]) + if q[0].Retarget? then 1 else 0
  }

  lemma {:induction false} DrainedPush(q: seq<Command>, c: Command, targets: Targets)
    ensures Drained(q + [c], targets) == if c.Retarget? then c.targets else Drained(q, targets)
    ensures Retargets(q + [c]) == Retargets(q) + if c.Retarget? then 1 else 0
  {
    if q == [] {
      assert (q + [c])[1..] == [];
    } else {
      assert (q + [c])[1..] == q[1..] + [c];
      DrainedPush(q[1..], c, if q[0].Retarget? then q[0].targets else targets);
    }
  }

  /** With a change of targets queued, the present targets no longer matter; without one, they stay. */
  lemma {:induction false} DrainedFrom(q: seq<Command>, targets: Targets, others: Targets)
    ensures Retargets(q) > 0 ==> Drained(q, targets) == Drained(q, others)
    ensures Retargets(q) == 0 ==> Drained(q, targets) == targets
  {
    if q != [] && !q[0].Retarget? {
      DrainedFrom(q[1..], targets, others);
    }
  }

  // ---- the ring ----

  class CommandQueue {
    const data: array<Command>
    var head: nat
    var count: nat

    ghost predicate Valid()
      reads this
    {
      data.Length == CAPACITY && head < CAPACITY && count <= CAPACITY
    }

    ghost function Contents(): (s: seq<Command>)
      requires Valid()
      reads this, data
      ensures |s| == count
    {
      Unrolled(data[..], head, count)
    }

    constructor ()
      ensures Valid() && Contents() == [] && fresh(data)
    {
      data := new Command[CAPACITY](_ => Change(Enable));
      head, count := 0, 0;
    }

    method Clear()
      requires Valid()
      modifies this
      ensures Valid() && Contents() == []
    {
      head, count := 0, 0;
    }

    method Push(c: Command)
      requires Valid() && count < CAPACITY
      modifies this`count, data
      ensures Valid() && Contents() == old(Contents()) + [c]
    {
      hide Unrolled;
      ghost var d := data[..];
      UnrolledGrow(d, head, count);
      UnrolledWrite(d, head, count + 1, count, c);
      data[(head + count) % CAPACITY] := c;
      assert data[..] == d[(head + count) % |d| := c];
      count := count + 1;
    }

    method Pop() returns (c: Command)
      requires Valid() && count > 0
      modifies this
      ensures Valid() && c == old(Contents())[0] && Contents() == old(Contents())[1..]
    {
      UnrolledPop(data[..], head, count);
      c := data[head];
      head := (head + 1) % CAPACITY;
      count := count - 1;
    }
  }
}

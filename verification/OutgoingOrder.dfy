/** Channel registration, priorities, and the cached send order of the outgoing transport. */
module OutgoingOrder {
  import opened OutgoingSort

  const CHANNELS := 32

  /** The numbers below n, each once, in some order. */
  ghost predicate PermutationOf(s: seq<Channel>, n: nat) {
    |s| == n && multiset(s) == multiset(Ascending(n))
  }

  ghost function Ascending(n: nat): (s: seq<int>)
    ensures |s| == n && forall i | 0 <= i < n :: s[i] == i
  {
    seq(n, i => i)
  }

  lemma AscendingAppend(n: nat)
    ensures Ascending(n + 1) == Ascending(n) + [n]
  {
  }

  lemma PermutationAppend(s: seq<Channel>, n: nat)
    requires n < CHANNELS && PermutationOf(s, n)
    ensures PermutationOf(s + [n], n + 1)
  {
    AscendingAppend(n);
  }

  /** The position a pass starts from. */
  function StartOf(rotation: nat, count: nat): (r: nat) {
    if rotation >= count then 0 else rotation
  }

  ghost function Rotated(s: seq<Channel>, start: nat): (r: seq<Channel>)
    ensures |r| == |s|
  {
    var k := StartOf(start, |s|);
    s[k..] + s[..k]
  }

  /** The position a pass visits in its i-th step. */
  function Visit(start: nat, count: nat, i: nat): (r: int) {
    var k := StartOf(start, count);
    if k + i < count then k + i else k + i - count
  }

  lemma RotatedAt(s: seq<Channel>, start: nat, i: nat)
    requires i < |s|
    ensures 0 <= Visit(start, |s|, i) < |s| && Rotated(s, start)[i] == s[Visit(start, |s|, i)]
  {
  }

  lemma RotatedSame(s: seq<Channel>, start: nat)
    ensures multiset(Rotated(s, start)) == multiset(s)
  {
    var k := StartOf(start, |s|);
    assert s == s[..k] + s[k..];
  }

  /** The order in which one retry pass visits the channels of a snapshot. */
  method RetryOrder(snapshot: seq<Channel>, start: nat) returns (visited: seq<Channel>)
    ensures visited == Rotated(snapshot, start) && multiset(visited) == multiset(snapshot)
  {
    hide Rotated;
    visited := [];
    var rotation: nat, count := start, |snapshot|;
    for i := 0 to count
      invariant i < count ==> StartOf(rotation, count) == Visit(start, count, i)
      invariant visited == Rotated(snapshot, start)[..i]
    {
      RotatedAt(snapshot, start, i);
      if rotation >= count {
        rotation := 0;
      }
      visited := visited + [snapshot[rotation]];
      rotation := rotation + 1;
    }
    assert Rotated(snapshot, start)[..count] == Rotated(snapshot, start);
    RotatedSame(snapshot, start);
  }

  // ---- where the retry passes start ----

  /** The stored rotation after a pass over `count` channels. */
  function NextRotation(rotation: nat, count: nat): (r: nat)
    ensures r <= count
  {
    if rotation + 1 > count then 0 else rotation + 1
  }

  function RotationAfter(rotation: nat, count: nat, passes: nat): (r: nat) {
    if passes == 0 then rotation else NextRotation(RotationAfter(rotation, count, passes - 1), count)
  }

  lemma {:induction false} RotationCounts(rotation: nat, count: nat, passes: nat)
    requires rotation + passes <= count
    ensures RotationAfter(rotation, count, passes) == rotation + passes
  {
    if passes > 0 {
      RotationCounts(rotation, count, passes - 1);
    }
  }

  lemma {:induction false} RotationJoin(rotation: nat, count: nat, a: nat, b: nat)
    ensures RotationAfter(rotation, count, a + b) == RotationAfter(RotationAfter(rotation, count, a), count, b)
  {
    if b > 0 {
      RotationJoin(rotation, count, a, b - 1);
    }
  }

  /** No channel is starved: among any count + 1 passes, each position is the starting one. */
  lemma EveryStart(rotation: nat, count: nat, i: nat) returns (passes: nat)
    requires rotation <= count && i < count
    ensures passes <= count && StartOf(RotationAfter(rotation, count, passes), count) == i
  {
    if rotation <= i {
      passes := i - rotation;
      RotationCounts(rotation, count, passes);
    } else {
      var turn := count - rotation + 1;
      RotationCounts(rotation, count, turn - 1);
      assert RotationAfter(rotation, count, turn) == 0;
      RotationCounts(0, count, i);
      RotationJoin(rotation, count, turn, i);
      passes := turn + i;
    }
  }

  /** Writes one more element after the first n. */
  method PutNext(a: array<Channel>, n: nat, x: Channel)
    requires n < a.Length
    modifies a
    ensures a[..n + 1] == old(a[..n]) + [x]
  {
    a[n] := x;
  }

  /** Exactly the first n flags are set. */
  ghost predicate ActiveBelow(flags: seq<bool>, n: nat) {
    forall id | 0 <= id < |flags| :: flags[id] <==> id < n
  }

  lemma ActiveNext(flags: seq<bool>, n: nat)
    requires ActiveBelow(flags, n) && n < |flags|
    ensures ActiveBelow(flags[n := true], n + 1)
  {
  }

  class Order {
    var dirty: bool
    var count: nat
    var rotation: nat
    var priority: Priorities
    const order: array<Channel>
    const creation: array<Channel>
    const active: array<bool>

    /** Channels are created without gaps; the order is a permutation of them, and sorted unless dirty. */
    ghost predicate Valid()
      reads this, order, creation, active
    {
      && order.Length == creation.Length == active.Length == CHANNELS && order != creation
      && count <= CHANNELS
      && ActiveBelow(active[..], count)
      && creation[..count] == Ascending(count)
      && PermutationOf(order[..count], count)
      && (!dirty ==> SortedRange(priority, order[..], 0, count))
    }

    constructor ()
      ensures Valid() && count == 0 && rotation == 0 && fresh(order) && fresh(creation) && fresh(active)
      ensures !dirty && forall c | 0 <= c < 32 :: priority[c] == 0
    {
      dirty, count, rotation := false, 0, 0;
      priority := seq(32, _ => 0);
      order := new Channel[CHANNELS](_ => 0);
      creation := new Channel[CHANNELS](_ => 0);
      active := new bool[CHANNELS](_ => false);
      new;
      assert creation[..0] == Ascending(0) && order[..0] == [];
    }

    /** Create the channel and every missing one below it. */
    method Register(channel: nat)
      requires Valid()
      modifies this`count, this`dirty, order, creation, active
      ensures Valid()
      ensures count == if channel < CHANNELS && channel >= old(count) then channel + 1 else old(count)
      ensures count == old(count) ==> dirty == old(dirty) && order[..] == old(order[..])
    {
      if channel >= CHANNELS {
        return;
      }
      if !active[channel] {
        for id := 0 to channel + 1
          invariant Valid() && count == if id > old(count) then id else old(count)
        {
          if !active[id] {
            Append(id);
          }
        }
      }
    }

    /** Add the next channel at the end of both arrays. */
    method Append(id: Channel)
      requires Valid() && id == count
      modifies this`count, this`dirty, order, creation, active
      ensures Valid() && count == old(count) + 1
    {
      hide SortedRange, PermutationOf, Ascending, ActiveBelow;
      PermutationAppend(order[..count], count);
      AscendingAppend(count);
      ActiveNext(active[..], count);
      ghost var flags := active[..];
      PutNext(creation, count, id);
      PutNext(order, count, id);
      active[id] := true;
      assert active[..] == flags[id := true];
      count := count + 1;
      dirty := true;
    }

    method SetPriority(channel: nat, value: int)
      requires Valid()
      modifies this`count, this`dirty, this`priority, order, creation, active
      ensures Valid()
      ensures channel >= CHANNELS ==> priority == old(priority) && count == old(count) && dirty == old(dirty)
      ensures channel < CHANNELS ==> priority == old(priority)[channel := value] && channel < count && dirty
    {
      if channel >= CHANNELS {
        return;
      }
      Register(channel);
      dirty := true;
      priority := priority[channel := value];
    }

    /** Every registered channel once, in non-increasing priority; taking it again changes nothing. */
    method Snapshot() returns (snapshot: seq<Channel>)
      requires Valid()
      modifies this`dirty, order
      ensures Valid() && !dirty && snapshot == order[..count]
      ensures PermutationOf(snapshot, count) && SortedRange(priority, snapshot, 0, count)
      ensures !old(dirty) ==> order[..] == old(order[..])
    {
      if dirty {
        for i := 0 to count
          invariant forall j | 0 <= j < i :: order[j] == creation[j]
          invariant creation[..count] == Ascending(count)
        {
          order[i] := creation[i];
        }
        assert order[..count] == creation[..count];
        Sort(priority, order, count);
        dirty := false;
      }
      snapshot := order[..count];
      assert forall i | 0 <= i < count :: snapshot[i] == order[..][i];
    }

    /** One retry pass over a snapshot, starting at the rotation; the next pass starts one further. */
    method RetryPass(snapshot: seq<Channel>, start: nat, connected: bool) returns (visited: seq<Channel>)
      requires Valid()
      modifies this`rotation
      ensures Valid()
      ensures connected ==> visited == Rotated(snapshot, start) && rotation == NextRotation(old(rotation), |snapshot|)
      ensures !connected ==> visited == [] && rotation == old(rotation)
    {
      hide PermutationOf, SortedRange, Ascending;
      if !connected {
        return [];
      }
      visited := RetryOrder(snapshot, start);
      rotation := rotation + 1;
      if rotation > |snapshot| {
        rotation := 0;
      }
    }
  }
}

/** Ring buffers: an array read from a head, wrapping around at its end. */
module Rings {
  import opened Modular

  /** The elements of a ring from oldest to newest. */
  ghost function Unrolled<T>(data: seq<T>, head: nat, count: nat): (s: seq<T>)
    requires count <= |data|
    ensures |s| == count
  {
    seq(count, i requires 0 <= i < count => data[(head + i) % |data|])
  }

  lemma UnrolledFlat<T>(data: seq<T>, count: nat)
    requires count <= |data|
    ensures Unrolled(data, 0, count) == data[..count]
  {
    forall i | 0 <= i < count
      ensures Unrolled(data, 0, count)[i] == data[i]
    {
      ModUnique(i, |data|, 0, i);
    }
  }

  lemma UnrolledPop<T>(data: seq<T>, head: nat, count: nat)
    requires 0 < count <= |data|
    ensures Unrolled(data, (head + 1) % |data|, count - 1) == Unrolled(data, head, count)[1..]
  {
    var s, t := Unrolled(data, head, count), Unrolled(data, (head + 1) % |data|, count - 1);
    forall i | 0 <= i < count - 1
      ensures t[i] == s[i + 1]
    {
      SlotShift(head, i, |data|);
    }
  }

  /** Writing at offset k changes that element only. */
  lemma UnrolledWrite<T>(data: seq<T>, head: nat, count: nat, k: nat, x: T)
    requires k < count <= |data|
    ensures Unrolled(data[(head + k) % |data| := x], head, count) == Unrolled(data, head, count)[k := x]
  {
    var s, t := Unrolled(data, head, count), Unrolled(data[(head + k) % |data| := x], head, count);
    forall i | 0 <= i < count
      ensures t[i] == s[k := x][i]
    {
      if i < k {
        SlotInjective(head, i, k, |data|);
      } else if k < i {
        SlotInjective(head, k, i, |data|);
      }
    }
  }

  lemma UnrolledGrow<T>(data: seq<T>, head: nat, count: nat)
    requires count < |data|
    ensures Unrolled(data, head, count + 1) == Unrolled(data, head, count) + [data[(head + count) % |data|]]
  {
  }

  lemma SlotShift(h: nat, i: nat, cap: nat)
    requires cap > 0
    ensures ((h + 1) % cap + i) % cap == (h + (i + 1)) % cap
  {
    var q := (h + 1) / cap;
    assert h + 1 + i == (h + 1) % cap + i + cap * q;
    ModAdd((h + 1) % cap + i, q, cap);
  }
}

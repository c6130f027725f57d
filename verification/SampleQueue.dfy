/** The ring buffer that holds network samples: a power-of-two array that doubles when full. */
module SampleQueue {
  import opened Words
  import opened Rings

  datatype Sample = Sample(timestamp: U32, value: U32, lost: bool)

  predicate RingSize(cap: nat) {
    cap == 8 || (cap > 8 && cap % 2 == 0 && RingSize(cap / 2))
  }

  class Queue {
    var data: array<Sample>
    var head: nat
    var count: nat

    ghost predicate Valid()
      reads this
    {
      && count <= data.Length
      && (if data.Length == 0 then head == 0 else RingSize(data.Length) && head < data.Length)
    }

    ghost function Contents(): (s: seq<Sample>)
      requires Valid()
      reads this, data
      ensures |s| == count
    {
      Unrolled(data[..], head, count)
    }

    constructor ()
      ensures Valid() && Contents() == [] && fresh(data)
    {
      data := new Sample[0];
      head, count := 0, 0;
    }

    method At(index: nat) returns (s: Sample)
      requires Valid() && index < count
      ensures s == Contents()[index]
    {
      s := data[(head + index) % data.Length];
    }

    /** Room for one more sample; growing moves the content to the front of a larger array. */
    method Reserve(memory: bool) returns (ok: bool)
      requires Valid()
      modifies this`data, this`head
      ensures Valid() && Contents() == old(Contents())
      ensures ok <==> old(count < data.Length) || memory
      ensures ok ==> count < data.Length
      ensures data == old(data) || fresh(data)
    {
      hide Unrolled;
      if count < data.Length {
        return true;
      }
      if !memory {
        return false;
      }
      var capacity := if data.Length > 0 then data.Length * 2 else 8;
      var bigger := new Sample[capacity](_ => Sample(0, 0, false));
      ghost var s := Contents();
      for i := 0 to count
        modifies bigger
        invariant Contents() == s
        invariant bigger[..i] == s[..i]
      {
        var x := At(i);
        bigger[i] := x;
        assert bigger[..i + 1] == bigger[..i] + [x];
      }
      UnrolledFlat(bigger[..], count);
      data, head := bigger, 0;
      return true;
    }

    method Pop()
      requires Valid() && count > 0
      modifies this`head, this`count
      ensures Valid() && Contents() == old(Contents())[1..]
    {
      hide Unrolled;
      UnrolledPop(data[..], head, count);
      head := (head + 1) % data.Length;
      count := count - 1;
    }

    method Push(sample: Sample)
      requires Valid() && count < data.Length
      modifies this`count, data
      ensures Valid() && Contents() == old(Contents()) + [sample]
    {
      hide Unrolled;
      ghost var d := data[..];
      UnrolledGrow(d, head, count);
      UnrolledWrite(d, head, count + 1, count, sample);
      data[(head + count) % data.Length] := sample;
      assert data[..] == d[(head + count) % |d| := sample];
      count := count + 1;
    }

    /** Replace the newest sample. */
    method Amend(sample: Sample)
      requires Valid() && count > 0
      modifies data
      ensures Valid() && Contents() == old(Contents())[count - 1 := sample]
    {
      hide Unrolled;
      ghost var d := data[..];
      UnrolledWrite(d, head, count, count - 1, sample);
      data[(head + (count - 1)) % data.Length] := sample;
      assert data[..] == d[(head + (count - 1)) % |d| := sample];
    }
  }
}

/** Running totals of network samples over a sliding window, as machine words. */
module NetworkStats {
  import opened Words
  import opened Modular
  import opened Rings
  import opened SampleQueue
  import opened NetworkWindow

  /** Packets received and lost, with records of the same tick and kind merged. */
  class Packets {
    const queue: Queue
    var total: U32
    var lost: U32
    ghost var entries: seq<Entry>
    ghost var history: seq<Entry>
    ghost var last: nat

    ghost predicate Valid()
      reads this, queue, queue.data
    {
      && queue.Valid() && Held(queue.Contents(), entries, last)
      && total == Wrap32(Sum(entries, 0, false)) && lost == Wrap32(Sum(entries, 0, true))
    }

    /** The queue holds exactly the part of the history inside the window. */
    ghost predicate Fresh()
      reads this`entries, this`history, this`last
    {
      Exact(entries, history, last)
    }

    constructor ()
      ensures Valid() && Fresh() && history == [] && entries == [] && last == 0 && fresh(queue) && fresh(queue.data)
    {
      queue := new Queue();
      total, lost, entries, history, last := 0, 0, [], [], 0;
    }

    /**
     * Record packets at a time not before the last one. The queue stays the window of the history exactly if no
     * retained entry has lapsed, and then the totals are those of the history inside the window.
     */
    method Record(now: U32, ghost time: nat, count: S32, isLost: bool, memory: bool) returns (ok: bool)
      requires Valid() && now == Wrap32(time) && last <= time
      modifies this`total, this`lost, this`entries, this`history, this`last, queue, queue.data
      ensures Valid() && (queue.data == old(queue.data) || fresh(queue.data)) && (memory ==> ok)
      ensures !ok ==> history == old(history) && last == old(last) && entries == old(entries)
      ensures ok ==> history == old(history) + [Entry(time, count, isLost)] && last == time
      ensures ok ==> Advances(old(entries), entries, Entry(time, count, isLost))
      ensures ok && old(Fresh()) ==> (Fresh() <==> NoLapse(old(entries), time))
      ensures old(queue.count) > 0 ==>
                var newest := old(queue.Contents())[old(queue.count) - 1];
                newest.timestamp == now && newest.lost == isLost ==> ok && queue.count == old(queue.count)
      ensures Fresh() ==> total == Wrap32(Sum(history, last - WINDOW, false)) && lost == Wrap32(Sum(history, last - WINDOW, true))
    {
      hide Sum, Held, Exact, NoLapse, Wrap32, Advances;
      var merge := false;
      if queue.count > 0 {
        var newest := queue.At(queue.count - 1);
        merge := newest.timestamp == now && newest.lost == isLost;
      }
      ok := true;
      if merge {
        Merge(now, time, count, isLost);
        Count(count, isLost);
      } else {
        ok := queue.Reserve(memory);
        if ok {
          Append(now, time, count, isLost);
          Count(count, isLost);
        }
      }
      if Fresh() {
        WindowTotal(entries, history, last, false);
        WindowTotal(entries, history, last, true);
      }
    }

    /** What holds between the change of the queue and that of the totals. */
    ghost predicate Uncounted(count: int, isLost: bool)
      reads this, queue, queue.data
    {
      && queue.Valid() && Held(queue.Contents(), entries, last)
      && total == Wrap32(Sum(entries, 0, false) - count)
      && lost == Wrap32(Sum(entries, 0, true) - if isLost then count else 0)
    }

    /** The last step of a record: add it to the totals. */
    method Count(count: S32, isLost: bool)
      requires Uncounted(count, isLost)
      modifies this`total, this`lost
      ensures Valid()
    {
      hide Sum, Held, Wrap32;
      WrapSum(Sum(entries, 0, false) - count, count);
      WrapSum(Sum(entries, 0, true) - count, count);
      total := Wrap32(total + Wrap32(count));
      if isLost {
        lost := Wrap32(lost + Wrap32(count));
      }
    }

    method Merge(now: U32, ghost time: nat, count: S32, isLost: bool)
      requires Valid() && now == Wrap32(time) && last <= time && queue.count > 0
      requires var s := queue.Contents()[queue.count - 1]; s.timestamp == now && s.lost == isLost
      modifies this`entries, this`history, this`last, queue.data
      ensures Uncounted(count, isLost) && history == old(history) + [Entry(time, count, isLost)] && last == time
      ensures Advances(old(entries), entries, Entry(time, count, isLost))
      ensures old(Fresh()) ==> (Fresh() <==> NoLapse(old(entries), time))
    {
      hide Sum, Held, Exact, NoLapse, Wrap32, Amended, Advances;
      ghost var e := Entry(time, count, isLost);
      var newest := queue.At(queue.count - 1);
      var s := newest.(value := Wrap32(newest.value + Wrap32(count)));
      HeldMerge(queue.Contents(), entries, last, time, s, e);
      if Exact(entries, history, last) {
        MergeExact(queue.Contents(), entries, history, last, time, e);
      }
      AdvancesMerge(entries, e);
      queue.Amend(s);
      entries, history, last := Amended(entries, count), history + [e], time;
    }

    method Append(now: U32, ghost time: nat, count: S32, isLost: bool)
      requires Valid() && now == Wrap32(time) && last <= time && queue.count < queue.data.Length
      modifies this`total, this`lost, this`entries, this`history, this`last, queue`head, queue`count, queue.data
      ensures Uncounted(count, isLost) && history == old(history) + [Entry(time, count, isLost)] && last == time
      ensures Advances(old(entries), entries, Entry(time, count, isLost))
      ensures old(Fresh()) ==> (Fresh() <==> NoLapse(old(entries), time))
    {
      hide Sum, Held, Exact, NoLapse, Wrap32, Stale, Trimmed, Advances;
      ghost var e := Entry(time, count, isLost);
      ghost var before := entries;
      HeldTimes(queue.Contents(), entries, last, time);
      DropStale(now, time);
      var s := Sample(now, Wrap32(count), isLost);
      HeldPush(queue.Contents(), entries, last, time, s, e);
      if Exact(before, history, last) {
        PushExact(queue.Contents(), before, entries, history, last, time, e);
      }
      AdvancesPush(before, entries, e);
      queue.Push(s);
      entries, history, last := entries + [e], history + [e], time;
    }

    /** Pop samples that the age test finds stale, taking them out of the totals. */
    method DropStale(now: U32, ghost time: nat)
      requires Valid() && queue.count < queue.data.Length && now == Wrap32(time) && last <= time
      modifies this`total, this`lost, this`entries, queue`head, queue`count
      ensures Valid() && queue.count < queue.data.Length && Trimmed(old(entries), entries, time)
      ensures |queue.Contents()| > 0 ==> !Stale(queue.Contents()[0], now)
    {
      hide Sum, Held, Wrap32, Stale, Trimmed;
      TrimmedStart(entries, time);
      while queue.count > 0
        invariant Valid() && queue.count < queue.data.Length && Trimmed(old(entries), entries, time)
        decreases queue.count
      {
        var oldest := queue.At(0);
        if !Stale(oldest, now) {
          break;
        }
        TrimStep(queue.Contents(), old(entries), entries, last, time);
        WrapDifference(Sum(entries, 0, false), entries[0].weight);
        WrapDifference(Sum(entries, 0, true), entries[0].weight);
        total := Wrap32(total - oldest.value);
        if oldest.lost {
          lost := Wrap32(lost - oldest.value);
        }
        queue.Pop();
        entries := entries[1..];
      }
    }
  }

  lemma WordExact(x: U32)
    ensures Wrap32(x) == x
  {
  }

  /** Round-trip times; records are never merged. */
  class Pings {
    const queue: Queue
    var sum: U32
    ghost var entries: seq<Entry>
    ghost var history: seq<Entry>
    ghost var last: nat

    ghost predicate Valid()
      reads this, queue, queue.data
    {
      && queue.Valid() && Held(queue.Contents(), entries, last) && Counts(entries, history, last)
      && sum == Wrap32(Sum(entries, 0, false))
    }

    ghost predicate Fresh()
      reads this`entries, this`history, this`last
    {
      Exact(entries, history, last)
    }

    constructor ()
      ensures Valid() && Fresh() && history == [] && entries == [] && last == 0 && fresh(queue) && fresh(queue.data)
    {
      queue := new Queue();
      sum, entries, history, last := 0, [], [], 0;
    }

    /**
     * Record a round trip at a time not before the last one. Unless a retained entry has lapsed, the sum and the
     * number of samples behind the mean are those of the history inside the window.
     */
    method Record(ticks: U32, now: U32, ghost time: nat, memory: bool) returns (ok: bool)
      requires Valid() && now == Wrap32(time) && last <= time
      modifies this`sum, this`entries, this`history, this`last, queue, queue.data
      ensures Valid() && (queue.data == old(queue.data) || fresh(queue.data)) && (memory ==> ok)
      ensures !ok ==> history == old(history) && last == old(last) && entries == old(entries)
      ensures ok ==> history == old(history) + [Entry(time, ticks, false)] && last == time
      ensures ok && old(Fresh()) ==> (Fresh() <==> NoLapse(old(entries), time))
      ensures Fresh() ==> sum == Wrap32(Sum(history, last - WINDOW, false)) && queue.count == Number(history, last - WINDOW)
    {
      hide Sum, Number, Held, Exact, Counts, NoLapse, Wrap32, Stale, Trimmed;
      ok := queue.Reserve(memory);
      if ok {
        ghost var e := Entry(time, ticks, false);
        ghost var before := entries;
        HeldTimes(queue.Contents(), entries, last, time);
        DropStale(now, time);
        var s := Sample(now, ticks, false);
        WordExact(ticks);
        WrapSum(Sum(entries, 0, false), ticks);
        HeldPush(queue.Contents(), entries, last, time, s, e);
        PushCounts(before, entries, history, last, e);
        if Exact(before, history, last) {
          PushExact(queue.Contents(), before, entries, history, last, time, e);
        }
        queue.Push(s);
        entries, history, last := entries + [e], history + [e], time;
        sum := Wrap32(sum + ticks);
      }
      Totals();
    }

    lemma Totals()
      requires Valid()
      ensures Fresh() ==> sum == Wrap32(Sum(history, last - WINDOW, false)) && queue.count == Number(history, last - WINDOW)
    {
      hide Sum, Number, Wrap32;
      if Fresh() {
        WindowTotal(entries, history, last, false);
        WindowNumber(entries, history, last);
      }
    }

    method DropStale(now: U32, ghost time: nat)
      requires queue.Valid() && Held(queue.Contents(), entries, last) && sum == Wrap32(Sum(entries, 0, false))
      requires queue.count < queue.data.Length && now == Wrap32(time) && last <= time
      modifies this`sum, this`entries, queue`head, queue`count
      ensures queue.Valid() && Held(queue.Contents(), entries, last) && sum == Wrap32(Sum(entries, 0, false))
      ensures queue.count < queue.data.Length && Trimmed(old(entries), entries, time)
      ensures |queue.Contents()| > 0 ==> !Stale(queue.Contents()[0], now)
    {
      hide Sum, Held, Wrap32, Stale, Trimmed;
      TrimmedStart(entries, time);
      while queue.count > 0
        invariant queue.Valid() && Held(queue.Contents(), entries, last) && sum == Wrap32(Sum(entries, 0, false))
        invariant queue.count < queue.data.Length && Trimmed(old(entries), entries, time)
        decreases queue.count
      {
        var oldest := queue.At(0);
        if !Stale(oldest, now) {
          break;
        }
        TrimStep(queue.Contents(), old(entries), entries, last, time);
        WrapDifference(Sum(entries, 0, false), entries[0].weight);
        sum := Wrap32(sum - oldest.value);
        queue.Pop();
        entries := entries[1..];
      }
    }
  }

  /** Bytes per window, as a 64-bit total; records of the same tick are merged. */
  class Bitrate {
    const queue: Queue
    var bytes: U64
    ghost var entries: seq<Entry>
    ghost var history: seq<Entry>
    ghost var last: nat
    /** What the dropped entries have lost by being stored in 32 bits. */
    ghost var error: int

    /** The total is that of the entries, but for the error. */
    ghost predicate Valid()
      reads this, queue, queue.data
    {
      && queue.Valid() && Held(queue.Contents(), entries, last) && Plain(entries)
      && bytes == Wrap64(Sum(entries, 0, false) + error)
    }

    /** The queue holds exactly the part of the history inside the window. */
    ghost predicate Fresh()
      reads this`entries, this`history, this`last
    {
      Exact(entries, history, last)
    }

    /** The total is that of the history inside the window. */
    ghost predicate Right()
      reads this`bytes, this`history, this`last
    {
      bytes == Wrap64(Sum(history, last - WINDOW, false))
    }

    /** The record joins the newest sample. */
    ghost predicate Joins(now: U32)
      requires queue.Valid()
      reads this, queue, queue.data
    {
      queue.count > 0 && queue.Contents()[queue.count - 1].timestamp == now
    }

    constructor ()
      ensures Valid() && Fresh() && Right() && error == 0 && queue.count == 0
      ensures history == [] && entries == [] && last == 0 && fresh(queue) && fresh(queue.data)
    {
      queue := new Queue();
      bytes, entries, history, last, error := 0, [], [], 0, 0;
    }

    /**
     * Record bytes at a time not before the last one. The queue stays the window of the history exactly if no
     * retained entry has lapsed. Then a right total stays right if and only if what the dropped entries lose adds up
     * to a multiple of 2^64; nothing is lost as long as the bytes of every tick fit an int32.
     */
    method Record(now: U32, ghost time: nat, count: S32, memory: bool) returns (ok: bool, ghost dropped: seq<Entry>)
      requires Valid() && now == Wrap32(time) && last <= time
      modifies this`bytes, this`entries, this`history, this`last, this`error, queue, queue.data
      ensures Valid() && (queue.data == old(queue.data) || fresh(queue.data)) && (memory ==> ok)
      ensures !ok ==> history == old(history) && last == old(last) && entries == old(entries) && bytes == old(bytes)
      ensures ok ==> history == old(history) + [Entry(time, count, false)] && last == time
      ensures dropped == if !ok || old(Joins(now)) then [] else StaleFront(old(entries), time)
      ensures ok ==> entries == if old(Joins(now)) then Amended(old(entries), count)
                                else old(entries)[|dropped|..] + [Entry(time, count, false)]
      ensures error == old(error) + Losses(dropped)
      ensures ok && old(Fresh()) ==> (Fresh() <==> NoLapse(old(entries), time))
      ensures Fresh() ==> (Right() <==> Wrap64(error) == 0)
      ensures ok && old(Fresh() && Right()) && NoLapse(old(entries), time) ==> (Right() <==> Wrap64(Losses(dropped)) == 0)
      ensures old(Narrow(entries)) ==> error == old(error)
      ensures ok && old(Fresh() && Narrow(entries)) && NoLapse(old(entries), time) ==>
                (Narrow(entries) <==> TickFits(old(history), time, count))
    {
      hide Sum, Held, Exact, NoLapse, Narrow, TickFits, Wrap32, Wrap64, StaleFront, Losses, Amended, Plain;
      LossesNone();
      Exactly();
      var merge := false;
      if queue.count > 0 {
        var newest := queue.At(queue.count - 1);
        merge := newest.timestamp == now;
      }
      ok, dropped := true, [];
      if merge {
        MergeBytes(now, time, count);
        Add(count);
      } else {
        ok := queue.Reserve(memory);
        if ok {
          dropped := AppendBytes(now, time, count);
          Add(count);
        }
      }
      Exactly();
      WordsApart(old(error), Losses(dropped));
    }

    lemma Exactly()
      requires Valid()
      ensures Fresh() ==> (Right() <==> Wrap64(error) == 0)
    {
      hide Sum, Held, Exact, Wrap64;
      if Fresh() {
        WindowTotal(entries, history, last, false);
        WordsApart(Sum(entries, 0, false), error);
      }
    }

    /** What holds between the change of the queue and that of the total. */
    ghost predicate Uncounted(count: int)
      reads this, queue, queue.data
    {
      && queue.Valid() && Held(queue.Contents(), entries, last) && Plain(entries)
      && bytes == Wrap64(Sum(entries, 0, false) + error - count)
    }

    method Add(count: S32)
      requires Uncounted(count)
      modifies this`bytes
      ensures Valid()
    {
      hide Sum, Held, Plain, Wrap64;
      Wrap64Sum(Sum(entries, 0, false) + error - count, count);
      bytes := Wrap64(bytes + count);
    }

    method MergeBytes(now: U32, ghost time: nat, count: S32)
      requires Valid() && now == Wrap32(time) && last <= time && queue.count > 0
      requires queue.Contents()[queue.count - 1].timestamp == now
      modifies this`entries, this`history, this`last, queue.data
      ensures Uncounted(count) && history == old(history) + [Entry(time, count, false)] && last == time
      ensures old(entries) != [] && entries == Amended(old(entries), count)
      ensures old(Fresh()) ==> (Fresh() <==> NoLapse(old(entries), time))
      ensures old(Fresh() && Narrow(entries)) && NoLapse(old(entries), time) ==>
                (Narrow(entries) <==> TickFits(old(history), time, count))
    {
      hide Sum, Held, Exact, NoLapse, Narrow, TickFits, Wrap32, Wrap64, Amended, Plain;
      var newest := queue.At(queue.count - 1);
      ghost var e := Entry(time, count, false);
      var s := newest.(value := Wrap32(newest.value + Wrap32(count)));
      PlainNewest(queue.Contents(), entries, last);
      HeldMerge(queue.Contents(), entries, last, time, s, e);
      PlainMerge(entries, count);
      if Fresh() {
        MergeExact(queue.Contents(), entries, history, last, time, e);
        if Narrow(entries) && NoLapse(entries, time) {
          NarrowMerge(queue.Contents(), entries, history, last, time, count);
        }
      }
      queue.Amend(s);
      entries, history, last := Amended(entries, count), history + [e], time;
    }

    method AppendBytes(now: U32, ghost time: nat, count: S32) returns (ghost dropped: seq<Entry>)
      requires Valid() && now == Wrap32(time) && last <= time && queue.count < queue.data.Length
      requires queue.count > 0 ==> queue.Contents()[queue.count - 1].timestamp != now
      modifies this`bytes, this`entries, this`history, this`last, this`error, queue`head, queue`count, queue.data
      ensures Uncounted(count) && history == old(history) + [Entry(time, count, false)] && last == time
      ensures dropped == StaleFront(old(entries), time) && error == old(error) + Losses(dropped)
      ensures entries == old(entries)[|dropped|..] + [Entry(time, count, false)]
      ensures old(Fresh()) ==> (Fresh() <==> NoLapse(old(entries), time))
      ensures old(Narrow(entries)) ==> Losses(dropped) == 0
      ensures old(Fresh() && Narrow(entries)) ==> Narrow(entries) && TickFits(old(history), time, count)
    {
      hide Sum, Held, Exact, NoLapse, Narrow, TickFits, Wrap32, Wrap64, Stale, Trimmed, StaleFront, Losses, Plain;
      ghost var e := Entry(time, count, false);
      ghost var before, q := entries, queue.Contents();
      HeldTimes(queue.Contents(), entries, last, time);
      dropped := DropStale(now, time);
      var s := Sample(now, Wrap32(count), false);
      HeldPush(queue.Contents(), entries, last, time, s, e);
      PlainPush(entries, e);
      if Narrow(before) {
        NarrowFront(before, time);
      }
      if Exact(before, history, last) {
        if Narrow(before) {
          NarrowPush(q, before, entries, history, last, time, count);
        }
        PushExact(queue.Contents(), before, entries, history, last, time, e);
      }
      queue.Push(s);
      entries, history, last := entries + [e], history + [e], time;
    }

    method DropStale(now: U32, ghost time: nat) returns (ghost dropped: seq<Entry>)
      requires Valid() && queue.count < queue.data.Length && now == Wrap32(time) && last <= time
      modifies this`bytes, this`entries, this`error, queue`head, queue`count
      ensures Valid() && queue.count < queue.data.Length && Trimmed(old(entries), entries, time)
      ensures |queue.Contents()| > 0 ==> !Stale(queue.Contents()[0], now)
      ensures dropped == StaleFront(old(entries), time) && entries == old(entries)[|dropped|..]
      ensures error == old(error) + Losses(dropped)
    {
      hide Sum, Held, Wrap32, Wrap64, Signed32, Stale, Trimmed, StaleFront, Losses, Loss, Plain, Unrolled;
      TrimmedStart(entries, time);
      LossesNone();
      dropped := [];
      while queue.count > 0
        invariant Valid() && queue.count < queue.data.Length && Trimmed(old(entries), entries, time)
        invariant old(entries) == dropped + entries && error == old(error) + Losses(dropped)
        invariant StaleFront(old(entries), time) == dropped + StaleFront(entries, time)
        decreases queue.count
      {
        var oldest := queue.At(0);
        FrontStep(queue.Contents(), old(entries), dropped, entries, last, time);
        if !Stale(oldest, now) {
          break;
        }
        TrimStep(queue.Contents(), old(entries), entries, last, time);
        LossesAppend(dropped, entries[0]);
        PlainPop(entries);
        TakeBack(Sum(entries, 0, false), error, entries[0].weight);
        bytes := Wrap64(bytes - Signed32(oldest.value));
        error := error + Loss(entries[0].weight);
        queue.Pop();
        dropped, entries := dropped + [entries[0]], entries[1..];
      }
      FrontEnd(queue.Contents(), entries, last, time);
    }
  }

  /** A record one turn of the clock after another still counts the old one. */
  method LapsedMiscounts() returns (p: Packets)
    ensures fresh(p) && p.Valid() && p.history == [Entry(0, 5, false), Entry(U32_SIZE + 1, 1, false)]
    ensures p.total == 6 && Sum(p.history, p.last - WINDOW, false) == 1
  {
    hide Sum, Held, Exact, NoLapse, Amended;
    p := new Packets();
    var ok := p.Record(0, 0, 5, false, true);
    var a, b := Entry(0, 5, false), Entry(U32_SIZE + 1, 1, false);
    assert p.entries == [a];
    ok := p.Record(1, U32_SIZE + 1, 1, false, true);
    LapsedStays(a, p.entries, b);
    SumTwo(a, b, p.last - WINDOW);
  }

  /** A record of the largest size at tick zero. */
  method LargeRecord() returns (b: Bitrate)
    ensures fresh(b) && fresh(b.queue) && fresh(b.queue.data) && b.Valid() && b.Fresh() && b.Right()
    ensures b.history == [Entry(0, 0x7fff_ffff, false)] && b.last == 0
    ensures b.entries == [Entry(0, 0x7fff_ffff, false)] && b.error == 0
  {
    hide Sum, Held, Exact, NoLapse, Narrow, Losses, StaleFront, TickFits, Amended, Plain, Wrap32, Wrap64, Unrolled;
    b := new Bitrate();
    Nothing(0);
    WordExact(0);
    ZeroWord();
    var ok, dropped := b.Record(0, 0, 0x7fff_ffff, true);
    assert b.entries == [Entry(0, 0x7fff_ffff, false)];
  }

  lemma ZeroWord()
    ensures Wrap64(0) == 0
  {
  }

  /** Two of them; the total is still right. */
  method TwoAtOnce() returns (b: Bitrate)
    ensures fresh(b) && fresh(b.queue) && fresh(b.queue.data) && b.Valid() && b.Fresh() && b.Right()
    ensures b.history == [Entry(0, 0x7fff_ffff, false), Entry(0, 0x7fff_ffff, false)] && b.last == 0
    ensures b.entries == [Entry(0, 0xffff_fffe, false)] && b.error == 0
  {
    hide Sum, Held, Exact, NoLapse, Narrow, Losses, StaleFront, TickFits, Amended, Plain, Wrap32, Wrap64, Unrolled;
    b := LargeRecord();
    var e := Entry(0, 0x7fff_ffff, false);
    Nothing(0);
    WordExact(0);
    ZeroWord();
    OneHeld(b.queue.Contents(), e, 0);
    OneEntry(e, 0);
    var ok, dropped := b.Record(0, 0, 0x7fff_ffff, true);
    AmendedOne(e, 0x7fff_ffff);
  }

  /** Bytes that overflow the int32 of their tick are taken back wrongly when the window has passed. */
  method OverflowMiscounts() returns (b: Bitrate)
    ensures fresh(b) && b.Valid() && b.Fresh() && !b.Right() && b.bytes == U32_SIZE + 1
    ensures b.history == [Entry(0, 0x7fff_ffff, false), Entry(0, 0x7fff_ffff, false), Entry(WINDOW + 1, 1, false)]
  {
    hide Sum, Held, Exact, NoLapse, Narrow, Losses, StaleFront, TickFits, Amended, Plain, Unrolled;
    b := TwoAtOnce();
    var twice, one := Entry(0, 0xffff_fffe, false), Entry(WINDOW + 1, 1, false);
    OneHeld(b.queue.Contents(), twice, 0);
    OneEntry(twice, WINDOW + 1);
    OneEntry(one, WINDOW + 1);
    var ok, dropped := b.Record(WINDOW + 1, WINDOW + 1, 1, true);
    assert b.entries == [one];
  }
}

/** The two-class rate shaper of the outgoing transport, in 16.16 second ticks on a 32-bit clock. */
module OutgoingShaper {
  import opened Words
  import opened Modular

  const SLACK := 65

  /** 0 for unreliable, 1 for reliable data, -1 for packets that are never held back. */
  function PacketClass(packetType: nat): (r: int)
    ensures -1 <= r <= 1
  {
    var t := packetType % 128;
    if t == 3 || t == 4 then 0 else if t == 5 || t == 6 then 1 else -1
  }

  predicate Allowed(deadline: U32, now: U32) {
    Signed32(Wrap32(now - deadline)) >= 0
  }

  /** How many ticks a packet of this size occupies at this rate. */
  function Cost(rate: S32, wireBytes: U32): (r: int)
    requires rate != 0
  {
    TruncDiv(Signed32(Wrap32(wireBytes * 65536)), rate)
  }

  function AfterSend(deadline: U32, rate: S32, stamp: U32, wireBytes: U32): (r: U32) {
    if rate == 0 then stamp
    else
      var floor := Wrap32(stamp - SLACK);
      var from := if Signed32(Wrap32(deadline - floor)) >= 0 then deadline else floor;
      Wrap32(from + Cost(rate, wireBytes))
  }

  class Shaper {
    var rate0: S32
    var rate1: S32
    var deadline0: U32
    var deadline1: U32
    var blocked: bool

    constructor (now: U32)
      ensures rate0 == 12500000 && rate1 == 625000 && deadline0 == now && deadline1 == now && !blocked
    {
      rate0, rate1, deadline0, deadline1, blocked := 12500000, 625000, now, now, false;
    }

    method CanSend(packetType: nat, now: U32) returns (allowed: bool)
      modifies this`blocked
      ensures blocked == !allowed
      ensures var t := packetType % 128;
              allowed <==> (t == 3 || t == 4 ==> Allowed(deadline0, now)) && (t == 5 || t == 6 ==> Allowed(deadline1, now))
    {
      var cls := PacketClass(packetType);
      allowed := cls < 0 || Signed32(Wrap32(now - if cls == 0 then deadline0 else deadline1)) >= 0;
      blocked := !allowed;
    }

    method Sent(packetType: nat, stamp: U32, wireBytes: U32)
      modifies this`deadline0, this`deadline1
      ensures var t := packetType % 128;
              && deadline0 == (if t == 3 || t == 4 then AfterSend(old(deadline0), rate0, stamp, wireBytes) else old(deadline0))
              && deadline1 == (if t == 5 || t == 6 then AfterSend(old(deadline1), rate1, stamp, wireBytes) else old(deadline1))
    {
      hide Cost;
      var cls := PacketClass(packetType);
      if cls < 0 {
        return;
      }
      var rate := if cls == 0 then rate0 else rate1;
      var deadline := stamp;
      if rate != 0 {
        var floor := Wrap32(stamp - SLACK);
        var prior := if cls == 0 then deadline0 else deadline1;
        if Signed32(Wrap32(prior - floor)) >= 0 {
          floor := prior;
        }
        deadline := Wrap32(floor + Cost(rate, wireBytes));
      }
      if cls == 0 {
        deadline0 := deadline;
      } else {
        deadline1 := deadline;
      }
    }
  }

  // ---- one class over a whole run ----

  /** A send at an unwrapped time. */
  datatype Send = Send(time: nat, wireBytes: nat)

  /** Sends of one class in order: the deadlines follow the shaper, each send was allowed, packets
      are below 32768 bytes, and consecutive stamps are less than half the clock range apart. */
  ghost predicate Run(rate: S32, sends: seq<Send>, deadlines: seq<U32>) {
    && rate > 0 && |deadlines| == |sends| + 1
    && (forall i | 0 <= i < |sends| ::
          && sends[i].wireBytes < 32768
          && Allowed(deadlines[i], Wrap32(sends[i].time))
          && deadlines[i + 1] == AfterSend(deadlines[i], rate, Wrap32(sends[i].time), sends[i].wireBytes))
    && (forall i | 0 < i < |sends| :: Later(sends[i - 1], sends[i]))
  }

  ghost predicate Later(s: Send, t: Send) {
    s.time <= t.time < s.time + HALF_RANGE
  }

  ghost function TotalCost(rate: S32, sends: seq<Send>, n: nat): (r: int)
    requires rate != 0 && n <= |sends| && forall i | 0 <= i < n :: sends[i].wireBytes < 32768
  {
    if n == 0 then 0 else TotalCost(rate, sends, n - 1) + Cost(rate, sends[n - 1].wireBytes)
  }

  /** The deadline without wrap-around. */
  ghost function Deadline(rate: S32, sends: seq<Send>, deadlines: seq<U32>, n: nat): (r: int)
    requires Run(rate, sends, deadlines) && n <= |sends|
  {
    if n == 0 then
      if |sends| == 0 then deadlines[0] else sends[0].time - Signed32(Wrap32(Wrap32(sends[0].time) - deadlines[0]))
    else
      var d, floor := Deadline(rate, sends, deadlines, n - 1), sends[n - 1].time - SLACK;
      (if d >= floor then d else floor) + Cost(rate, sends[n - 1].wireBytes)
  }

  lemma QuotientBounds(n: nat, d: nat, q: int, r: nat)
    requires d > 0 && n == d * q + r && r < d
    ensures 0 <= q <= n
  {
    if q >= 0 {
      assert d * q >= q;
    }
  }

  lemma DivBounds(n: nat, d: nat)
    requires d > 0
    ensures 0 <= n / d <= n
  {
    QuotientBounds(n, d, n / d, n % d);
  }

  lemma CostBounds(rate: S32, wireBytes: nat)
    requires rate > 0 && wireBytes < 32768
    ensures 0 <= Cost(rate, wireBytes) < HALF_RANGE - SLACK
  {
    var n := wireBytes * 65536;
    SignedExact(n);
    DivBounds(n, rate);
  }

  /** The cost is the time the packet's bytes take at the rate, rounded down to ticks. */
  lemma CostExact(rate: S32, wireBytes: nat)
    requires rate > 0 && wireBytes < 32768
    ensures rate * Cost(rate, wireBytes) <= wireBytes * 65536 < rate * Cost(rate, wireBytes) + rate
  {
    SignedExact(wireBytes * 65536);
  }

  ghost function TotalBytes(sends: seq<Send>, n: nat): (r: nat)
    requires n <= |sends|
  {
    if n == 0 then 0 else TotalBytes(sends, n - 1) + sends[n - 1].wireBytes
  }

  lemma {:induction false} BytesForCost(rate: S32, sends: seq<Send>, n: nat)
    requires rate > 0 && n <= |sends| && forall i | 0 <= i < n :: sends[i].wireBytes < 32768
    ensures rate * TotalCost(rate, sends, n) <= 65536 * TotalBytes(sends, n) <= rate * (TotalCost(rate, sends, n) + n)
  {
    hide Cost;
    if n > 0 {
      BytesForCost(rate, sends, n - 1);
      CostExact(rate, sends[n - 1].wireBytes);
      var before, cost := TotalCost(rate, sends, n - 1), Cost(rate, sends[n - 1].wireBytes);
      assert rate * (before + cost) == rate * before + rate * cost;
      assert rate * (before + cost + n) == rate * (before + n - 1) + rate * cost + rate;
    }
  }

  /** The 32-bit deadline and its comparison agree with the unwrapped ones along the whole run. */
  lemma {:induction false} DeadlineTracks(rate: S32, sends: seq<Send>, deadlines: seq<U32>, n: nat)
    requires Run(rate, sends, deadlines) && n <= |sends| && |sends| > 0
    ensures Wrap32(Deadline(rate, sends, deadlines, n)) == deadlines[n]
    ensures n > 0 ==> sends[n - 1].time - SLACK <= Deadline(rate, sends, deadlines, n) < sends[n - 1].time + HALF_RANGE - SLACK
    ensures n < |sends| ==> sends[n].time - HALF_RANGE < Deadline(rate, sends, deadlines, n) <= sends[n].time
  {
    hide Wrap32, Signed32, Cost;
    var d := Deadline(rate, sends, deadlines, n);
    if n == 0 {
      FirstDeadline(sends[0].time, deadlines[0]);
    } else {
      var t, b := sends[n - 1].time, sends[n - 1].wireBytes;
      var d' := Deadline(rate, sends, deadlines, n - 1);
      DeadlineTracks(rate, sends, deadlines, n - 1);
      CostBounds(rate, b);
      StepTracks(rate, d', deadlines[n - 1], t, b);
      if n < |sends| {
        assert Later(sends[n - 1], sends[n]);
        assert Allowed(deadlines[n], Wrap32(sends[n].time));
        AllowedInRange(d, deadlines[n], sends[n].time);
      }
    }
  }

  lemma FirstDeadline(time: nat, deadline: U32)
    requires Allowed(deadline, Wrap32(time))
    ensures var d := time - Signed32(Wrap32(Wrap32(time) - deadline));
            Wrap32(d) == deadline && time - HALF_RANGE < d <= time
  {
  }

  lemma AllowedTracks(d: int, deadline: U32, time: nat)
    requires Wrap32(d) == deadline && -HALF_RANGE < time - d < HALF_RANGE
    ensures Allowed(deadline, Wrap32(time)) <==> d <= time
  {
    hide Wrap32, Signed32;
    WrapDifference(time, d);
    SignedExact(time - d);
  }

  /** A send that was let through came after its unwrapped deadline, even if the gap exceeds half range by the slack. */
  lemma AllowedInRange(d: int, deadline: U32, time: nat)
    requires Wrap32(d) == deadline && -HALF_RANGE < time - d < HALF_RANGE + SLACK && Allowed(deadline, Wrap32(time))
    ensures 0 <= time - d < HALF_RANGE
  {
    WrapDifference(time, d);
  }

  lemma StepTracks(rate: S32, d: int, deadline: U32, time: nat, wireBytes: nat)
    requires rate > 0 && wireBytes < 32768 && Wrap32(d) == deadline && time - HALF_RANGE < d <= time
    ensures Wrap32((if d >= time - SLACK then d else time - SLACK) + Cost(rate, wireBytes))
         == AfterSend(deadline, rate, Wrap32(time), wireBytes)
  {
    hide Wrap32, Signed32, Cost;
    var floor := time - SLACK;
    WrapDifference(time, 0);
    WrapDifference(time, -SLACK);
    WrapDifference(d, floor);
    SignedExact(d - floor);
    WrapDifference(d, Cost(rate, wireBytes));
    WrapDifference(floor, Cost(rate, wireBytes));
  }

  lemma {:induction false} DeadlineGrows(rate: S32, sends: seq<Send>, deadlines: seq<U32>, n: nat)
    requires Run(rate, sends, deadlines) && 0 < n <= |sends|
    ensures Deadline(rate, sends, deadlines, n) >= sends[0].time - SLACK + TotalCost(rate, sends, n)
  {
    hide Cost, AfterSend, Allowed;
    if n > 1 {
      DeadlineGrows(rate, sends, deadlines, n - 1);
    }
  }

  /** The shaper's bound: what was sent before the n-th allowed send fits into the time since the first
      send, plus a burst of 65 ticks. */
  lemma ShaperBound(rate: S32, sends: seq<Send>, deadlines: seq<U32>, n: nat)
    requires Run(rate, sends, deadlines) && n < |sends|
    ensures TotalCost(rate, sends, n) <= sends[n].time - sends[0].time + SLACK
  {
    hide Cost, AfterSend, Allowed;
    if n > 0 {
      DeadlineTracks(rate, sends, deadlines, n);
      DeadlineGrows(rate, sends, deadlines, n);
    }
  }

  /** In bytes: the rate times the time since the first send and a burst, plus a tick of rounding for each packet. */
  lemma ShaperBytes(rate: S32, sends: seq<Send>, deadlines: seq<U32>, n: nat)
    requires Run(rate, sends, deadlines) && n < |sends|
    ensures 65536 * TotalBytes(sends, n) <= rate * (sends[n].time - sends[0].time + SLACK + n)
  {
    hide Cost, AfterSend, Allowed, TotalCost, TotalBytes;
    ShaperBound(rate, sends, deadlines, n);
    BytesForCost(rate, sends, n);
    MulMonotone(rate, TotalCost(rate, sends, n) + n, sends[n].time - sends[0].time + SLACK + n);
  }

  /** After a run, the next send is let through exactly from its unwrapped deadline on. */
  lemma NextAllowed(rate: S32, sends: seq<Send>, deadlines: seq<U32>, time: nat)
    requires Run(rate, sends, deadlines) && |sends| > 0
    requires sends[|sends| - 1].time <= time < sends[|sends| - 1].time + HALF_RANGE - SLACK
    ensures Allowed(deadlines[|sends|], Wrap32(time)) <==> Deadline(rate, sends, deadlines, |sends|) <= time
  {
    hide Cost, AfterSend, Allowed, Wrap32;
    DeadlineTracks(rate, sends, deadlines, |sends|);
    AllowedTracks(Deadline(rate, sends, deadlines, |sends|), deadlines[|sends|], time);
  }
}

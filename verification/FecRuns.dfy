/** What the receiver guarantees over whole packet sequences. */
module FecRuns {
  import opened Words
  import opened Wrappers
  import opened GaloisField
  import opened LinearSystem
  import opened Elimination
  import opened ErasureCode
  import opened FecReceiver
  import opened FecPackets

  datatype Event = Event(packet: Packet, memory: Memory, out: Option<Vector>)

  /** A sequence of Add calls with the states between them. */
  ghost predicate Run(states: seq<State>, events: seq<Event>) {
    && |states| == |events| + 1
    && StateOk(states[0])
    && forall i | 0 <= i < |events| :: Step(states[i], events[i], states[i + 1])
  }

  ghost predicate Step(s: State, e: Event, s': State) {
    StateOk(s) && Adds(s, e.packet, e.memory, s', e.out)
  }

  lemma FreshOk(id: U16, l: Layout)
    requires LayoutOk(l)
    ensures GroupOk(FreshGroup(id, l)) && Held(FreshGroup(id, l)) == 0
  {
    hide CeilDiv;
    IndicesNone(NoneSeen(l.k + l.m), l.k + l.m);
  }

  /** Every Add keeps a well-formed group active, or none. */
  lemma StepKeepsOk(s: State, e: Event, s': State)
    requires Step(s, e, s')
    ensures StateOk(s')
  {
    hide Parse, CeilDiv, Completes, Delivers;
    if Parse(e.packet).Some? {
      ParsedLayout(e.packet);
      FreshOk(e.packet.header.packetId, Parse(e.packet).value);
    }
  }

  // ---- delivery order ----

  /** How far one step moves the delivery cursor forward, modulo 2^16. */
  function Jump(s: State, s': State): (r: U16) {
    Wrap16(s'.lastDelivered - s.lastDelivered)
  }

  /** A delivery moves the cursor onto the delivered id, strictly forward and by less than half
      the id space; nothing else moves it. */
  lemma StepMovesForward(s: State, e: Event, s': State)
    requires Step(s, e, s')
    ensures e.out.Some? ==> s'.lastDelivered == e.packet.header.packetId && 0 < Jump(s, s') < 0x8000
    ensures e.out.None? ==> Jump(s, s') == 0 && s'.lastDelivered == s.lastDelivered
  {
    hide Parse, CeilDiv, Completes, Delivers;
  }

  /** The total forward movement over the states from i to j. */
  ghost function Distance(states: seq<State>, i: nat, j: nat): (r: nat)
    requires i <= j < |states|
    decreases j
  {
    if i == j then 0 else Distance(states, i, j - 1) + Jump(states[j - 1], states[j])
  }

  lemma {:induction false} DistanceCongruent(states: seq<State>, i: nat, j: nat)
    requires i <= j < |states|
    ensures Wrap16(states[i].lastDelivered + Distance(states, i, j)) == states[j].lastDelivered
    decreases j
  {
    if i < j {
      DistanceCongruent(states, i, j - 1);
      WrapChain(states[i].lastDelivered + Distance(states, i, j - 1), states[j - 1].lastDelivered, states[j].lastDelivered);
    }
  }

  lemma WrapChain(a: int, b: U16, c: U16)
    requires Wrap16(a) == b
    ensures Wrap16(a + Wrap16(c - b)) == c
  {
  }

  lemma {:induction false} DistanceGrows(states: seq<State>, i: nat, k: nat, j: nat)
    requires i <= k <= j < |states|
    ensures Distance(states, i, j) == Distance(states, i, k) + Distance(states, k, j)
    decreases j
  {
    if k < j {
      DistanceGrows(states, i, k, j - 1);
    }
  }

  lemma Multiple(d: nat, x: U16)
    ensures Wrap16(x + d) == x <==> d % U16_SIZE == 0
  {
  }

  /** The cursor travels between two deliveries. */
  lemma DeliveryTravels(states: seq<State>, events: seq<Event>, i: nat, j: nat)
    requires Run(states, events) && i < j < |events| && events[j].out.Some?
    ensures Distance(states, i + 1, j + 1) > 0
  {
    hide Adds, StateOk;
    assert Step(states[j], events[j], states[j + 1]);
    StepMovesForward(states[j], events[j], states[j + 1]);
  }

  /**
   * Two deliveries are of the same id if and only if the cursor has travelled a whole number of turns through the
   * 16-bit ids in between, and that is at least one. So no group is delivered twice within a turn.
   */
  lemma NoSecondDelivery(states: seq<State>, events: seq<Event>, i: nat, j: nat)
    requires Run(states, events) && i < j < |events| && events[i].out.Some? && events[j].out.Some?
    ensures events[i].packet.header.packetId == events[j].packet.header.packetId
       <==> Distance(states, i + 1, j + 1) % U16_SIZE == 0
    ensures Distance(states, i + 1, j + 1) % U16_SIZE == 0 ==> Distance(states, i + 1, j + 1) >= U16_SIZE
  {
    hide Adds, StateOk;
    assert Step(states[i], events[i], states[i + 1]) && Step(states[j], events[j], states[j + 1]);
    StepMovesForward(states[i], events[i], states[i + 1]);
    StepMovesForward(states[j], events[j], states[j + 1]);
    DistanceCongruent(states, i + 1, j + 1);
    DeliveryTravels(states, events, i, j);
    Multiple(Distance(states, i + 1, j + 1), states[i + 1].lastDelivered);
  }

  // ---- delivery of one group ----

  ghost function Seen(events: seq<Event>, n: nat): (s: set<int>)
    requires n <= |events|
  {
    set i | 0 <= i < n :: events[i].packet.header.fragmentId as int
  }

  /** Every event carries a genuine shard of data block d, of the one group id. */
  ghost predicate GroupEvents(events: seq<Event>, id: U16, l: Layout, d: Matrix) {
    && Sendable(l) && Shape(d, l.k, l.size)
    && forall i | 0 <= i < |events| :: GenuineEvent(events[i], id, l, d)
  }

  /** The packet is, byte for byte, one that the sender of d transmits. */
  ghost predicate GenuineEvent(e: Event, id: U16, l: Layout, d: Matrix)
    requires Sendable(l) && Shape(d, l.k, l.size)
  {
    && e.memory == Memory(true, true) && e.packet.header.fragmentId < l.k + l.m
    && e.packet == SentPacket(e.packet.header, id, l, d, e.packet.header.fragmentId)
  }

  lemma GenuineParses(e: Event, id: U16, l: Layout, d: Matrix)
    requires Sendable(l) && Shape(d, l.k, l.size) && GenuineEvent(e, id, l, d)
    ensures LayoutOk(l) && e.memory == Memory(true, true) && e.packet.header.packetId == id
    ensures Parse(e.packet) == Some(l) && e.packet.header.fragmentId < l.k + l.m
    ensures Payload(e.packet) == Shard(d, l.m, l.size, e.packet.header.fragmentId)
  {
    hide Parse, Shard, CeilDiv, Sendable;
    SentParses(e.packet.header, id, l, d, e.packet.header.fragmentId);
    ParsedLayout(e.packet);
  }

  ghost predicate Collecting(g: Group, id: U16, l: Layout, d: Matrix, seen: set<int>)
    requires LayoutOk(l)
  {
    && GroupOk(g) && g.id == id && g.layout == l && Genuine(g, d)
    && (forall i | 0 <= i < l.k + l.m :: g.present[i] <==> i in seen)
    && (forall i :: i in seen ==> 0 <= i < l.k + l.m)
  }

  ghost function Positions(flags: seq<bool>, n: nat): (s: set<int>)
    requires n <= |flags|
  {
    set i | 0 <= i < n && flags[i]
  }

  lemma {:induction false} IndicesAreSet(flags: seq<bool>, n: nat)
    requires n <= |flags|
    ensures |Indices(flags, n, true)| == |Positions(flags, n)|
  {
    if n > 0 {
      IndicesAreSet(flags, n - 1);
      if flags[n - 1] {
        assert Positions(flags, n) == Positions(flags, n - 1) + {n - 1};
      } else {
        assert Positions(flags, n) == Positions(flags, n - 1);
      }
    } else {
      assert Positions(flags, n) == {};
    }
  }

  lemma HeldIsSeen(g: Group, id: U16, l: Layout, d: Matrix, seen: set<int>)
    requires LayoutOk(l) && Collecting(g, id, l, d, seen)
    ensures Held(g) == |seen|
  {
    hide CeilDiv, Genuine;
    IndicesAreSet(g.present, l.k + l.m);
    assert Positions(g.present, l.k + l.m) == seen;
  }

  /** Taking a genuine shard: nothing new, one more shard, or the delivery of the original bytes. */
  lemma TakeGenuine(g: Group, e: Event, id: U16, l: Layout, d: Matrix, seen: set<int>, last: U16, s': State)
    requires Sendable(l) && Shape(d, l.k, l.size) && Collecting(g, id, l, d, seen) && GenuineEvent(e, id, l, d)
    requires Takes(g, e.packet, e.memory, last, s', e.out)
    ensures var seen' := seen + {e.packet.header.fragmentId as int};
            if e.packet.header.fragmentId in seen || |seen'| < l.k then
              && e.out == None && s'.lastDelivered == last
              && s'.active.Some? && Collecting(s'.active.value, id, l, d, seen')
            else
              e.out == Some(Bytes(d, l)) && s' == State(None, id)
  {
    hide CeilDiv, Parse, Shard, Bytes, Indices, GenuineEvent;
    GenuineParses(e, id, l, d);
    var i := e.packet.header.fragmentId;
    if i in seen {
      assert seen + {i as int} == seen;
    } else {
      var g' := WithShard(g, i, Payload(e.packet));
      assert Collecting(g', id, l, d, seen + {i as int});
      HeldIsSeen(g', id, l, d, seen + {i as int});
      assert Genuine(g', d);
    }
  }

  /** The state after n events of the group: collecting its distinct shards, or done with it. */
  ghost predicate Progress(states: seq<State>, events: seq<Event>, n: nat, id: U16, l: Layout, d: Matrix)
    requires n < |states| && n <= |events| && |states| > 0 && LayoutOk(l)
  {
    var seen := Seen(events, n);
    if |seen| >= l.k then states[n] == State(None, id)
    else
      && states[n].lastDelivered == states[0].lastDelivered
      && (if n == 0 then !SameGroup(states[0], id)
          else states[n].active.Some? && Collecting(states[n].active.value, id, l, d, seen))
  }

  lemma SeenStep(events: seq<Event>, n: nat)
    requires n < |events|
    ensures Seen(events, n + 1) == Seen(events, n) + {events[n].packet.header.fragmentId as int}
  {
  }

  lemma AddOne(s: set<int>, x: int)
    ensures |s + {x}| == |s| + if x in s then 0 else 1
  {
    if x in s {
      assert s + {x} == s;
    }
  }

  lemma ProgressStep(states: seq<State>, events: seq<Event>, n: nat, id: U16, l: Layout, d: Matrix)
    requires Run(states, events) && GroupEvents(events, id, l, d) && n < |events|
    requires Ahead(id, states[0].lastDelivered) && Progress(states, events, n, id, l, d)
    ensures Progress(states, events, n + 1, id, l, d)
    ensures events[n].out == if |Seen(events, n)| < l.k == |Seen(events, n + 1)| then Some(Bytes(d, l)) else None
  {
    hide CeilDiv, Parse, Shard, Bytes, Indices, Takes, Collecting, FreshGroup, Seen, GenuineEvent;
    var e, seen := events[n], Seen(events, n);
    SeenStep(events, n);
    AddOne(seen, e.packet.header.fragmentId);
    assert GenuineEvent(e, id, l, d) && Step(states[n], e, states[n + 1]);
    GenuineParses(e, id, l, d);
    if |seen| < l.k {
      if n == 0 {
        FreshCollecting(id, l, d);
        assert seen == {} by { SeenNone(events); }
        TakeGenuine(FreshGroup(id, l), e, id, l, d, {}, states[n].lastDelivered, states[n + 1]);
      } else {
        CollectingGroup(states[n].active.value, id, l, d, seen);
        TakeGenuine(states[n].active.value, e, id, l, d, seen, states[n].lastDelivered, states[n + 1]);
      }
    } else {
      assert !Ahead(id, id);
    }
  }

  lemma SeenNone(events: seq<Event>)
    ensures Seen(events, 0) == {}
  {
  }

  lemma CollectingGroup(g: Group, id: U16, l: Layout, d: Matrix, seen: set<int>)
    requires LayoutOk(l) && Collecting(g, id, l, d, seen)
    ensures g.id == id && g.layout == l
  {
  }

  lemma FreshCollecting(id: U16, l: Layout, d: Matrix)
    requires LayoutOk(l) && Shape(d, l.k, l.size)
    ensures Collecting(FreshGroup(id, l), id, l, d, {})
  {
    hide CeilDiv;
    FreshOk(id, l);
  }

  lemma {:induction false} ProgressAll(states: seq<State>, events: seq<Event>, n: nat, id: U16, l: Layout, d: Matrix)
    requires Run(states, events) && GroupEvents(events, id, l, d) && n <= |events|
    requires Ahead(id, states[0].lastDelivered) && !SameGroup(states[0], id)
    ensures Progress(states, events, n, id, l, d)
  {
    hide CeilDiv, Step, GenuineEvent, Progress, Ahead;
    if n == 0 {
      ProgressStart(states, events, id, l, d);
    } else {
      ProgressAll(states, events, n - 1, id, l, d);
      ProgressStep(states, events, n - 1, id, l, d);
    }
  }

  lemma ProgressStart(states: seq<State>, events: seq<Event>, id: U16, l: Layout, d: Matrix)
    requires |states| > 0 && LayoutOk(l) && !SameGroup(states[0], id)
    ensures Progress(states, events, 0, id, l, d)
  {
    assert Seen(events, 0) == {};
    CeilPositive(l);
  }

  lemma CeilPositive(l: Layout)
    requires LayoutOk(l)
    ensures l.k > 0
  {
  }

  /** Genuine shards alone: the one that brings their number to that of the data shards delivers. */
  lemma ShardsDelivered(states: seq<State>, events: seq<Event>, n: nat, id: U16, l: Layout, d: Matrix)
    requires Run(states, events) && GroupEvents(events, id, l, d) && n < |events|
    requires Ahead(id, states[0].lastDelivered) && !SameGroup(states[0], id)
    ensures events[n].out == if |Seen(events, n)| < l.k == |Seen(events, n + 1)| then Some(Bytes(d, l)) else None
  {
    hide CeilDiv, Run, GroupEvents, Progress, Ahead, Seen, Bytes;
    ProgressAll(states, events, n, id, l, d);
    ProgressStep(states, events, n, id, l, d);
  }

  // ---- the header of a delivered group ----

  /** The stored header between the Add calls of a run. */
  ghost predicate HeaderRun(states: seq<State>, headers: seq<Header>, events: seq<Event>) {
    && |states| == |headers| == |events| + 1
    && forall i | 0 <= i < |events| :: headers[i + 1] == HeaderAfter(states[i], headers[i], events[i].packet, events[i].memory)
  }

  /** The earliest among the first n packets with the lowest fragment index. */
  ghost predicate Lowest(events: seq<Event>, n: nat, i: nat)
    requires n <= |events|
  {
    && i < n
    && (forall j | 0 <= j < n :: events[i].packet.header.fragmentId <= events[j].packet.header.fragmentId)
    && (forall j | 0 <= j < i :: events[i].packet.header.fragmentId < events[j].packet.header.fragmentId)
  }

  /** The first arrival time among the first n packets that is not the sentinel zero. */
  ghost function FirstArrival(events: seq<Event>, n: nat): (r: U32)
    requires n <= |events|
  {
    if n == 0 then 0
    else if FirstArrival(events, n - 1) != 0 then FirstArrival(events, n - 1)
    else events[n - 1].packet.header.receiveTimestamp
  }

  /** The arrival of the very first packet, unless the clock read zero. */
  lemma {:induction false} FirstArrivalIs(events: seq<Event>, n: nat)
    requires 0 < n <= |events| && events[0].packet.header.receiveTimestamp != 0
    ensures FirstArrival(events, n) == events[0].packet.header.receiveTimestamp
  {
    if n > 1 {
      FirstArrivalIs(events, n - 1);
    } else {
      assert FirstArrival(events, 0) == 0;
    }
  }

  /** The header stands for the first n packets: lowest index, first arrival and last arrival. */
  ghost predicate Summarizes(events: seq<Event>, n: nat, h: Header)
    requires n <= |events|
  {
    n > 0 && exists i: nat :: Lowest(events, n, i) && h == Stamped(events, n, i)
  }

  ghost function Stamped(events: seq<Event>, n: nat, i: nat): (h: Header)
    requires 0 < n <= |events| && i < n
  {
    events[i].packet.header.(receiveBegin := FirstArrival(events, n), receiveTimestamp := events[n - 1].packet.header.receiveTimestamp)
  }

  lemma SummaryStart(events: seq<Event>)
    requires |events| > 0
    ensures var h := events[0].packet.header; Summarizes(events, 1, MergeHeader(h.(receiveBegin := 0), h))
  {
    var h := events[0].packet.header;
    assert FirstArrival(events, 1) == h.receiveTimestamp by { assert FirstArrival(events, 0) == 0; }
    assert Lowest(events, 1, 0) && MergeHeader(h.(receiveBegin := 0), h) == Stamped(events, 1, 0);
  }

  lemma SummaryStep(events: seq<Event>, n: nat, h: Header)
    requires n < |events| && Summarizes(events, n, h)
    ensures Summarizes(events, n + 1, MergeHeader(h, events[n].packet.header))
  {
    var i: nat :| Lowest(events, n, i) && h == Stamped(events, n, i);
    var next := events[n].packet.header;
    var k := if next.fragmentId < h.fragmentId then n else i;
    assert Lowest(events, n + 1, k);
    assert MergeHeader(h, next) == Stamped(events, n + 1, k);
  }

  /** As long as a group is collected, the stored header stands for all of its packets so far. */
  lemma {:induction false} ShardsHeader(states: seq<State>, headers: seq<Header>, events: seq<Event>, n: nat,
                                        id: U16, l: Layout, d: Matrix)
    requires Run(states, events) && HeaderRun(states, headers, events) && GroupEvents(events, id, l, d) && n < |events|
    requires Ahead(id, states[0].lastDelivered) && !SameGroup(states[0], id) && |Seen(events, n)| < l.k
    ensures Summarizes(events, n + 1, headers[n + 1])
  {
    hide CeilDiv, Run, Summarizes, MergeHeader, Seen, Ahead, Collecting, Parse, Shard, GenuineEvent;
    var e := events[n];
    ProgressAll(states, events, n, id, l, d);
    GenuineParses(e, id, l, d);
    if n == 0 {
      SummaryStart(events);
    } else {
      SeenGrows(events, n - 1);
      CollectingGroup(states[n].active.value, id, l, d, Seen(events, n));
      ShardsHeader(states, headers, events, n - 1, id, l, d);
      SummaryStep(events, n, headers[n]);
    }
  }

  lemma SeenGrows(events: seq<Event>, n: nat)
    requires n < |events|
    ensures |Seen(events, n)| <= |Seen(events, n + 1)|
  {
    hide Seen;
    SeenStep(events, n);
    AddOne(Seen(events, n), events[n].packet.header.fragmentId);
  }

  // ---- among refused packets ----

  /** A refused packet changes nothing. */
  lemma RefusedIdle(s: State, e: Event, s': State)
    requires Step(s, e, s') && Refused(s, e.packet)
    ensures s' == s && e.out == None
  {
  }

  /** Every packet is a genuine shard of the group, or refused as it comes. */
  ghost predicate Mixed(states: seq<State>, events: seq<Event>, id: U16, l: Layout, d: Matrix) {
    && |states| == |events| + 1 && Sendable(l) && Shape(d, l.k, l.size)
    && forall i | 0 <= i < |events| :: GenuineEvent(events[i], id, l, d) || Refused(states[i], events[i].packet)
  }

  /** The genuine shards among the first n packets. */
  ghost function Shards(events: seq<Event>, n: nat, id: U16, l: Layout, d: Matrix): (r: seq<Event>)
    requires n <= |events| && Sendable(l) && Shape(d, l.k, l.size)
  {
    if n == 0 then []
    else Shards(events, n - 1, id, l, d) + if GenuineEvent(events[n - 1], id, l, d) then [events[n - 1]] else []
  }

  /** What stands before the first packet and after each genuine shard. */
  ghost function Between<T>(values: seq<T>, events: seq<Event>, n: nat, id: U16, l: Layout, d: Matrix): (r: seq<T>)
    requires n <= |events| < |values| && Sendable(l) && Shape(d, l.k, l.size)
    ensures |r| == |Shards(events, n, id, l, d)| + 1 && r[0] == values[0]
  {
    if n == 0 then [values[0]]
    else Between(values, events, n - 1, id, l, d) + if GenuineEvent(events[n - 1], id, l, d) then [values[n]] else []
  }

  /** Without the refused packets the run is still a run, and in the same state. */
  lemma {:induction false} WithoutRefused(states: seq<State>, events: seq<Event>, n: nat, id: U16, l: Layout, d: Matrix)
    requires Run(states, events) && Mixed(states, events, id, l, d) && n <= |events|
    ensures var es, ss := Shards(events, n, id, l, d), Between(states, events, n, id, l, d);
            Run(ss, es) && GroupEvents(es, id, l, d) && ss[|es|] == states[n]
  {
    hide Step, GenuineEvent, Refused, StateOk;
    if n > 0 {
      WithoutRefused(states, events, n - 1, id, l, d);
      var e := events[n - 1];
      assert Step(states[n - 1], e, states[n]);
      if !GenuineEvent(e, id, l, d) {
        RefusedIdle(states[n - 1], e, states[n]);
      }
    }
  }

  /** And with the same header. */
  lemma {:induction false} SameHeaders(states: seq<State>, headers: seq<Header>, events: seq<Event>, n: nat,
                                       id: U16, l: Layout, d: Matrix)
    requires Run(states, events) && HeaderRun(states, headers, events) && Mixed(states, events, id, l, d) && n <= |events|
    ensures var es, ss, hs := Shards(events, n, id, l, d), Between(states, events, n, id, l, d), Between(headers, events, n, id, l, d);
            HeaderRun(ss, hs, es) && hs[|es|] == headers[n]
  {
    hide Run, GenuineEvent, Refused, HeaderAfter;
    if n > 0 {
      SameHeaders(states, headers, events, n - 1, id, l, d);
      WithoutRefused(states, events, n - 1, id, l, d);
      var e := events[n - 1];
      if !GenuineEvent(e, id, l, d) {
        RefusedHeader(states[n - 1], headers[n - 1], e);
      }
    }
  }

  lemma RefusedHeader(s: State, h: Header, e: Event)
    requires Refused(s, e.packet)
    ensures HeaderAfter(s, h, e.packet, e.memory) == h
  {
  }

  /** How many distinct shards have come among the first n packets. */
  ghost function Distinct(events: seq<Event>, n: nat, id: U16, l: Layout, d: Matrix): (c: nat)
    requires n <= |events| && Sendable(l) && Shape(d, l.k, l.size)
  {
    var es := Shards(events, n, id, l, d);
    |Seen(es, |es|)|
  }

  lemma ShardsStep(events: seq<Event>, n: nat, id: U16, l: Layout, d: Matrix)
    requires n < |events| && Sendable(l) && Shape(d, l.k, l.size) && GenuineEvent(events[n], id, l, d)
    ensures var es, more := Shards(events, n, id, l, d), Shards(events, n + 1, id, l, d);
            more == es + [events[n]] && Seen(more, |es|) == Seen(es, |es|)
  {
    hide GenuineEvent;
    var es, more := Shards(events, n, id, l, d), Shards(events, n + 1, id, l, d);
    assert forall i | 0 <= i < |es| :: more[i] == es[i];
  }

  /**
   * A group whose genuine shards are not interleaved with another group's, but with any packets that are refused:
   * it is delivered by exactly the packet that brings the number of distinct shards to that of the data shards,
   * whichever shards these are and however often each is repeated; what comes out are the original bytes.
   */
  lemma GroupDelivered(states: seq<State>, events: seq<Event>, n: nat, id: U16, l: Layout, d: Matrix)
    requires Run(states, events) && Mixed(states, events, id, l, d) && n < |events|
    requires Ahead(id, states[0].lastDelivered) && !SameGroup(states[0], id)
    ensures events[n].out == if Distinct(events, n, id, l, d) < l.k == Distinct(events, n + 1, id, l, d)
                             then Some(Bytes(d, l)) else None
  {
    hide CeilDiv, Run, GenuineEvent, Refused, Ahead, Seen, Bytes, Shards, Between, GroupEvents;
    if GenuineEvent(events[n], id, l, d) {
      WithoutRefused(states, events, n + 1, id, l, d);
      ShardsStep(events, n, id, l, d);
      ShardsDelivered(Between(states, events, n + 1, id, l, d), Shards(events, n + 1, id, l, d),
                      |Shards(events, n, id, l, d)|, id, l, d);
    } else {
      StepAt(states, events, n);
      RefusedIdle(states[n], events[n], states[n + 1]);
      ShardsSkip(events, n, id, l, d);
    }
  }

  lemma StepAt(states: seq<State>, events: seq<Event>, n: nat)
    requires Run(states, events) && n < |events|
    ensures Step(states[n], events[n], states[n + 1])
  {
    hide Step;
  }

  lemma ShardsSkip(events: seq<Event>, n: nat, id: U16, l: Layout, d: Matrix)
    requires n < |events| && Sendable(l) && Shape(d, l.k, l.size) && !GenuineEvent(events[n], id, l, d)
    ensures Shards(events, n + 1, id, l, d) == Shards(events, n, id, l, d)
  {
    hide GenuineEvent;
  }

  /** The frame handed out carries the lowest fragment index of its packets, and their first and last arrival. */
  lemma DeliveredHeader(states: seq<State>, headers: seq<Header>, events: seq<Event>, n: nat,
                        id: U16, l: Layout, d: Matrix)
    requires Run(states, events) && HeaderRun(states, headers, events) && Mixed(states, events, id, l, d) && n < |events|
    requires Ahead(id, states[0].lastDelivered) && !SameGroup(states[0], id) && events[n].out.Some?
    ensures events[n].out == Some(Bytes(d, l))
    ensures var es := Shards(events, n + 1, id, l, d);
            |es| > 0 && es[|es| - 1] == events[n] && Summarizes(es, |es|, headers[n + 1])
  {
    hide CeilDiv, Run, HeaderAfter, GenuineEvent, Refused, Ahead, Seen, Bytes, Shards, Between, GroupEvents, Summarizes;
    GroupDelivered(states, events, n, id, l, d);
    if !GenuineEvent(events[n], id, l, d) {
      ShardsSkip(events, n, id, l, d);
    }
    ShardsStep(events, n, id, l, d);
    WithoutRefused(states, events, n + 1, id, l, d);
    SameHeaders(states, headers, events, n + 1, id, l, d);
    ShardsHeader(Between(states, events, n + 1, id, l, d), Between(headers, events, n + 1, id, l, d),
                 Shards(events, n + 1, id, l, d), |Shards(events, n, id, l, d)|, id, l, d);
  }

  /** While a group is collected, the stored header stands for all genuine shards so far, refused packets or not. */
  lemma GroupHeader(states: seq<State>, headers: seq<Header>, events: seq<Event>, n: nat, id: U16, l: Layout, d: Matrix)
    requires Run(states, events) && HeaderRun(states, headers, events) && Mixed(states, events, id, l, d) && n < |events|
    requires Ahead(id, states[0].lastDelivered) && !SameGroup(states[0], id)
    requires GenuineEvent(events[n], id, l, d) && Distinct(events, n, id, l, d) < l.k
    ensures var es := Shards(events, n + 1, id, l, d); Summarizes(es, |es|, headers[n + 1])
  {
    hide CeilDiv, Run, HeaderAfter, GenuineEvent, Refused, Ahead, Seen, Bytes, Shards, Between, GroupEvents, Summarizes;
    ShardsStep(events, n, id, l, d);
    WithoutRefused(states, events, n + 1, id, l, d);
    SameHeaders(states, headers, events, n + 1, id, l, d);
    ShardsHeader(Between(states, events, n + 1, id, l, d), Between(headers, events, n + 1, id, l, d),
                 Shards(events, n + 1, id, l, d), |Shards(events, n, id, l, d)|, id, l, d);
  }

  // ---- an id that comes again ----

  const ONE := Layout(1, 1, 1, 0)

  /** A group of one byte in one shard. */
  function OneByte(id: U16): (p: Packet) {
    Packet(Header(TYPE_UNRELIABLE_FEC, id, 0, 1, 0), Some(Body(ONE, [7])))
  }

  lemma OneSendable()
    ensures Sendable(ONE)
  {
  }

  lemma OneByteGenuine(id: U16, out: Option<Vector>)
    ensures Sendable(ONE) && GenuineEvent(Event(OneByte(id), Memory(true, true), out), id, ONE, [[7]])
  {
    hide Body, LayoutOk;
    OneSendable();
    var d: Matrix := [[7]];
    FirstShard(d, ONE);
  }

  lemma OneByteDelivered(s: State, id: U16, s': State, out: Option<Vector>)
    requires s.active == None && Ahead(id, s.lastDelivered) && Adds(s, OneByte(id), Memory(true, true), s', out)
    ensures out.Some? && s' == State(None, id)
  {
    hide Parse, CeilDiv, Takes, Bytes, Shard, GenuineEvent, Sendable;
    var d: Matrix, e := [[7]], Event(OneByte(id), Memory(true, true), out);
    OneByteGenuine(id, out);
    GenuineParses(e, id, ONE, d);
    FreshCollecting(id, ONE, d);
    TakeGenuine(FreshGroup(id, ONE), e, id, ONE, d, {}, s.lastDelivered, s');
  }

  lemma FirstShard(d: Matrix, l: Layout)
    requires Shape(d, l.k, l.size) && l.k > 0 && l.k + l.m <= 255
    ensures Shard(d, l.m, l.size, 0) == d[0]
  {
  }

  /** The event of one delivery. */
  ghost predicate Delivery(s: State, e: Event, s': State, id: U16) {
    Step(s, e, s') && e.packet == OneByte(id) && e.out.Some? && s' == State(None, id)
  }

  method DeliverOne(r: Receiver, id: U16) returns (ghost e: Event)
    requires r.Valid() && r.shards == null && Ahead(id, r.lastDelivered)
    modifies r
    ensures r.Valid() && r.shards == null && r.lastDelivered == id
    ensures Delivery(old(r.View()), e, r.View(), id)
  {
    hide Adds, Takes, Parse, Bytes, Rows, Tables, Ahead, GroupOk, HeaderAfter, OutOfMemory, OneByte;
    ghost var s := r.View();
    var data, header := r.Add(OneByte(id), Memory(true, true));
    ghost var out := if data == null then None else Some(Bytes(Rows(data), Parse(OneByte(id)).value));
    e := Event(OneByte(id), Memory(true, true), out);
    OneByteDelivered(s, id, r.View(), out);
  }

  /** After a full turn of the ids in steps below half range, a delivered id is delivered again. */
  method SameIdAgain() returns (r: Receiver, ghost states: seq<State>, ghost events: seq<Event>)
    ensures fresh(r) && r.Valid() && |states| == 5 && r.View() == states[4]
    ensures Run(states, events) && |events| == 4 && events[0].out.Some? && events[3].out.Some?
    ensures events[0].packet.header.packetId == events[3].packet.header.packetId == 1
  {
    hide Step;
    r := new Receiver();
    ghost var s := r.View();
    ghost var e := DeliverOne(r, 1);
    states, events := [s, r.View()], [e];
    e := DeliverOne(r, 0x7001);
    states, events := states + [r.View()], events + [e];
    e := DeliverOne(r, 0xE001);
    states, events := states + [r.View()], events + [e];
    e := DeliverOne(r, 1);
    states, events := states + [r.View()], events + [e];
  }
}

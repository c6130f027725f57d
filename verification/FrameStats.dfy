/** Draining completed video frames from the report ring, and the report that carries them. */
module FrameStats {
  import opened Words
  import opened Modular
  import opened Sets

  const RING := 240
  const EVENTS := 19
  const EV_FRAME_START := 5
  const EV_COMPLETE := 18

  datatype FrameResult = Pending | Displayed | DroppedLate | DroppedOther

  /** The timestamp of each event; zero stands for absence. */
  type Events = s: seq<U32> | |s| == EVENTS witness seq(EVENTS, _ => 0)

  /** The ticks between two moments, or nothing to compare with. */
  datatype Gap = NoGap | Gap(from: U32, to: U32)

  /** A zeroed slot has frame id 0 and no events. The gaps lead from the previous frame to this one. */
  datatype Slot = Slot(frameId: U16, result: FrameResult, events: Events, startGap: Gap, displayGap: Gap)

  const EMPTY := Slot(0, Pending, seq(EVENTS, _ => 0), NoGap, NoGap)

  /** Where the next gaps begin: the last frame start and the last display, zero before the first. */
  datatype Anchors = Anchors(start: U32, display: U32)

  /** The frame a ring entry holds is found at its own index, and id 0 never counts. */
  predicate Hit(ring: seq<Slot>, id: U16)
    requires |ring| == RING
  {
    id != 0 && ring[id % RING].frameId == id
  }

  /** The frames found among the n ids after `from`, in frame order. */
  ghost function Matches(ring: seq<Slot>, from: U16, n: nat): (r: seq<U16>)
    requires |ring| == RING
  {
    if n == 0 then []
    else
      var id := Wrap16(from + n);
      Matches(ring, from, n - 1) + if Hit(ring, id) then [id] else []
  }

  /** The timestamps 0 and 1 are both stored as 1. */
  function Stored(now: U32): (r: U32) {
    if now > 1 then now else 1
  }

  /** A pending slot after its completion; any other slot stays. */
  function Completed(s: Slot, a: Anchors, result: FrameResult, now: U32): (r: Slot) {
    if s.result != Pending then s
    else
      var begun := s.events[EV_FRAME_START];
      s.(result := result, events := s.events[EV_COMPLETE := Stored(now)],
         startGap := if a.start != 0 && begun != 0 then Gap(a.start, begun) else s.startGap,
         displayGap := if a.display != 0 then Gap(a.display, Stored(now)) else s.displayGap)
  }

  /** The anchors after a completion. */
  function Moved(s: Slot, a: Anchors, result: FrameResult, now: U32): (r: Anchors) {
    if s.result != Pending then a
    else
      Anchors(if s.events[EV_FRAME_START] != 0 then s.events[EV_FRAME_START] else a.start,
              if result == Displayed then Stored(now) else a.display)
  }

  /** The wall clock while frames are drained, by frame id. */
  type Clock = U16 -> U32

  /** The anchors after the given frames were reported, those never completed being closed as late. */
  ghost function AnchorsAfter(ring: seq<Slot>, ids: seq<U16>, clock: Clock, a: Anchors): (r: Anchors)
    requires |ring| == RING
  {
    if ids == [] then a
    else
      var n := |ids| - 1;
      Moved(ring[ids[n] % RING], AnchorsAfter(ring, ids[..n], clock, a), DroppedLate, clock(ids[n]))
  }

  /** The ring without the given frames. */
  ghost function Cleared(ring: seq<Slot>, ids: seq<U16>): (r: seq<Slot>)
    requires |ring| == RING
    ensures |r| == RING
  {
    seq(RING, i requires 0 <= i < RING =>
      if ring[i].frameId in ids && ring[i].frameId % RING == i then EMPTY else ring[i])
  }

  /** The slots as they are reported. */
  ghost function Reported(ring: seq<Slot>, ids: seq<U16>, clock: Clock, a: Anchors): (r: seq<Slot>)
    requires |ring| == RING
    ensures |r| == |ids|
  {
    seq(|ids|, i requires 0 <= i < |ids| =>
      Completed(ring[ids[i] % RING], AnchorsAfter(ring, ids[..i], clock, a), DroppedLate, clock(ids[i])))
  }

  lemma ReportedStep(ring: seq<Slot>, ids: seq<U16>, id: U16, clock: Clock, a: Anchors)
    requires |ring| == RING
    ensures var b := AnchorsAfter(ring, ids, clock, a);
            && Reported(ring, ids + [id], clock, a)
               == Reported(ring, ids, clock, a) + [Completed(ring[id % RING], b, DroppedLate, clock(id))]
            && AnchorsAfter(ring, ids + [id], clock, a) == Moved(ring[id % RING], b, DroppedLate, clock(id))
  {
    hide Completed, Moved;
    var more := ids + [id];
    assert more[..|ids|] == ids;
    assert forall i | 0 <= i < |ids| :: more[..i] == ids[..i];
  }

  /** A reported frame is its slot as it was or, if nothing had completed it, closed as late at the time of the drain. */
  lemma ReportedFrame(ring: seq<Slot>, ids: seq<U16>, clock: Clock, a: Anchors, i: nat)
    requires |ring| == RING && i < |ids|
    ensures var s, r := ring[ids[i] % RING], Reported(ring, ids, clock, a)[i];
            if s.result != Pending then r == s
            else
              var stamp := if clock(ids[i]) == 0 then 1 else clock(ids[i]);
              && r.frameId == s.frameId && r.result == DroppedLate && r.events == s.events[EV_COMPLETE := stamp]
              && r.displayGap == if a.display != 0 then Gap(a.display, stamp) else s.displayGap
  {
    DisplayAnchorStays(ring, ids[..i], clock, a);
  }

  /** Late frames are never displayed, so a drain leaves the display anchor alone. */
  lemma {:induction false} DisplayAnchorStays(ring: seq<Slot>, ids: seq<U16>, clock: Clock, a: Anchors)
    requires |ring| == RING
    ensures AnchorsAfter(ring, ids, clock, a).display == a.display
  {
    if ids != [] {
      DisplayAnchorStays(ring, ids[..|ids| - 1], clock, a);
    }
  }

  /** The frame is still to be closed, and its start is known. */
  predicate Starts(ring: seq<Slot>, id: U16)
    requires |ring| == RING
  {
    ring[id % RING].result == Pending && ring[id % RING].events[EV_FRAME_START] != 0
  }

  lemma {:induction false} StartAnchor(ring: seq<Slot>, ids: seq<U16>, clock: Clock, a: Anchors, i: nat)
    requires |ring| == RING && i < |ids| && Starts(ring, ids[i]) && forall k | i < k < |ids| :: !Starts(ring, ids[k])
    ensures AnchorsAfter(ring, ids, clock, a).start == ring[ids[i] % RING].events[EV_FRAME_START]
  {
    var n := |ids| - 1;
    if i < n {
      StartAnchor(ring, ids[..n], clock, a, i);
      assert !Starts(ring, ids[n]);
    }
  }

  /** The start gaps of one report have no holes: each begins where the one before it ended. */
  lemma {:induction false} StartGapsChain(ring: seq<Slot>, ids: seq<U16>, clock: Clock, a: Anchors, i: nat, j: nat)
    requires |ring| == RING && i < j < |ids|
    requires Starts(ring, ids[i]) && Starts(ring, ids[j]) && forall k | i < k < j :: !Starts(ring, ids[k])
    ensures Reported(ring, ids, clock, a)[j].startGap
         == Gap(ring[ids[i] % RING].events[EV_FRAME_START], ring[ids[j] % RING].events[EV_FRAME_START])
  {
    StartAnchor(ring, ids[..j], clock, a, i);
  }

  // ---- a sequence of completions ----

  datatype Completion = Completion(slot: Slot, result: FrameResult, now: U32)

  ghost function AnchorsOver(done: seq<Completion>, a: Anchors): (r: Anchors) {
    if done == [] then a
    else
      var last := done[|done| - 1];
      Moved(last.slot, AnchorsOver(done[..|done| - 1], a), last.result, last.now)
  }

  predicate Shows(c: Completion) {
    c.slot.result == Pending && c.result == Displayed
  }

  lemma {:induction false} DisplayAnchor(done: seq<Completion>, a: Anchors, i: nat)
    requires i < |done| && Shows(done[i]) && forall k | i < k < |done| :: !Shows(done[k])
    ensures AnchorsOver(done, a).display == if done[i].now == 0 then 1 else done[i].now
  {
    var n := |done| - 1;
    if i < n {
      DisplayAnchor(done[..n], a, i);
      assert !Shows(done[n]);
    }
  }

  /** A completed frame's display gap leads from the last frame displayed before it to its own completion. */
  lemma DisplayGapsChain(done: seq<Completion>, a: Anchors, i: nat, j: nat)
    requires i < j < |done| && Shows(done[i]) && done[j].slot.result == Pending
    requires forall k | i < k < j :: !Shows(done[k])
    ensures Completed(done[j].slot, AnchorsOver(done[..j], a), done[j].result, done[j].now).displayGap
         == Gap(if done[i].now == 0 then 1 else done[i].now, if done[j].now == 0 then 1 else done[j].now)
  {
    DisplayAnchor(done[..j], a, i);
  }

  lemma {:induction false} MatchesSound(ring: seq<Slot>, from: U16, n: nat)
    requires |ring| == RING
    ensures forall i | 0 <= i < |Matches(ring, from, n)| :: Hit(ring, Matches(ring, from, n)[i])
  {
    if n > 0 {
      MatchesSound(ring, from, n - 1);
    }
  }

  /** Frame order: later entries are further from the start of the drained range. */
  lemma {:induction false} MatchesOrdered(ring: seq<Slot>, from: U16, n: nat)
    requires |ring| == RING && n < U16_SIZE
    ensures forall i | 0 <= i < |Matches(ring, from, n)| :: 0 < Wrap16(Matches(ring, from, n)[i] - from) <= n
    ensures forall i, j | 0 <= i < j < |Matches(ring, from, n)| ::
              Wrap16(Matches(ring, from, n)[i] - from) < Wrap16(Matches(ring, from, n)[j] - from)
  {
    hide Hit, Wrap16;
    if n > 0 {
      MatchesOrdered(ring, from, n - 1);
      OffsetBack(from, n);
    }
  }

  /** Every frame of the range that sits in the ring is found. */
  lemma {:induction false} MatchesComplete(ring: seq<Slot>, from: U16, n: nat, id: U16)
    requires |ring| == RING && n < U16_SIZE && 0 < Wrap16(id - from) <= n && Hit(ring, id)
    ensures id in Matches(ring, from, n)
    decreases n
  {
    if Wrap16(id - from) < n {
      MatchesComplete(ring, from, n - 1, id);
    } else {
      assert Wrap16(from + n) == id;
    }
  }

  /** Distinct frames sit at distinct ring positions, so there are never more than the ring holds. */
  lemma MatchesBounded(ring: seq<Slot>, from: U16, n: nat)
    requires |ring| == RING && n < U16_SIZE
    ensures |Matches(ring, from, n)| <= RING
  {
    hide Matches, Wrap16, Elements;
    var m := Matches(ring, from, n);
    MatchesSound(ring, from, n);
    MatchesDiffer(ring, from, n);
    forall i, j | 0 <= i < j < |m|
      ensures m[i] % RING != m[j] % RING
    {
      assert Hit(ring, m[i]) && Hit(ring, m[j]);
    }
    DistinctCount(Places(m));
    PlacesBounded(m);
  }

  lemma MatchesDiffer(ring: seq<Slot>, from: U16, n: nat)
    requires |ring| == RING && n < U16_SIZE
    ensures forall i, j | 0 <= i < j < |Matches(ring, from, n)| :: Matches(ring, from, n)[i] != Matches(ring, from, n)[j]
  {
    hide Matches, Wrap16;
    MatchesOrdered(ring, from, n);
  }

  lemma PlacesBounded(m: seq<U16>)
    ensures |Elements(Places(m))| <= RING
  {
    forall k | k in Elements(Places(m))
      ensures k in UpTo(RING)
    {
      UpToHas(RING, k);
    }
    SubsetSize(Elements(Places(m)), UpTo(RING));
  }

  /** The ring positions of the frames, counted from one. */
  ghost function Places(m: seq<U16>): (v: seq<int>)
    ensures |v| == |m| && forall i | 0 <= i < |m| :: v[i] == m[i] % RING + 1
  {
    seq(|m|, i requires 0 <= i < |m| => m[i] % RING + 1)
  }

  ghost function Elements(v: seq<int>): (s: set<int>) {
    set x | x in v
  }

  lemma {:induction false} DistinctCount(v: seq<int>)
    requires forall i, j | 0 <= i < j < |v| :: v[i] != v[j]
    ensures |Elements(v)| == |v|
  {
    if v != [] {
      var n := |v| - 1;
      DistinctCount(v[..n]);
      assert v == v[..n] + [v[n]];
      assert Elements(v) == Elements(v[..n]) + {v[n]};
    }
  }

  lemma NotYet(ring: seq<Slot>, from: U16, n: nat)
    requires |ring| == RING && 0 < n < U16_SIZE
    ensures Wrap16(from + n) !in Matches(ring, from, n - 1)
  {
    hide Hit, Wrap16;
    MatchesOrdered(ring, from, n - 1);
    OffsetBack(from, n);
  }

  /** The test on the current ring decides the same as on the ring the drain started from. */
  lemma HitStays(ring: seq<Slot>, from: U16, n: nat, current: seq<Slot>)
    requires |ring| == RING && 0 < n < U16_SIZE && current == Cleared(ring, Matches(ring, from, n - 1))
    ensures Hit(current, Wrap16(from + n)) <==> Hit(ring, Wrap16(from + n))
    ensures Hit(ring, Wrap16(from + n)) ==> current[Wrap16(from + n) % RING] == ring[Wrap16(from + n) % RING]
  {
    hide Wrap16, Matches;
    NotYet(ring, from, n);
  }

  lemma ClearStep(ring: seq<Slot>, ids: seq<U16>, id: U16)
    requires |ring| == RING
    ensures Hit(ring, id) ==> Cleared(ring, ids + [id]) == Cleared(ring, ids)[id % RING := EMPTY]
  {
    if Hit(ring, id) {
      var c, d := Cleared(ring, ids + [id]), Cleared(ring, ids)[id % RING := EMPTY];
      forall i | 0 <= i < RING
        ensures c[i] == d[i]
      {
        if i != id % RING && ring[i].frameId % RING == i {
          assert ring[i].frameId != id;
        }
      }
    }
  }

  datatype Report = Report(serial: U64, frames: seq<Slot>, latest: U16)

  lemma DrainStart(ring: seq<Slot>, from: U16, clock: Clock, a: Anchors, max: nat)
    requires |ring| == RING
    ensures Matches(ring, from, 0) == [] && Cleared(ring, []) == ring && Wrap16(from + 0) == from
    ensures First(Reported(ring, [], clock, a), max) == [] && AnchorsAfter(ring, [], clock, a) == a
  {
  }

  lemma DrainDone(d: U16)
    ensures Wrap16(d - d) == 0
  {
  }

  lemma DrainAdvance(from: U16, n: nat, lastSent: U16, lastDisplayed: U16, total: nat)
    requires total < U16_SIZE && n <= total && lastSent == Wrap16(from + n) && lastSent != lastDisplayed
    requires Wrap16(lastDisplayed - lastSent) == total - n
    ensures n < total && Wrap16(lastSent + 1) == Wrap16(from + (n + 1))
    ensures Wrap16(lastDisplayed - Wrap16(lastSent + 1)) == total - n - 1
  {
  }

  lemma MatchesStep(ring: seq<Slot>, from: U16, n: nat)
    requires |ring| == RING
    ensures var id, m := Wrap16(from + (n + 1)), Matches(ring, from, n);
            Matches(ring, from, n + 1) == if Hit(ring, id) then m + [id] else m
  {
    hide Hit, Wrap16;
  }

  lemma CandidateHit(ring: seq<Slot>, candidate: int)
    requires |ring| == RING && 0 < candidate <= U16_SIZE
    ensures ring[Wrap16(candidate) % RING].frameId == candidate <==> Hit(ring, Wrap16(candidate))
  {
  }

  /** What fits into an array of the given capacity. */
  ghost function First(s: seq<Slot>, max: nat): (r: seq<Slot>) {
    if |s| <= max then s else s[..max]
  }

  lemma FirstStep(s: seq<Slot>, x: Slot, max: nat)
    ensures First(s + [x], max) == if |s| < max then First(s, max) + [x] else First(s, max)
  {
  }

  /** After a drain nothing of the drained range is left in the ring, so no frame is reported twice. */
  lemma DrainedOnce(ring: seq<Slot>, from: U16, n: nat, id: U16)
    requires |ring| == RING && n < U16_SIZE && 0 < Wrap16(id - from) <= n
    ensures !Hit(Cleared(ring, Matches(ring, from, n)), id)
  {
    hide Wrap16, Matches;
    if Hit(ring, id) {
      MatchesComplete(ring, from, n, id);
    }
  }

  // ---- the wire form of one frame ----

  datatype Event = Event(id: nat, timestamp: U32)

  /** The client events of a slot: those recorded, without the server's own. */
  ghost function Selected(events: seq<U32>, n: nat): (r: seq<Event>)
    requires n <= |events|
    ensures |r| <= n
  {
    if n == 0 then []
    else if 2 <= n - 1 <= 12 || events[n - 1] == 0 then Selected(events, n - 1)
    else Selected(events, n - 1) + [Event(n - 1, events[n - 1])]
  }

  /** What the receiver of a report reads: an absolute first timestamp, then differences. */
  ghost function Decoded(wire: seq<Event>, offset: int, n: nat): (r: seq<Event>)
    requires n <= |wire|
    ensures |r| == n
  {
    if n == 0 then []
    else
      var d := Decoded(wire, offset, n - 1);
      d + [Event(wire[n - 1].id, Wrap32(if n == 1 then wire[0].timestamp - offset else wire[n - 1].timestamp + d[n - 2].timestamp))]
  }

  lemma {:induction false} DecodedPrefix(wire: seq<Event>, e: Event, offset: int, n: nat)
    requires n <= |wire|
    ensures Decoded(wire + [e], offset, n) == Decoded(wire, offset, n)
  {
    if n > 0 {
      DecodedPrefix(wire, e, offset, n - 1);
    }
  }

  lemma WrapBack(x: U32, y: int)
    ensures Wrap32(Wrap32(x + y) - y) == x && Wrap32(Wrap32(x - y) + y) == x
  {
  }

  /** Delta encoding of the recorded events; decoding gives back exactly what was recorded. */
  method EncodeEvents(slot: Slot, offset: S32) returns (wire: seq<Event>)
    ensures |wire| <= EVENTS && Decoded(wire, offset, |wire|) == Selected(slot.events, EVENTS)
  {
    hide Wrap32;
    wire := [];
    var previous: U32 := 0;
    for e := 0 to EVENTS
      invariant |wire| <= e && Decoded(wire, offset, |wire|) == Selected(slot.events, e)
      invariant |wire| > 0 ==> Decoded(wire, offset, |wire|)[|wire| - 1].timestamp == previous
    {
      if (2 <= e <= 12) || slot.events[e] == 0 {
        continue;
      }
      var stamp := if |wire| > 0 then Wrap32(slot.events[e] - previous) else Wrap32(slot.events[e] + offset);
      WrapBack(slot.events[e], offset);
      WrapBack(slot.events[e], previous);
      DecodedPrefix(wire, Event(e, stamp), offset, |wire|);
      wire := wire + [Event(e, stamp)];
      previous := slot.events[e];
    }
  }

  class Aggregator {
    const ring: array<Slot>
    var lastSent: U16
    var lastDisplayed: U16
    var reportPending: bool
    var reportSerial: U64
    var report: Report
    var lastQueued: U16
    var closedUnsent: U64
    var anchors: Anchors

    ghost predicate Valid()
      reads this, ring
    {
      ring.Length == RING && (reportPending ==> 0 < |report.frames| <= RING && report.serial == reportSerial != 0)
    }

    constructor ()
      ensures Valid() && !reportPending && lastSent == 0 && lastDisplayed == 0 && anchors == Anchors(0, 0) && fresh(ring)
      ensures reportSerial == 0 && lastQueued == 0 && closedUnsent == 0 && forall i | 0 <= i < RING :: ring[i] == EMPTY
    {
      ring := new Slot[RING](_ => EMPTY);
      lastSent, lastDisplayed, reportPending, reportSerial := 0, 0, false, 0;
      report, lastQueued, closedUnsent, anchors := Report(0, [], 0), 0, 0, Anchors(0, 0);
    }

    lemma ValidParts()
      ensures Valid() <==> ring.Length == RING && (reportPending ==> 0 < |report.frames| <= RING && report.serial == reportSerial != 0)
    {
    }

    /** Hand out, in frame order, every frame up to the last displayed one that is in the ring. */
    method Drain(max: nat, clock: Clock) returns (out: seq<Slot>, folded: nat)
      requires Valid()
      modifies this`lastSent, this`anchors, ring
      ensures Valid() && lastSent == lastDisplayed
      ensures var ids := Matches(old(ring[..]), old(lastSent), Wrap16(lastDisplayed - old(lastSent)));
              && folded == |ids| <= RING
              && out == First(Reported(old(ring[..]), ids, clock, old(anchors)), max)
              && anchors == AnchorsAfter(old(ring[..]), ids, clock, old(anchors))
              && ring[..] == Cleared(old(ring[..]), ids)
    {
      hide Valid, Hit, Matches, Cleared, Completed, Moved, Reported, AnchorsAfter, First, Wrap16;
      ghost var a := anchors;
      ghost var start, from: U16, total := ring[..], lastSent, Wrap16(lastDisplayed - lastSent);
      out, folded := [], 0;
      ValidParts();
      DrainStart(start, from, clock, a, max);
      MatchesBounded(start, from, total);
      ghost var n: nat := 0;
      while lastSent != lastDisplayed
        invariant n <= total && lastSent == Wrap16(from + n) && Wrap16(lastDisplayed - lastSent) == total - n
        invariant ring[..] == Cleared(start, Matches(start, from, n))
        invariant folded == |Matches(start, from, n)|
        invariant out == First(Reported(start, Matches(start, from, n), clock, a), max)
        invariant anchors == AnchorsAfter(start, Matches(start, from, n), clock, a)
        decreases Wrap16(lastDisplayed - lastSent)
      {
        var candidate := lastSent as int + 1;
        var frameId := Wrap16(candidate);
        DrainAdvance(from, n, lastSent, lastDisplayed, total);
        HitStays(start, from, n + 1, ring[..]);
        MatchesStep(start, from, n);
        ReportedStep(start, Matches(start, from, n), frameId, clock, a);
        CandidateHit(ring[..], candidate);
        if ring[frameId % RING].frameId == candidate {
          ClearStep(start, Matches(start, from, n), frameId);
          var slot := Completed(ring[frameId % RING], anchors, DroppedLate, clock(frameId));
          FirstStep(Reported(start, Matches(start, from, n), clock, a), slot, max);
          anchors := Moved(ring[frameId % RING], anchors, DroppedLate, clock(frameId));
          if folded < max {
            out := out + [slot];
          }
          ghost var r := ring[..];
          ring[frameId % RING] := EMPTY;
          assert ring[..] == r[frameId % RING := EMPTY];
          folded := folded + 1;
        }
        lastSent := frameId;
        n := n + 1;
      }
      DrainDone(lastDisplayed);
      ValidParts();
    }

    /** Mark a frame of the ring as completed; a displayed one becomes the drain target. */
    method RecordComplete(frameId: U16, result: FrameResult, now: U32)
      requires Valid()
      modifies this`lastDisplayed, this`anchors, ring
      ensures Valid()
      ensures forall i | 0 <= i < RING && i != frameId % RING :: ring[i] == old(ring[i])
      ensures var s, r, a := old(ring[frameId % RING]), ring[frameId % RING], old(anchors);
              if s.frameId != frameId || s.result != Pending then
                r == s && anchors == a && lastDisplayed == old(lastDisplayed)
              else
                var begun, stamp := s.events[EV_FRAME_START], if now == 0 then 1 else now;
                && r.frameId == frameId && r.result == result && r.events == s.events[EV_COMPLETE := stamp]
                && r.startGap == (if a.start != 0 && begun != 0 then Gap(a.start, begun) else s.startGap)
                && r.displayGap == (if a.display != 0 then Gap(a.display, stamp) else s.displayGap)
                && anchors.start == (if begun != 0 then begun else a.start)
                && (if result == Displayed then anchors.display == stamp && lastDisplayed == frameId
                    else anchors.display == a.display && lastDisplayed == old(lastDisplayed))
    {
      var slot := ring[frameId % RING];
      if slot.frameId == frameId && slot.result == Pending {
        ring[frameId % RING] := Completed(slot, anchors, result, now);
        anchors := Moved(slot, anchors, result, now);
        if result == Displayed {
          lastDisplayed := frameId;
        }
      }
    }

    /** Retire the drained frames into a pending report; only one report is pending at a time. */
    method ReportBegin(clock: Clock) returns (ok: bool)
      requires Valid()
      modifies this`lastSent, this`anchors, this`report, this`reportSerial, this`reportPending, ring
      ensures Valid()
      ensures old(reportPending) ==> !ok && reportPending && report == old(report) && lastSent == old(lastSent) && ring[..] == old(ring[..])
      ensures !old(reportPending) ==>
                var ids := Matches(old(ring[..]), old(lastSent), Wrap16(lastDisplayed - old(lastSent)));
                && (ok <==> ids != []) && reportPending == ok
                && reportSerial == (if !ok then old(reportSerial) else if old(reportSerial) == U64_SIZE - 1 then 1 else old(reportSerial) + 1)
                && report.frames == Reported(old(ring[..]), ids, clock, old(anchors)) && report.latest == lastDisplayed
                && ring[..] == Cleared(old(ring[..]), ids)
    {
      hide Matches, Cleared, Completed, Moved, AnchorsAfter, Wrap16, Reported;
      if reportPending {
        return false;
      }
      var frames, count := Drain(RING, clock);
      assert |frames| == count;
      report := Report(0, frames, lastSent);
      if count == 0 {
        return false;
      }
      reportSerial := if reportSerial == U64_SIZE - 1 then 1 else reportSerial + 1;
      report := report.(serial := reportSerial);
      reportPending := true;
      return true;
    }

    /** Close the pending report if the token is its own. */
    method ReportFinish(serial: U64, accepted: bool) returns (ok: bool)
      requires Valid()
      modifies this`reportPending, this`lastQueued
      ensures Valid() && (ok <==> old(reportPending) && report.serial == serial)
      ensures reportPending == (old(reportPending) && !ok)
      ensures lastQueued == if ok && accepted then report.latest else old(lastQueued)
    {
      ok := reportPending && report.serial == serial;
      if ok {
        if accepted {
          lastQueued := report.latest;
        }
        reportPending := false;
      }
    }

    /** Give the pending report up, counting its frames (saturating). */
    method ReportAbandon()
      requires Valid()
      modifies this`reportPending, this`closedUnsent
      ensures Valid() && !reportPending
      ensures closedUnsent == if !old(reportPending) then old(closedUnsent)
                              else if old(closedUnsent) + |report.frames| < U64_SIZE then old(closedUnsent) + |report.frames|
                              else U64_SIZE - 1
    {
      if reportPending {
        var count: nat := |report.frames|;
        closedUnsent := if U64_SIZE - 1 - closedUnsent < count then U64_SIZE - 1 else closedUnsent + count;
        reportPending := false;
      }
    }
  }
}

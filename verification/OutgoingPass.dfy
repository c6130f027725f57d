/** One sending pass over the retained packets: who is attempted, in which order, and what it leaves. */
module OutgoingPass {
  import opened Words
  import opened Modular
  import opened OutgoingSlots

  /** A send attempt: a detached transport refuses before stamping, every other attempt stamps the packet. */
  datatype Try = Detached | Stamped(stamp: U32, code: int)

  datatype Tried = Tried(id: U16, outcome: Try)

  function Result(t: Try): (r: int) {
    if t.Detached? then 3 else t.code
  }

  /** The packet after an attempt; only a successful one is counted, up to 255. */
  function After(p: Packet, t: Try): (r: Packet) {
    match t
    case Detached => p
    case Stamped(stamp, code) =>
      p.(sendTimestamp := stamp,
         retransmitCount := if code == 0 && p.retransmitCount < 255 then p.retransmitCount + 1 else p.retransmitCount)
  }

  predicate Succeeds(t: Try) {
    t.Stamped? && t.code == 0
  }

  ghost function Successes(tries: seq<Try>): (n: nat) {
    if tries == [] then 0 else Successes(tries[..|tries| - 1]) + if Succeeds(tries[|tries| - 1]) then 1 else 0
  }

  /** The packet after several attempts. */
  ghost function AfterAll(p: Packet, tries: seq<Try>): (r: Packet) {
    if tries == [] then p else After(AfterAll(p, tries[..|tries| - 1]), tries[|tries| - 1])
  }

  /** Over any attempts: the count grows by the successful ones, up to 255, and the last stamp stays. */
  lemma {:induction false} AttemptsCounted(p: Packet, tries: seq<Try>)
    requires p.retransmitCount <= 255
    ensures var r := AfterAll(p, tries);
            && r.retransmitCount == (if p.retransmitCount + Successes(tries) > 255 then 255 else p.retransmitCount + Successes(tries))
            && (tries != [] && tries[|tries| - 1].Stamped? ==> r.sendTimestamp == tries[|tries| - 1].stamp)
            && ((forall i | 0 <= i < |tries| :: tries[i].Detached?) ==> r == p)
  {
    if tries != [] {
      AttemptsCounted(p, tries[..|tries| - 1]);
    }
  }

  /** A pass goes on exactly after a success; a detached transport is told apart. */
  lemma ResultIs(t: Try)
    ensures Result(t) == 0 <==> Succeeds(t)
    ensures t.Detached? ==> Result(t) == 3
  {
  }

  lemma AfterSame(p: Packet, t: Try)
    ensures After(p, t).serial == p.serial && After(p, t).id == p.id
  {
  }

  // ---- which packets a pass attempts ----

  /** Whether a loop attempts this packet: every one, or only those due again. */
  predicate Wanted(live: map<int, Packet>, id: U16, dueOnly: bool) {
    id in live && (dueOnly ==> live[id].sendTimestamp == 0)
  }

  /** The wanted ids at offsets lo to hi from the head, in order. */
  ghost function Between(live: map<int, Packet>, head: U16, lo: nat, hi: nat, dueOnly: bool): (s: seq<U16>)
    decreases hi
  {
    if hi <= lo then []
    else
      Between(live, head, lo, hi - 1, dueOnly) +
      if Wanted(live, Wrap16(head + (hi - 1)), dueOnly) then [Wrap16(head + (hi - 1))] else []
  }

  lemma IdBack(head: U16, id: U16)
    ensures Wrap16(head + Wrap16(id - head)) == id
  {
  }

  /** A wanted id at an offset in the range. */
  predicate Within(live: map<int, Packet>, head: U16, lo: nat, hi: nat, dueOnly: bool, id: U16) {
    lo <= Wrap16(id - head) < hi && Wanted(live, id, dueOnly)
  }

  predicate Earlier(head: U16, a: U16, b: U16) {
    Wrap16(a - head) < Wrap16(b - head)
  }

  ghost predicate AllWithin(s: seq<U16>, live: map<int, Packet>, head: U16, lo: nat, hi: nat, dueOnly: bool) {
    forall i | 0 <= i < |s| :: Within(live, head, lo, hi, dueOnly, s[i])
  }

  ghost predicate Ascends(s: seq<U16>, head: U16) {
    forall i, j | 0 <= i < j < |s| :: Earlier(head, s[i], s[j])
  }

  /** The ids lie at their offsets, in increasing order. */
  lemma {:induction false} BetweenOffsets(live: map<int, Packet>, head: U16, lo: nat, hi: nat, dueOnly: bool)
    requires hi < U16_SIZE
    ensures AllWithin(Between(live, head, lo, hi, dueOnly), live, head, lo, hi, dueOnly)
    ensures Ascends(Between(live, head, lo, hi, dueOnly), head)
    decreases hi
  {
    hide Wrap16, Wanted;
    if lo < hi {
      BetweenOffsets(live, head, lo, hi - 1, dueOnly);
      OffsetBack(head, hi - 1);
      var r, id := Between(live, head, lo, hi - 1, dueOnly), Wrap16(head + (hi - 1));
      var s := Between(live, head, lo, hi, dueOnly);
      assert s == if Wanted(live, id, dueOnly) then r + [id] else r;
      forall i | 0 <= i < |s|
        ensures Within(live, head, lo, hi, dueOnly, s[i])
        ensures forall j | i < j < |s| :: Earlier(head, s[i], s[j])
      {
        if i < |r| {
          assert s[i] == r[i] && Within(live, head, lo, hi - 1, dueOnly, r[i]);
        }
      }
    }
  }

  /** Every wanted id in the range is there. */
  lemma {:induction false} BetweenComplete(live: map<int, Packet>, head: U16, lo: nat, hi: nat, dueOnly: bool, id: U16)
    requires hi < U16_SIZE && lo <= Wrap16(id - head) < hi && Wanted(live, id, dueOnly)
    ensures id in Between(live, head, lo, hi, dueOnly)
    decreases hi
  {
    hide Wrap16, Wanted;
    IdBack(head, id);
    if Wrap16(id - head) < hi - 1 {
      BetweenComplete(live, head, lo, hi - 1, dueOnly, id);
    }
  }

  /** Packets outside the range do not matter. */
  lemma {:induction false} BetweenSame(live: map<int, Packet>, live': map<int, Packet>, head: U16, lo: nat, hi: nat, dueOnly: bool)
    requires hi < U16_SIZE && live.Keys == live'.Keys
    requires forall id: U16 | id in live && Wrap16(id - head) < hi :: live'[id] == live[id]
    ensures Between(live, head, lo, hi, dueOnly) == Between(live', head, lo, hi, dueOnly)
    decreases hi
  {
    hide Wrap16;
    if lo < hi {
      OffsetBack(head, hi - 1);
      BetweenSame(live, live', head, lo, hi - 1, dueOnly);
    }
  }

  lemma BetweenStep(live: map<int, Packet>, head: U16, lo: nat, id: U16, dueOnly: bool)
    requires lo <= Wrap16(id - head)
    ensures var n := Wrap16(id - head);
            Between(live, head, lo, n + 1, dueOnly)
            == Between(live, head, lo, n, dueOnly) + if Wanted(live, id, dueOnly) then [id] else []
  {
    hide Wanted, Wrap16;
    IdBack(head, id);
  }

  // ---- the log of a pass ----

  ghost function Ids(log: seq<Tried>): (s: seq<U16>)
    ensures |s| == |log| && forall i | 0 <= i < |log| :: s[i] == log[i].id
  {
    seq(|log|, i requires 0 <= i < |log| => log[i].id)
  }

  /** The packets after the attempts of the log. */
  ghost function Applied(live: map<int, Packet>, log: seq<Tried>): (m: map<int, Packet>)
    ensures m.Keys == live.Keys
  {
    if log == [] then live
    else
      var m, a := Applied(live, log[..|log| - 1]), log[|log| - 1];
      if a.id in m then m[a.id := After(m[a.id], a.outcome)] else m
  }

  lemma AppliedStep(live: map<int, Packet>, log: seq<Tried>, a: Tried)
    requires a.id in live
    ensures Applied(live, log + [a]) == Applied(live, log)[a.id := After(Applied(live, log)[a.id], a.outcome)]
  {
    assert (log + [a])[..|log|] == log;
  }

  lemma {:induction false} AppliedJoin(live: map<int, Packet>, log: seq<Tried>, more: seq<Tried>)
    ensures Applied(Applied(live, log), more) == Applied(live, log + more)
  {
    if more == [] {
      assert log + more == log;
    } else {
      var n := |more| - 1;
      AppliedJoin(live, log, more[..n]);
      assert (log + more)[..|log + more| - 1] == log + more[..n];
    }
  }

  /** A packet without an attempt is as it was. */
  lemma {:induction false} AppliedOther(live: map<int, Packet>, log: seq<Tried>, id: U16)
    requires id in live && id !in Ids(log)
    ensures Applied(live, log)[id] == live[id]
  {
    if log != [] {
      var n := |log| - 1;
      assert id !in Ids(log[..n]) by {
        assert forall i | 0 <= i < n :: Ids(log[..n])[i] == Ids(log)[i];
      }
      assert log[n].id == Ids(log)[n];
      AppliedOther(live, log[..n], id);
    }
  }

  ghost predicate Distinct(log: seq<Tried>) {
    forall i, j | 0 <= i < j < |log| :: log[i].id != log[j].id
  }

  /** With one attempt per packet, an attempted packet is as that attempt left it. */
  lemma {:induction false} AppliedAt(live: map<int, Packet>, log: seq<Tried>, k: nat)
    requires k < |log| && Distinct(log) && log[k].id in live
    ensures Applied(live, log)[log[k].id] == After(live[log[k].id], log[k].outcome)
  {
    var n := |log| - 1;
    var rest := log[..n];
    if k == n {
      assert log[k].id !in Ids(rest) by {
        assert forall i | 0 <= i < n :: Ids(rest)[i] == log[i].id;
      }
      AppliedOther(live, rest, log[k].id);
    } else {
      AppliedAt(live, rest, k);
      assert rest[k] == log[k] && log[n].id != log[k].id;
    }
  }

  /** A loop that has logged the wanted ids before this one: what it finds, and what an attempt adds. */
  lemma TryStep(live: map<int, Packet>, head: U16, lo: nat, id: U16, dueOnly: bool, log: seq<Tried>, t: Try)
    requires lo <= Wrap16(id - head) && Ids(log) == Between(live, head, lo, Wrap16(id - head), dueOnly)
    ensures Applied(live, log).Keys == live.Keys && (id in live ==> Applied(live, log)[id] == live[id])
    ensures Wanted(live, id, dueOnly) <==> id in live && (dueOnly ==> live[id].sendTimestamp == 0)
    ensures !Wanted(live, id, dueOnly) ==> Ids(log) == Between(live, head, lo, Wrap16(id - head) + 1, dueOnly)
    ensures Wanted(live, id, dueOnly) ==>
              && Ids(log + [Tried(id, t)]) == Between(live, head, lo, Wrap16(id - head) + 1, dueOnly)
              && Applied(live, log + [Tried(id, t)]) == Applied(live, log)[id := After(live[id], t)]
  {
    hide Between, Wrap16, Applied, After;
    BetweenStep(live, head, lo, id, dueOnly);
    BetweenOffsets(live, head, lo, Wrap16(id - head), dueOnly);
    assert id !in Ids(log);
    if id in live {
      AppliedOther(live, log, id);
      AppliedStep(live, log, Tried(id, t));
    }
    assert Ids(log + [Tried(id, t)]) == Ids(log) + [id];
  }

  lemma LogStart(live: map<int, Packet>, head: U16, lo: nat, dueOnly: bool, outcome: nat -> Try, first: nat)
    ensures Ids([]) == Between(live, head, lo, lo, dueOnly) && Applied(live, []) == live
    ensures Ends([], 0) && Follows([], outcome, first)
  {
  }

  /** The attempts before the last succeeded, and the last one gave the result. */
  ghost predicate Ends(log: seq<Tried>, result: int) {
    && (forall i | 0 <= i < |log| - 1 :: Result(log[i].outcome) == 0)
    && (if log == [] then result == 0 else Result(log[|log| - 1].outcome) == result)
  }

  lemma EndsStep(log: seq<Tried>, a: Tried)
    requires Ends(log, 0)
    ensures Ends(log + [a], Result(a.outcome))
  {
  }

  lemma EndsJoin(log: seq<Tried>, more: seq<Tried>, result: int)
    requires Ends(log, 0) && Ends(more, result)
    ensures Ends(log + more, result)
  {
    if more == [] {
      assert log + more == log;
    }
  }

  /** Every attempt took the next outcome. */
  ghost predicate Follows(log: seq<Tried>, outcome: nat -> Try, first: nat) {
    forall i | 0 <= i < |log| :: log[i].outcome == outcome(first + i)
  }

  lemma FollowsStep(log: seq<Tried>, outcome: nat -> Try, first: nat, id: U16)
    requires Follows(log, outcome, first)
    ensures Follows(log + [Tried(id, outcome(first + |log|))], outcome, first)
  {
  }

  lemma FollowsJoin(log: seq<Tried>, more: seq<Tried>, outcome: nat -> Try)
    requires Follows(log, outcome, 0) && Follows(more, outcome, |log|)
    ensures Follows(log + more, outcome, 0)
  {
  }

  /** A pass: from the cursor's place on, and then what is due again before it. */
  ghost predicate Passes(live: map<int, Packet>, head: U16, log: seq<Tried>, start: nat, stop: nat, again: nat) {
    && again <= start <= stop < U16_SIZE
    && Ids(log) == Between(live, head, start, stop, false) + Between(live, head, 0, again, true)
  }

  /** The two loops of a pass, one after the other. */
  lemma PassJoin(live: map<int, Packet>, head: U16, log: seq<Tried>, more: seq<Tried>, start: nat, stop: nat, again: nat)
    requires again <= start <= stop < U16_SIZE
    requires Ids(log) == Between(live, head, start, stop, false)
    requires Ids(more) == Between(Applied(live, log), head, 0, again, true)
    ensures Passes(live, head, log + more, start, stop, again)
  {
    hide Between, Wrap16, Wanted, Applied;
    BetweenOffsets(live, head, start, stop, false);
    forall id: U16 | id in live && Wrap16(id - head) < again
      ensures Applied(live, log)[id] == live[id]
    {
      assert id !in Ids(log);
      AppliedOther(live, log, id);
    }
    BetweenSame(live, Applied(live, log), head, 0, again, true);
    assert Ids(log + more) == Ids(log) + Ids(more);
  }

  /** No packet is attempted twice in a pass. */
  lemma PassDistinct(live: map<int, Packet>, head: U16, log: seq<Tried>, start: nat, stop: nat, again: nat)
    requires Passes(live, head, log, start, stop, again)
    ensures Distinct(log)
  {
    hide Between, Wrap16, Wanted;
    BetweenOffsets(live, head, start, stop, false);
    BetweenOffsets(live, head, 0, again, true);
    var s, t := Between(live, head, start, stop, false), Between(live, head, 0, again, true);
    forall i, j | 0 <= i < j < |log|
      ensures log[i].id != log[j].id
    {
      assert log[i].id == (s + t)[i] && log[j].id == (s + t)[j];
      if i < |s| <= j {
        assert Within(live, head, start, stop, false, s[i]) && Within(live, head, 0, again, true, t[j - |s|]);
      }
    }
  }

  /** The ids of a pass: all from the start up to the stop, and those due again before the last one tried. */
  lemma PassIds(live: map<int, Packet>, head: U16, log: seq<Tried>, start: nat, stop: nat, again: nat, id: U16)
    requires Passes(live, head, log, start, stop, again)
    ensures id in Ids(log) <==>
              id in live && (start <= Wrap16(id - head) < stop
                             || (Wrap16(id - head) < again && live[id].sendTimestamp == 0))
  {
    hide Between, Wrap16;
    BetweenOffsets(live, head, start, stop, false);
    BetweenOffsets(live, head, 0, again, true);
    var s, t := Between(live, head, start, stop, false), Between(live, head, 0, again, true);
    assert id in Ids(log) <==> id in s || id in t;
    if id in live && start <= Wrap16(id - head) < stop {
      BetweenComplete(live, head, start, stop, false, id);
    }
    if id in live && Wrap16(id - head) < again && live[id].sendTimestamp == 0 {
      BetweenComplete(live, head, 0, again, true, id);
    }
  }

  /** Exactly which packets are due after a pass: the due ones it did not reach, those refused before a stamp,
      and those stamped with zero. */
  lemma PassDue(live: map<int, Packet>, head: U16, log: seq<Tried>, start: nat, stop: nat, again: nat, id: U16)
    requires Passes(live, head, log, start, stop, again) && id in live
    ensures Applied(live, log)[id].sendTimestamp == 0 <==>
              || (id !in Ids(log) && live[id].sendTimestamp == 0)
              || exists k :: 0 <= k < |log| && log[k].id == id
                   && if log[k].outcome.Detached? then live[id].sendTimestamp == 0 else log[k].outcome.stamp == 0
  {
    hide Applied, Passes;
    PassDistinct(live, head, log, start, stop, again);
    if id in Ids(log) {
      var k :| 0 <= k < |log| && Ids(log)[k] == id;
      AppliedAt(live, log, k);
    } else {
      AppliedOther(live, log, id);
    }
  }
}

/**
 * The client's discovery cycle: queued commands, receive batches, nested changes from callbacks and the
 * round sends. Every timer visitor is one step; the update is split around the callbacks it may run.
 */
module Discovery {
  import opened Words
  import opened Rings
  import opened DiscoveryQueue
  import opened DiscoveryRounds
  import opened DiscoveryTrace

  /** Slots of the queue of deferred messages. */
  const DEFERRED := 32

  datatype Stage = Outside | Started | Sent

  lemma NextSend(log: seq<Send>, gen: nat, x: Send)
    requires OnePerGeneration(log, gen - 1) && x.gen == gen
    ensures OnePerGeneration(log + [x], gen)
  {
  }

  lemma OlderSends(log: seq<Send>, last: int, next: int)
    requires last <= next
    ensures OnePerGeneration(log, last) ==> OnePerGeneration(log, next)
  {
  }

  /** A command never takes more owners away than there are. */
  lemma BalancedPop(q: seq<Command>, owners: int, accepted: int)
    requires Balanced(q, owners, accepted) && q != []
    ensures Balanced(q[1..], owners + Gain(q[0]), accepted) && 0 <= owners + Gain(q[0]) <= MOST
  {
  }

  predicate AsksNow(c: Command) {
    c == Command.Change(Enable) || c == Command.Change(Trigger)
  }

  /** How many commands one cycle takes: up to and including the first Enable or Trigger. */
  function Turn(q: seq<Command>): (n: nat)
    ensures n <= |q|
  {
    if q == [] then 0 else if AsksNow(q[0]) then 1 else 1 + Turn(q[1..])
  }

  /** Some command of the queue asks for a full update. */
  predicate Asks(q: seq<Command>) {
    q != [] && (AsksNow(q[0]) || Asks(q[1..]))
  }

  predicate Demands(c: Command) {
    c.Change? && (c.op == Enable || c.op == Trigger)
  }

  /** A turn ends with the first Enable or Trigger, or with the queue. */
  lemma {:induction false} TurnIs(q: seq<Command>)
    ensures forall i | 0 <= i < Turn(q) - 1 :: !Demands(q[i])
    ensures Asks(q) <==> exists i | 0 <= i < |q| :: Demands(q[i])
    ensures if Asks(q) then Turn(q) > 0 && Demands(q[Turn(q) - 1]) else Turn(q) == |q|
  {
    if q != [] {
      var rest := q[1..];
      TurnIs(rest);
      assert forall i | 0 < i < |q| :: q[i] == rest[i - 1];
      if Asks(rest) {
        var i :| 0 <= i < |rest| && Demands(rest[i]);
        assert Demands(q[i + 1]);
      }
    }
  }

  /** The turn has come as far as the rest of the queue. */
  ghost predicate TurnAt(q: seq<Command>, rest: seq<Command>) {
    && |rest| <= |q| && rest == q[|q| - |rest|..]
    && Turn(q) == |q| - |rest| + Turn(rest) && (Asks(q) <==> Asks(rest))
  }

  lemma TurnStart(q: seq<Command>)
    ensures TurnAt(q, q)
  {
  }

  lemma {:induction false} TurnStep(q: seq<Command>, rest: seq<Command>)
    requires TurnAt(q, rest) && rest != []
    ensures if AsksNow(rest[0]) then rest[1..] == q[Turn(q)..] && Asks(q) else TurnAt(q, rest[1..])
  {
    var k := |q| - |rest|;
    assert rest[1..] == q[k + 1..];
  }

  lemma TurnEnd(q: seq<Command>, rest: seq<Command>)
    requires TurnAt(q, rest)
    ensures rest == [] ==> rest == q[Turn(q)..] && !Asks(q)
  {
  }

  /** After committing the first queued targets, the desired ones are still the last queued or these. */
  lemma DesiredKept(q: seq<Command>, targets: Targets)
    requires q != [] && q[0] == Retarget(targets)
    ensures Retargets(q[1..]) == 0 ==> forall before: Targets :: Drained(q, before) == targets
  {
    DrainedFrom(q[1..], targets, targets);
  }

  lemma QueueOfOne(op: Op)
    requires op != Disable
    ensures var owners := if op == Enable then 1 else 0;
            Balanced([], owners, owners) && Balanced([Command.Change(op)], 0, owners)
  {
    assert [Command.Change(op)][1..] == [];
  }

  /** One owner too many cannot look balanced after wrapping around. */
  lemma BalancedWrap(q: seq<Command>, owners: U32, accepted: U32)
    requires Balanced(q, owners, accepted)
    ensures Balanced(q, Wrap32(owners + 1), accepted + 1) <==> Within(q, owners, 0, MOST - 1)
  {
    BalancedShift(q, owners, accepted, 1);
    if owners == MOST {
      WithinShift(q, owners, -MOST, 0, MOST);
    }
  }

  lemma Republished(q: seq<Command>, before: Targets, after: Targets)
    ensures Drained(q, after) == if Retargets(q) == 0 then after else Drained(q, before)
    ensures q == [] ==> Retargets(q) == 0
  {
    DrainedFrom(q, before, after);
    DrainedFrom(q, after, after);
  }

  lemma NextNumber(first: U32, rounds: nat)
    ensures Wrap32(Wrap32(first + rounds) + 1) == Wrap32(first + (rounds + 1))
  {
  }

  /** One more mark, and what it means for the trace. */
  lemma MarkStep(t: Trace, m: Mark)
    ensures Linear(t) && Fits(t, m) ==> Linear(t + [m])
    ensures Open(t + [m]) <==> m == Dequeued(true) || (!Releases(m) && Open(t))
    ensures EndsDequeued(t + [m]) <==> m.Dequeued?
    ensures Reading(t + [m]) == Reading(t) + (if m == BatchBegun then 1 else if m == BatchRead then -1 else 0)
    ensures Undone(t + [m]) == Undone(t) + (if m == Mark.Deferred then 1 else if m == Mark.Dispatched then -1 else 0)
  {
    hide Tally, Fits;
    assert (t + [m])[..|t|] == t;
    TallyAppend(t, m, BatchBegun);
    TallyAppend(t, m, BatchRead);
    TallyAppend(t, m, Mark.Deferred);
    TallyAppend(t, m, Mark.Dispatched);
  }

  class Client {
    const queue: CommandQueue
    var interrupted: bool
    /** A round-based discovery context exists. */
    var active: bool
    var targets: Targets
    var targetsChanged: bool
    var desired: Targets
    var queuedTargets: nat
    var acceptedOwners: U32
    var broadcastOwners: U32
    var cycleActive: bool
    /** The generation the context has seen, and the client's own counters. */
    var seenGeneration: int
    var generation: nat
    var updatedGeneration: nat
    var batchActive: bool
    /** Deferred messages in their queue, being dispatched, and dropped because the queue was full. */
    var deferred: nat
    var dispatching: nat
    var dropped: nat
    var full: int
    var fast: int
    var tries: nat
    var discoverySeq: U32
    /** How far the running update visit is. */
    var stage: Stage

    const firstSeq: U32
    /** A dequeued Enable or Trigger still waits for its full send. */
    ghost var owed: bool
    /** Everything that happened, in order. */
    ghost var trace: Trace
    ghost var log: seq<Send>
    ghost var rounds: nat

    /** Deferred messages that still have to be dispatched. */
    function Pending(): (n: nat)
      reads this`deferred, this`dispatching
    {
      deferred + dispatching
    }

    /** Commands took their turns, and the trace knows what is still open. */
    ghost predicate TraceOk()
      reads this`trace, this`batchActive, this`deferred, this`dispatching, this`owed, this`interrupted
    {
      && Linear(trace) && !EndsDequeued(trace) && (Open(trace) ==> owed && !interrupted)
      && Reading(trace) == (if batchActive then 1 else 0)
      && Undone(trace) == Pending()
    }

    /** The desired targets are what the queue will commit. */
    ghost predicate DesiredOk()
      requires queue.Valid()
      reads this`active, this`queuedTargets, this`desired, this`targets, queue, queue.data
    {
      active ==>
        && queuedTargets == Retargets(queue.Contents())
        && desired == Drained(queue.Contents(), targets)
    }

    /** An active cycle belongs to the batch that is read or to the last one, whose update is still to come. */
    ghost predicate CycleOk()
      reads this`active, this`cycleActive, this`seenGeneration, this`generation, this`updatedGeneration, this`batchActive,
            this`deferred, this`dispatching, this`stage, this`owed, this`interrupted, this`full
    {
      && updatedGeneration <= generation
      && (stage != Outside ==> updatedGeneration == generation && !batchActive && Pending() == 0)
      && (!batchActive && Pending() > 0 ==> updatedGeneration < generation)
      && (active && cycleActive && stage != Sent ==>
            seenGeneration == if batchActive then generation else generation - 1)
      && (active && cycleActive && !batchActive && stage == Outside ==> updatedGeneration < generation)
      && (owed && !interrupted ==> active && cycleActive && full == 0 && stage != Sent)
    }

    /** The rounds are in order, and the tries of the current one are counted. */
    ghost predicate SendsOk()
      reads this`active, this`log, this`rounds, this`tries, this`full, this`discoverySeq
    {
      && RoundsOk(log, rounds) && Numbered(log, firstSeq) && discoverySeq == Wrap32(firstSeq + rounds)
      && (active ==> tries <= 3 && if tries == 0 then full == 0 else rounds > 0 && Count(log, rounds, false) == tries - 1)
    }

    ghost predicate LogOk()
      reads this`active, this`log, this`rounds, this`stage, this`updatedGeneration, this`tries, this`full, this`discoverySeq
    {
      SendsOk() && OnePerGeneration(log, if stage == Started then updatedGeneration - 1 else updatedGeneration)
    }

    ghost predicate Valid()
      reads this, queue, queue.data
    {
      queue.Valid() && DesiredOk() && CycleOk() && LogOk() && TraceOk()
    }

    /** Accepted owners are the broadcast owners after the queue, which never runs below zero on the way. */
    ghost predicate OwnersOk()
      requires queue.Valid()
      reads this`active, this`broadcastOwners, this`acceptedOwners, queue, queue.data
    {
      active ==> Balanced(queue.Contents(), broadcastOwners, acceptedOwners)
    }

    constructor (configured: Targets, start: U32)
      ensures Valid() && OwnersOk() && !active && !interrupted && targets == configured && log == []
      ensures discoverySeq == firstSeq == start && stage == Outside && !batchActive && Pending() == 0 && trace == []
      ensures acceptedOwners == 0 && broadcastOwners == 0 && queue.Contents() == []
      ensures generation == updatedGeneration == 0 && dropped == 0 && !targetsChanged
      ensures fresh(queue) && fresh(queue.data)
    {
      queue := new CommandQueue();
      interrupted, active, targets, targetsChanged := false, false, configured, false;
      desired, queuedTargets, acceptedOwners, broadcastOwners := [], 0, 0, 0;
      cycleActive, seenGeneration, generation, updatedGeneration := false, 0, 0, 0;
      batchActive, deferred, dispatching, dropped, full, fast, tries := false, 0, 0, 0, 0, 0, 0;
      firstSeq, discoverySeq, stage, owed, log, rounds, trace := start, start, Outside, false, [], 0, [];
      new;
      NoSends();
    }

    /** Nested changes come from callbacks: while a batch is read, a message dispatched, or an update runs. */
    predicate Dispatching()
      reads this
    {
      batchActive || Pending() > 0 || stage == Sent
    }

    method AdoptCycle()
      requires active && CycleOk() && Dispatching()
      modifies this`cycleActive, this`seenGeneration
      ensures CycleOk() && cycleActive
      ensures old(cycleActive) ==> seenGeneration == old(seenGeneration)
    {
      if !cycleActive {
        cycleActive := true;
        seenGeneration := generation - if batchActive then 0 else 1;
      }
    }

    /** The next update sends in full. */
    method ForceFull()
      requires CycleOk() && LogOk()
      modifies this`full
      ensures CycleOk() && LogOk() && full == 0
    {
      hide RoundsOk, OnePerGeneration;
      full := 0;
    }

    // ---- targets ----

    method QueueTargets(wanted: Targets)
      requires Valid() && active && queue.count < CAPACITY
      modifies this`desired, this`queuedTargets, queue, queue.data
      ensures Valid() && (old(OwnersOk()) ==> OwnersOk()) && desired == wanted
      ensures queue.Contents() == old(queue.Contents()) + [Retarget(wanted)]
    {
      hide Balanced, Drained, Retargets, CycleOk, LogOk, Unrolled;
      ghost var q := queue.Contents();
      var command := Retarget(wanted);
      DrainedPush(q, command, targets);
      if Balanced(q, broadcastOwners, acceptedOwners) {
        BalancedPush(q, command, broadcastOwners, acceptedOwners);
      }
      queue.Push(command);
      queuedTargets := queuedTargets + 1;
      desired := wanted;
    }

    method PublishTargets(wanted: Targets, nested: bool)
      requires Valid() && (nested ==> Dispatching())
      modifies this`targets, this`targetsChanged, this`desired, this`full, this`cycleActive, this`seenGeneration
      ensures Valid() && (old(OwnersOk()) ==> OwnersOk()) && targets == wanted && targetsChanged
      ensures active && nested ==> cycleActive
      ensures !(active && nested) ==> cycleActive == old(cycleActive) && seenGeneration == old(seenGeneration)
      ensures active ==> full == 0 && (queue.count == 0 ==> desired == wanted)
    {
      hide TraceOk, DesiredOk, CycleOk, LogOk, OwnersOk;
      CommitTargets(wanted);
      if active {
        ForceFull();
        if nested {
          AdoptCycle();
        }
      }
    }

    /** The new present targets, which are also the desired ones unless others are queued. */
    method CommitTargets(wanted: Targets)
      requires queue.Valid() && DesiredOk()
      modifies this`targets, this`targetsChanged, this`desired
      ensures DesiredOk() && targets == wanted && targetsChanged
      ensures active && queue.count == 0 ==> desired == wanted
    {
      hide Drained, Retargets, Unrolled;
      if active {
        Republished(queue.Contents(), targets, wanted);
        if queuedTargets == 0 {
          desired := wanted;
        }
      }
      targets, targetsChanged := wanted, true;
    }

    /** Replaces the targets now or, behind other commands, when its turn comes. */
    method SetTargets(wanted: Targets, nested: bool, memory: bool) returns (accepted: bool)
      requires Valid() && (nested ==> Dispatching()) && (!nested ==> stage == Outside)
      modifies this`targets, this`targetsChanged, this`desired, this`queuedTargets, this`full, this`cycleActive,
               this`seenGeneration, queue, queue.data
      ensures Valid() && (old(OwnersOk()) ==> OwnersOk())
      ensures !accepted ==> unchanged(this) && unchanged(queue) && unchanged(queue.data)
      ensures accepted && active && !nested ==> desired == wanted
      ensures accepted && (!active || nested) ==> targets == wanted
      ensures accepted && !nested && old(active && (cycleActive || queue.count > 0)) ==> targets == old(targets)
      ensures accepted && !nested && old(active && !cycleActive && queue.count == 0) ==> targets == wanted && queue.count == 0
      ensures accepted <==>
                !interrupted && (wanted == old(if active && !nested then desired else targets)
                                 || (memory && !(active && !nested && old(queue.count) == CAPACITY)))
    {
      hide TraceOk, DesiredOk, CycleOk, LogOk, OwnersOk;
      if interrupted {
        return false;
      }
      DesiredIdle();
      if wanted == (if active && !nested then desired else targets) {
        return true;
      }
      var later := active && !nested && (cycleActive || queue.count > 0);
      if (later && queue.count == CAPACITY) || !memory {
        return false;
      }
      if later {
        QueueTargets(wanted);
      } else {
        PublishTargets(wanted, nested);
      }
      return true;
    }

    lemma DesiredIdle()
      requires queue.Valid() && DesiredOk()
      ensures active && queue.count == 0 ==> desired == targets
    {
    }

    // ---- owners ----

    /** Whether a change of owners or a trigger is taken at all. */
    predicate Accepts(op: Op, nested: bool, memory: bool)
      reads this, queue
    {
      && !interrupted
      && if !active then op != Disable && memory
         else
           && (op == Enable ==> acceptedOwners != MOST)
           && (op == Disable ==> acceptedOwners != 0)
           && (nested && op == Disable ==> broadcastOwners != 0)
           && (Queues(op, nested) ==> queue.count != CAPACITY)
    }

    /** Whether the change waits its turn. */
    predicate Queues(op: Op, nested: bool)
      reads this, queue
    {
      !nested && (op != Disable || cycleActive || queue.count > 0)
    }

    method Change(op: Op, nested: bool, memory: bool) returns (accepted: bool)
      requires Valid() && (nested ==> Dispatching()) && (!nested ==> stage == Outside)
      modifies this`active, this`desired, this`queuedTargets, this`acceptedOwners, this`broadcastOwners, this`cycleActive,
               this`seenGeneration, this`full, this`fast, this`tries, queue, queue.data
      ensures Valid()
      ensures old(!active) ==> (accepted <==> !interrupted && op != Disable && memory)
      ensures old(active) && op == Trigger ==> (accepted <==> !interrupted && (nested || old(queue.count) < CAPACITY))
      ensures old(active) && op == Enable ==>
                (accepted <==> !interrupted && old(acceptedOwners) < MOST && (nested || old(queue.count) < CAPACITY))
      ensures old(active) && op == Disable ==>
                (accepted <==> !interrupted && old(acceptedOwners) > 0
                               && if nested then old(broadcastOwners) > 0 else old(queue.count) < CAPACITY)
      ensures !accepted ==> unchanged(this) && unchanged(queue) && unchanged(queue.data)
      ensures accepted && old(!active) ==> active && OwnersOk() && acceptedOwners == (if op == Enable then 1 else 0)
                                           && queue.Contents() == if nested then [] else [Command.Change(op)]
      ensures accepted && old(active) && nested ==> cycleActive && (op != Disable ==> full == 0)
      ensures accepted && old(active) && old(OwnersOk()) && nested ==>
                (OwnersOk() <==> match op
                                 case Enable => old(Within(queue.Contents(), broadcastOwners, 0, MOST - 1))
                                 case Disable => old(Within(queue.Contents(), broadcastOwners, 1, MOST))
                                 case Trigger => true)
      ensures accepted && old(active) ==> acceptedOwners == Wrap32(old(acceptedOwners) + Gain(Command.Change(op)))
      ensures accepted && !nested && old(active && (op != Disable || cycleActive || queue.count > 0)) ==>
                queue.Contents() == old(queue.Contents()) + [Command.Change(op)] && broadcastOwners == old(broadcastOwners)
      ensures accepted && old(active) && (nested || (op == Disable && old(!cycleActive && queue.count == 0))) ==>
                queue.Contents() == old(queue.Contents()) && broadcastOwners == Wrap32(old(broadcastOwners) + Gain(Command.Change(op)))
      ensures accepted ==> active && (!nested ==> cycleActive == old(active && cycleActive))
      ensures old(OwnersOk()) && !nested ==> OwnersOk()
      ensures old(active) ==> desired == old(desired)
    {
      hide TraceOk, DesiredOk, CycleOk, LogOk, OwnersOk, Within, Gain, Wrap32;
      accepted := Accepts(op, nested, memory);
      if !accepted {
        return;
      }
      if !active {
        Start(op, nested);
      } else if nested {
        ChangeNow(op);
      } else if Queues(op, nested) {
        Enqueue(op);
      } else {
        Withdraw();
      }
    }

    /** The first Enable or Trigger creates the context. */
    method Start(op: Op, nested: bool)
      requires Valid() && !active && !interrupted && op != Disable && (nested ==> Dispatching())
      modifies this`active, this`desired, this`queuedTargets, this`acceptedOwners, this`broadcastOwners, this`cycleActive,
               this`seenGeneration, this`full, this`fast, this`tries, queue, queue.data
      ensures Valid() && active && OwnersOk() && acceptedOwners == (if op == Enable then 1 else 0)
      ensures queue.Contents() == (if nested then [] else [Command.Change(op)]) && (!nested ==> !cycleActive)
    {
      hide TraceOk, DesiredOk, CycleOk, LogOk, Unrolled, Balanced;
      NewContext();
      acceptedOwners := if op == Enable then 1 else 0;
      QueueOfOne(op);
      if nested {
        AdoptCycle();
        broadcastOwners := acceptedOwners;
      } else {
        Announce(op);
      }
    }

    method NewContext()
      requires Valid() && !active && !interrupted
      modifies this`active, this`desired, this`queuedTargets, this`broadcastOwners, this`cycleActive, this`seenGeneration,
               this`full, this`fast, this`tries, queue
      ensures Valid() && active && !cycleActive && queue.Contents() == [] && broadcastOwners == 0
    {
      hide TraceOk, DesiredOk, CycleOk, LogOk;
      EmptyQueue();
      FreshRounds();
      DesiredNothing();
    }

    method FreshRounds()
      requires CycleOk() && LogOk() && !active && !interrupted
      modifies this`active, this`broadcastOwners, this`cycleActive, this`seenGeneration, this`full, this`fast, this`tries
      ensures CycleOk() && LogOk() && active && !cycleActive && broadcastOwners == 0
    {
      hide CycleOk, LogOk;
      Parts();
      broadcastOwners, seenGeneration, fast := 0, 0, 0;
      cycleActive, full, tries, active := false, 0, 0, true;
      PartsFresh();
    }

    /** What does not depend on the context. */
    ghost predicate Lasting()
      reads this`generation, this`updatedGeneration, this`batchActive, this`deferred, this`dispatching, this`stage, this`owed,
            this`interrupted, this`log, this`rounds, this`discoverySeq
    {
      && updatedGeneration <= generation && (owed ==> interrupted)
      && (stage != Outside ==> updatedGeneration == generation && !batchActive && Pending() == 0)
      && (!batchActive && Pending() > 0 ==> updatedGeneration < generation)
      && RoundsOk(log, rounds) && Numbered(log, firstSeq) && discoverySeq == Wrap32(firstSeq + rounds)
      && OnePerGeneration(log, if stage == Started then updatedGeneration - 1 else updatedGeneration)
    }

    lemma Parts()
      requires CycleOk() && LogOk() && !active
      ensures Lasting()
    {
    }

    lemma PartsFresh()
      requires Lasting() && !cycleActive && full == 0 && tries == 0
      ensures CycleOk() && LogOk()
    {
    }

    method EmptyQueue()
      requires queue.Valid() && !active
      modifies this`desired, this`queuedTargets, queue
      ensures queue.Valid() && queue.Contents() == [] && desired == targets && queuedTargets == 0
    {
      queue.Clear();
      desired, queuedTargets := targets, 0;
    }

    lemma DesiredNothing()
      requires queue.Valid() && queue.Contents() == [] && desired == targets && queuedTargets == 0
      ensures DesiredOk()
    {
    }

    method Announce(op: Op)
      requires Valid() && active && queue.Contents() == []
      modifies queue, queue.data
      ensures Valid() && queue.Contents() == [Command.Change(op)]
    {
      hide TraceOk, CycleOk, LogOk, Drained, Retargets, Unrolled;
      DrainedPush([], Command.Change(op), targets);
      assert [] + [Command.Change(op)] == [Command.Change(op)];
      queue.Push(Command.Change(op));
    }

    /** From inside a callback, a change takes effect at once and adopts the running cycle. */
    method ChangeNow(op: Op)
      requires Valid() && active && Dispatching() && !interrupted
      requires match op
               case Enable => acceptedOwners != MOST
               case Disable => acceptedOwners != 0 && broadcastOwners != 0
               case Trigger => true
      modifies this`acceptedOwners, this`broadcastOwners, this`cycleActive, this`seenGeneration, this`full
      ensures Valid() && cycleActive && (op != Disable ==> full == 0)
      ensures acceptedOwners == Wrap32(old(acceptedOwners) + Gain(Command.Change(op)))
      ensures broadcastOwners == Wrap32(old(broadcastOwners) + Gain(Command.Change(op)))
      ensures old(OwnersOk()) ==>
                (OwnersOk() <==> match op
                                 case Enable => old(Within(queue.Contents(), broadcastOwners, 0, MOST - 1))
                                 case Disable => old(Within(queue.Contents(), broadcastOwners, 1, MOST))
                                 case Trigger => true)
    {
      hide TraceOk, DesiredOk, CycleOk, LogOk, OwnersOk, Within, Gain, Wrap32, Unrolled;
      ShiftOwners(op);
      if op != Disable {
        ForceFull();
      }
      AdoptCycle();
    }

    /** One owner more or less at once, ahead of everything queued. */
    method ShiftOwners(op: Op)
      requires queue.Valid() && active
      requires match op
               case Enable => acceptedOwners != MOST
               case Disable => acceptedOwners != 0 && broadcastOwners != 0
               case Trigger => true
      modifies this`acceptedOwners, this`broadcastOwners
      ensures acceptedOwners == Wrap32(old(acceptedOwners) + Gain(Command.Change(op)))
      ensures broadcastOwners == Wrap32(old(broadcastOwners) + Gain(Command.Change(op)))
      ensures old(OwnersOk()) ==>
                (OwnersOk() <==> match op
                                 case Enable => old(Within(queue.Contents(), broadcastOwners, 0, MOST - 1))
                                 case Disable => old(Within(queue.Contents(), broadcastOwners, 1, MOST))
                                 case Trigger => true)
    {
      hide Balanced, Within, Balance, Unrolled;
      ghost var q := queue.Contents();
      ghost var b, a := broadcastOwners, acceptedOwners;
      if op == Enable {
        broadcastOwners := Wrap32(broadcastOwners + 1);
        acceptedOwners := acceptedOwners + 1;
        if Balanced(q, b, a) {
          BalancedWrap(q, b, a);
        }
      } else if op == Disable {
        broadcastOwners := broadcastOwners - 1;
        acceptedOwners := acceptedOwners - 1;
        if Balanced(q, b, a) {
          BalancedShift(q, b, a, -1);
        }
      }
    }

    method Enqueue(op: Op)
      requires Valid() && active && queue.count < CAPACITY
      requires (op == Enable ==> acceptedOwners != MOST) && (op == Disable ==> acceptedOwners != 0)
      modifies this`acceptedOwners, queue, queue.data
      ensures Valid() && (old(OwnersOk()) ==> OwnersOk())
      ensures acceptedOwners == Wrap32(old(acceptedOwners) + Gain(Command.Change(op)))
      ensures queue.Contents() == old(queue.Contents()) + [Command.Change(op)]
    {
      hide TraceOk, CycleOk, LogOk, Balanced, Drained, Retargets, Unrolled;
      ghost var q := queue.Contents();
      var command := Command.Change(op);
      DrainedPush(q, command, targets);
      if Balanced(q, broadcastOwners, acceptedOwners) {
        BalancedPush(q, command, broadcastOwners, acceptedOwners);
      }
      queue.Push(command);
      if op == Enable {
        acceptedOwners := acceptedOwners + 1;
      } else if op == Disable {
        acceptedOwners := acceptedOwners - 1;
      }
    }

    /** With nothing queued and no cycle running, a Disable needs no turn. */
    method Withdraw()
      requires Valid() && active && queue.count == 0 && acceptedOwners != 0
      modifies this`acceptedOwners, this`broadcastOwners
      ensures Valid() && (old(OwnersOk()) ==> OwnersOk())
      ensures acceptedOwners == Wrap32(old(acceptedOwners) + Gain(Command.Change(Disable)))
      ensures broadcastOwners == Wrap32(old(broadcastOwners) + Gain(Command.Change(Disable)))
    {
      hide TraceOk, CycleOk, LogOk, DesiredOk;
      broadcastOwners := Wrap32(broadcastOwners - 1);
      acceptedOwners := acceptedOwners - 1;
    }

    // ---- the receive cycle ----

    /**
     * Starts a batch, after taking commands off the queue up to the first Enable or Trigger. That is only
     * possible once the cycle of the previous Enable or Trigger has sent.
     */
    method BeginCycle() returns (allowed: bool)
      requires Valid() && stage == Outside && !batchActive
      modifies this`targets, this`targetsChanged, this`desired, this`queuedTargets, this`broadcastOwners, this`full,
               this`cycleActive, this`seenGeneration, this`batchActive, this`owed, this`trace, queue
      ensures Valid() && (old(OwnersOk()) ==> OwnersOk())
      ensures allowed <==> !interrupted && !(active && old(cycleActive))
      ensures !allowed ==> unchanged(this) && unchanged(queue)
      ensures allowed ==> batchActive && !old(owed) && (active ==> cycleActive && desired == old(desired))
      ensures allowed && active ==>
                && queue.Contents() == old(queue.Contents())[Turn(old(queue.Contents()))..]
                && (owed <==> Asks(old(queue.Contents())))
      ensures allowed ==> trace == old(trace) + (if active && old(queue.count) > 0 then [Dequeued(owed)] else []) + [BatchBegun]
    {
      hide TraceOk, DesiredOk, CycleOk, LogOk, OwnersOk, Turn, Asks, Open, Linear, EndsDequeued, Reading, Undone, Unrolled;
      if interrupted || (active && cycleActive) {
        return false;
      }
      Outstanding();
      ghost var any := active && queue.count > 0;
      TakeTurn();
      OpenBatch(any);
      return true;
    }

    /** The commands of one cycle, if there is a context to apply them to. */
    method TakeTurn()
      requires queue.Valid() && DesiredOk() && LogOk() && !owed
      modifies this`targets, this`targetsChanged, this`desired, this`queuedTargets, this`broadcastOwners, this`full,
               this`cycleActive, this`seenGeneration, this`owed, queue
      ensures queue.Valid() && DesiredOk() && LogOk() && (old(OwnersOk()) ==> OwnersOk())
      ensures (active ==> cycleActive && seenGeneration == generation && desired == old(desired)) && (owed ==> active && full == 0)
      ensures active ==>
                && queue.Contents() == old(queue.Contents())[Turn(old(queue.Contents()))..]
                && (owed <==> Asks(old(queue.Contents())))
    {
      hide DesiredOk, LogOk, OwnersOk, Turn, Asks, Unrolled;
      if active {
        Drain();
        cycleActive := true;
        seenGeneration := generation;
      }
    }

    /** Nothing is open, and the marks of a new batch come next. */
    method NoteBegin(ghost any: bool)
      requires Linear(trace) && !EndsDequeued(trace) && !Open(trace) && Reading(trace) == 0
      modifies this`trace
      ensures trace == old(trace) + (if any then [Dequeued(owed)] else []) + [BatchBegun]
      ensures Linear(trace) && (Open(trace) ==> owed)
      ensures !EndsDequeued(trace) && Reading(trace) == 1 && Undone(trace) == Undone(old(trace))
    {
      hide Open, Linear, EndsDequeued, Reading, Undone;
      if any {
        MarkStep(trace, Dequeued(owed));
        trace := trace + [Dequeued(owed)];
      } else {
        assert trace + [] == trace;
      }
      MarkStep(trace, BatchBegun);
      trace := trace + [BatchBegun];
    }

    method OpenBatch(ghost any: bool)
      requires updatedGeneration <= generation && stage == Outside && !batchActive && !interrupted
      requires (active ==> cycleActive && seenGeneration == generation) && (owed ==> active && full == 0)
      requires Linear(trace) && !EndsDequeued(trace) && !Open(trace) && Reading(trace) == 0
      requires Undone(trace) == Pending()
      modifies this`batchActive, this`trace
      ensures CycleOk() && TraceOk() && batchActive
      ensures trace == old(trace) + (if any then [Dequeued(owed)] else []) + [BatchBegun]
    {
      hide CycleOk, TraceOk, Open, Linear, EndsDequeued, Reading, Undone;
      NoteBegin(any);
      batchActive := true;
      CycleBegun();
      TraceBegun();
    }

    lemma TraceBegun()
      requires batchActive && !interrupted && Linear(trace) && !EndsDequeued(trace) && (Open(trace) ==> owed)
      requires Reading(trace) == 1
      requires Undone(trace) == Pending()
      ensures TraceOk()
    {
    }

    lemma Outstanding()
      requires CycleOk() && TraceOk() && !interrupted && !(active && cycleActive)
      ensures !owed && Linear(trace) && !EndsDequeued(trace) && !Open(trace) && updatedGeneration <= generation
      ensures !batchActive ==> Reading(trace) == 0
      ensures Undone(trace) == Pending()
    {
    }

    /** Takes commands off the queue until one asks for a full update. */
    method Drain()
      requires queue.Valid() && DesiredOk() && LogOk() && active && !owed
      modifies this`targets, this`targetsChanged, this`desired, this`queuedTargets, this`broadcastOwners, this`full,
               this`owed, queue
      ensures queue.Valid() && DesiredOk() && LogOk() && (old(OwnersOk()) ==> OwnersOk()) && desired == old(desired)
      ensures owed ==> full == 0
      ensures queue.Contents() == old(queue.Contents())[Turn(old(queue.Contents()))..]
      ensures owed <==> Asks(old(queue.Contents()))
    {
      hide DesiredOk, LogOk, OwnersOk, Unrolled, Turn, Asks, AsksNow, TurnAt;
      ghost var q := queue.Contents();
      TurnStart(q);
      while queue.count > 0
        invariant queue.Valid() && DesiredOk() && LogOk() && (old(OwnersOk()) ==> OwnersOk()) && desired == old(desired)
        invariant TurnAt(q, queue.Contents()) && !owed
        decreases queue.count
      {
        TurnStep(q, queue.Contents());
        var asks := ApplyNext();
        if asks {
          owed := true;
          return;
        }
      }
      TurnEnd(q, queue.Contents());
    }

    /** Applies the first command of the queue. */
    method ApplyNext() returns (asks: bool)
      requires queue.Valid() && queue.count > 0 && DesiredOk() && LogOk() && active
      modifies this`targets, this`targetsChanged, this`desired, this`queuedTargets, this`broadcastOwners, this`full, queue
      ensures queue.Valid() && DesiredOk() && LogOk() && (old(OwnersOk()) ==> OwnersOk()) && desired == old(desired)
      ensures queue.Contents() == old(queue.Contents())[1..]
      ensures asks <==> AsksNow(old(queue.Contents())[0])
      ensures asks ==> full == 0
      ensures !asks && old(queue.Contents())[0].Retarget? ==> full == 0 && targetsChanged && targets == old(queue.Contents())[0].targets
    {
      hide LogOk, Unrolled, Balanced;
      ghost var q := queue.Contents();
      if Balanced(q, broadcastOwners, acceptedOwners) {
        BalancedPop(q, broadcastOwners, acceptedOwners);
      }
      var command := queue.Pop();
      asks := AsksNow(command);
      if command.Retarget? {
        queuedTargets := queuedTargets - 1;
        targets, targetsChanged := command.targets, true;
        DesiredKept(q, targets);
        if queuedTargets == 0 {
          desired := targets;
        }
      } else if command.op == Disable {
        if broadcastOwners > 0 {
          broadcastOwners := broadcastOwners - 1;
        }
      } else if command.op == Enable {
        broadcastOwners := Wrap32(broadcastOwners + 1);
      }
      if asks || command.Retarget? {
        SetFull();
      }
    }

    method SetFull()
      requires LogOk()
      modifies this`full
      ensures LogOk() && full == 0
    {
      hide RoundsOk, OnePerGeneration, Count, Numbered, Wrap32;
      full := 0;
    }

    lemma CycleBegun()
      requires updatedGeneration <= generation && stage == Outside && batchActive && !interrupted
      requires active ==> cycleActive && seenGeneration == generation
      requires owed ==> active && full == 0
      ensures CycleOk()
    {
    }

    /** A message of the batch is deferred, or dropped when the queue is full. */
    method Defer()
      requires Valid() && batchActive
      modifies this`deferred, this`dropped, this`trace
      ensures Valid()
      ensures if old(deferred) < DEFERRED then deferred == old(deferred) + 1 && dropped == old(dropped)
              else deferred == old(deferred) && dropped == old(dropped) + 1
    {
      hide DesiredOk, LogOk, Open, Linear, EndsDequeued, Reading, Undone;
      if deferred < DEFERRED {
        MarkStep(trace, Mark.Deferred);
        deferred, trace := deferred + 1, trace + [Mark.Deferred];
      } else {
        dropped := dropped + 1;
      }
    }

    /** The oldest deferred message is taken for dispatch. */
    method Take()
      requires Valid() && deferred > 0
      modifies this`deferred, this`dispatching
      ensures Valid() && deferred == old(deferred) - 1 && dispatching == old(dispatching) + 1
    {
      hide DesiredOk, LogOk, Open, Linear, EndsDequeued, Reading, Undone;
      deferred, dispatching := deferred - 1, dispatching + 1;
    }

    /** A deferred message has been dispatched. */
    method Dispatched()
      requires Valid() && dispatching > 0
      modifies this`dispatching, this`trace
      ensures Valid() && dispatching == old(dispatching) - 1
    {
      hide DesiredOk, LogOk, Open, Linear, EndsDequeued, Reading, Undone;
      MarkStep(trace, Mark.Dispatched);
      dispatching, trace := dispatching - 1, trace + [Mark.Dispatched];
    }

    method EndBatch()
      requires Valid() && batchActive
      modifies this`batchActive, this`generation, this`trace
      ensures Valid() && !batchActive && generation == old(generation) + 1
    {
      hide DesiredOk, LogOk, Open, Linear, EndsDequeued, Reading, Undone;
      MarkStep(trace, BatchRead);
      batchActive, trace := false, trace + [BatchRead];
      generation := generation + 1;
    }

    /** An update runs only between batches with nothing left to dispatch, once per generation. */
    method UpdateStart() returns (begun: bool)
      requires Valid() && stage == Outside
      modifies this`updatedGeneration, this`stage
      ensures Valid() && (begun <==> stage == Started)
      ensures begun <==> !interrupted && !batchActive && Pending() == 0 && old(updatedGeneration) != generation
      ensures !begun ==> unchanged(this)
    {
      hide TraceOk, DesiredOk;
      begun := !interrupted && !batchActive && Pending() == 0 && updatedGeneration != generation;
      if begun {
        updatedGeneration := generation;
        stage := Started;
        OlderSends(log, old(updatedGeneration), updatedGeneration - 1);
      }
    }

    /** Sends a full round when it is due, or else one of its two repetitions. */
    method UpdateDiscovery(now: nat, five: nat, three: nat, seven: nat)
      requires Valid() && stage == Started
      requires 1 <= five <= 5 && 1 <= three <= 3 && 4 <= seven <= 7
      modifies this`stage, this`seenGeneration, this`targetsChanged, this`full, this`fast, this`tries, this`discoverySeq,
               this`owed, this`log, this`rounds, this`trace
      ensures Valid() && stage == Sent
      ensures !interrupted ==> !owed && (old(owed) ==> log == old(log) + [Send(generation, old(rounds) + 1, Wrap32(old(discoverySeq) + 1), true)])
      ensures if interrupted || !(active && cycleActive) then log == old(log) && discoverySeq == old(discoverySeq)
              else
                var all := old(targetsChanged) || now >= old(full);
                && !targetsChanged && seenGeneration == generation
                && log == (if all then old(log) + [Send(generation, old(rounds) + 1, Wrap32(old(discoverySeq) + 1), true)]
                           else if old(tries) <= 2 && now >= old(fast) then old(log) + [Send(generation, old(rounds), old(discoverySeq), false)]
                           else old(log))
                && discoverySeq == (if all then Wrap32(old(discoverySeq) + 1) else old(discoverySeq))
                && if all then full == now + 12 + five && fast == now + three && tries == 1
                   else if old(tries) <= 2 && now >= old(fast) then full == old(full) && fast == now + seven && tries == old(tries) + 1
                   else full == old(full) && fast == old(fast) && tries == old(tries)
    {
      hide TraceOk, DesiredOk, CycleOk, LogOk, SendsOk, OnePerGeneration, Wrap32;
      Facts();
      if !interrupted && active && cycleActive && seenGeneration != generation {
        seenGeneration := generation;
        RoundUpdate(now, five, three, seven);
      } else {
        OlderSends(log, generation - 1, generation);
      }
      stage := Sent;
      UpdateSent();
    }

    /** Once everything is dispatched, a running cycle can complete: its update is not refused as stale. */
    lemma CycleCompletes()
      requires Valid() && active && cycleActive && stage == Outside
      ensures !interrupted && !batchActive && Pending() == 0 ==> updatedGeneration != generation
    {
    }

    lemma QueueIsValid()
      requires Valid()
      ensures queue.Valid() && |queue.Contents()| == queue.count <= CAPACITY
    {
    }

    lemma Facts()
      requires CycleOk() && LogOk() && stage == Started
      ensures updatedGeneration == generation && !batchActive && Pending() == 0
      ensures active && cycleActive ==> seenGeneration != generation
      ensures owed && !interrupted ==> active && cycleActive && full == 0
      ensures SendsOk() && OnePerGeneration(log, generation - 1)
    {
    }

    lemma UpdateSent()
      requires stage == Sent && updatedGeneration == generation && !batchActive && Pending() == 0
      requires SendsOk() && OnePerGeneration(log, generation) && (owed ==> interrupted)
      ensures CycleOk() && LogOk()
    {
    }

    method RoundUpdate(now: nat, five: nat, three: nat, seven: nat)
      requires active && SendsOk() && OnePerGeneration(log, generation - 1) && (owed ==> full == 0)
      requires TraceOk() && !batchActive && Pending() == 0
      requires 1 <= five <= 5 && 1 <= three <= 3 && 4 <= seven <= 7
      modifies this`targetsChanged, this`full, this`fast, this`tries, this`discoverySeq, this`owed, this`log, this`rounds, this`trace
      ensures SendsOk() && OnePerGeneration(log, generation) && !owed && !targetsChanged && TraceOk()
      ensures var all := old(targetsChanged) || now >= old(full);
              && log == (if all then old(log) + [Send(generation, old(rounds) + 1, Wrap32(old(discoverySeq) + 1), true)]
                         else if old(tries) <= 2 && now >= old(fast) then old(log) + [Send(generation, old(rounds), old(discoverySeq), false)]
                         else old(log))
              && discoverySeq == (if all then Wrap32(old(discoverySeq) + 1) else old(discoverySeq))
              && if all then full == now + 12 + five && fast == now + three && tries == 1
                 else if old(tries) <= 2 && now >= old(fast) then full == old(full) && fast == now + seven && tries == old(tries) + 1
                 else full == old(full) && fast == old(fast) && tries == old(tries)
    {
      hide SendsOk, OnePerGeneration, Wrap32, TraceOk;
      if targetsChanged {
        DueNow();
        targetsChanged := false;
      }
      if now >= full {
        SendFull(now, five, three);
      } else if tries <= 2 && now >= fast {
        SendFast(now, seven);
      } else {
        OlderSends(log, generation - 1, generation);
      }
    }

    method DueNow()
      requires SendsOk()
      modifies this`full
      ensures SendsOk() && full == 0
    {
      hide RoundsOk, Numbered, Count, Wrap32;
      full := 0;
    }

    method NoteFull()
      requires TraceOk() && !batchActive && Pending() == 0
      modifies this`owed, this`trace
      ensures TraceOk() && !owed
    {
      hide Open, Linear, EndsDequeued, Reading, Undone;
      MarkStep(trace, SentFull);
      owed, trace := false, trace + [SentFull];
    }

    method SendFull(now: nat, five: nat, three: nat)
      requires active && SendsOk() && OnePerGeneration(log, generation - 1) && 1 <= five <= 5 && 1 <= three <= 3
      requires TraceOk() && !batchActive && Pending() == 0
      modifies this`full, this`fast, this`tries, this`discoverySeq, this`owed, this`log, this`rounds, this`trace
      ensures SendsOk() && OnePerGeneration(log, generation) && !owed && TraceOk()
      ensures log == old(log) + [Send(generation, old(rounds) + 1, Wrap32(old(discoverySeq) + 1), true)]
      ensures discoverySeq == Wrap32(old(discoverySeq) + 1) && full == now + 12 + five && fast == now + three && tries == 1
    {
      hide RoundsOk, Numbered, OnePerGeneration, Count, Wrap32, TraceOk;
      var number := Wrap32(discoverySeq + 1);
      ghost var x := Send(generation, rounds + 1, number, true);
      NextNumber(firstSeq, rounds);
      FullSend(log, rounds, generation, number, firstSeq);
      NextSend(log, generation, x);
      full, fast, tries := now + 12 + five, now + three, 1;
      discoverySeq := number;
      log, rounds := log + [x], rounds + 1;
      NoteFull();
    }

    method SendFast(now: nat, seven: nat)
      requires active && SendsOk() && OnePerGeneration(log, generation - 1) && tries <= 2 && full != 0
      modifies this`fast, this`tries, this`log
      ensures SendsOk() && OnePerGeneration(log, generation)
      ensures log == old(log) + [Send(generation, rounds, discoverySeq, false)] && tries == old(tries) + 1 && fast == now + seven
    {
      hide RoundsOk, Numbered, OnePerGeneration, Count, Wrap32;
      ghost var x := Send(generation, rounds, discoverySeq, false);
      FastSend(log, rounds, generation, discoverySeq, firstSeq);
      NextSend(log, generation, x);
      tries, fast := tries + 1, now + seven;
      log := log + [x];
    }

    /** The cycle is over; the next one may take commands. */
    method UpdateEnd()
      requires Valid() && stage == Sent
      modifies this`cycleActive, this`stage
      ensures Valid() && stage == Outside && (active ==> !cycleActive)
    {
      hide TraceOk, DesiredOk;
      if active && cycleActive {
        cycleActive := false;
      }
      stage := Outside;
    }

    method Interrupt()
      requires Valid()
      modifies this`interrupted, this`trace
      ensures Valid() && interrupted
    {
      hide DesiredOk, LogOk, Open, Linear, EndsDequeued, Reading, Undone;
      MarkStep(trace, Interrupted);
      interrupted, trace := true, trace + [Interrupted];
    }

    /** Stopping discovery discards its context and everything queued. */
    method Stop()
      requires Valid()
      modifies this`active, this`owed, this`trace, queue
      ensures Valid() && !active && OwnersOk() && queue.Contents() == []
    {
      hide Open, Linear, EndsDequeued, Reading, Undone;
      queue.Clear();
      MarkStep(trace, Stopped);
      active, owed, trace := false, false, trace + [Stopped];
    }
  }

  lemma OneOwner()
    ensures Turn([Command.Change(Enable)]) == 1
    ensures forall owners: int, accepted: int :: Balanced([], owners, accepted) ==> owners == accepted
    ensures !Within([Command.Change(Disable), Command.Change(Enable)], 1, 1, MOST)
  {
    assert [Command.Change(Disable), Command.Change(Enable)][1..] == [Command.Change(Enable)];
  }

  /** A Disable and then an Enable are queued while a cycle runs. */
  method QueueBoth() returns (c: Client)
    ensures fresh(c) && fresh(c.queue) && fresh(c.queue.data) && c.Valid() && c.OwnersOk() && c.active && !c.interrupted && c.batchActive
    ensures c.broadcastOwners == 1 && c.acceptedOwners == 1
    ensures c.queue.Contents() == [Command.Change(Disable), Command.Change(Enable)]
  {
    hide Balanced, Within, Client.DesiredOk, Client.CycleOk, Client.LogOk, Client.TraceOk, Unrolled;
    c := new Client([], 0);
    var ok := c.Change(Enable, false, true);
    ok := c.BeginCycle();
    OneOwner();
    assert c.queue.Contents() == [] && c.acceptedOwners == 1;
    assert c.broadcastOwners == 1;
    ok := c.Change(Disable, false, true);
    ok := c.Change(Enable, false, true);
  }

  /** A Disable from inside a callback breaks the balance when a Disable is still queued before an Enable. */
  method NestedDisableUnbalances() returns (c: Client)
    ensures fresh(c) && c.Valid() && c.active && !c.OwnersOk()
  {
    hide Balanced, Within, Client.DesiredOk, Client.CycleOk, Client.LogOk, Client.TraceOk, Unrolled;
    c := QueueBoth();
    OneOwner();
    var ok := c.Change(Disable, true, true);
  }
}

/** Whole runs of the discovery client, over every order of calls that its locks and threads allow. */
module DiscoveryRuns {
  import opened Words
  import opened DiscoveryQueue
  import opened DiscoveryRounds
  import opened DiscoveryTrace
  import opened Discovery

  datatype Event =
    | AskTargets(wanted: Targets, nested: bool, memory: bool)
    | AskChange(op: Op, nested: bool, memory: bool)
    | Begin
    | DeferOne
    | TakeOne
    | DispatchOne
    | FinishBatch
    | StartUpdate
    | SendUpdate(now: nat, five: nat, three: nat, seven: nat)
    | FinishUpdate
    | Halt
    | StopDiscovery

  /** A Disable issued from inside one of the client's own callbacks. */
  predicate NestedDisable(e: Event) {
    e.AskChange? && e.nested && e.op == Disable
  }

  /** No nested Disable, and not enough events to fill a counter of owners. */
  predicate Calm(events: seq<Event>) {
    |events| < MOST - CAPACITY && forall i | 0 <= i < |events| :: !NestedDisable(events[i])
  }

  /** When the event can happen: callbacks run nested, everything else outside the update visit. */
  predicate Possible(c: Client, e: Event)
    reads c
  {
    match e
    case AskTargets(_, nested, _) => if nested then c.Dispatching() else c.stage == Outside
    case AskChange(_, nested, _) => if nested then c.Dispatching() else c.stage == Outside
    case Begin => c.stage == Outside && !c.batchActive
    case DeferOne => c.batchActive
    case TakeOne => c.deferred > 0
    case DispatchOne => c.dispatching > 0
    case FinishBatch => c.batchActive
    case StartUpdate => c.stage == Outside
    case SendUpdate(_, five, three, seven) => c.stage == Started && 1 <= five <= 5 && 1 <= three <= 3 && 4 <= seven <= 7
    case FinishUpdate => c.stage == Sent
    case Halt => true
    case StopDiscovery => true
  }

  /** A nested Enable has room for its owner at every point of the queue. */
  lemma RoomForOwner(c: Client)
    requires c.Valid()
    ensures c.active && c.OwnersOk() && c.acceptedOwners < MOST - CAPACITY ==>
              Within(c.queue.Contents(), c.broadcastOwners, 0, MOST - 1)
  {
    if c.active && c.OwnersOk() && c.acceptedOwners < MOST - CAPACITY {
      var q := c.queue.Contents();
      BalancedBelow(q, c.broadcastOwners, c.acceptedOwners);
      WithinWiden(q, c.broadcastOwners, 0, c.acceptedOwners + |q|, MOST - 1);
    }
  }

  method AskForChange(c: Client, op: Op, nested: bool, memory: bool)
    requires c.Valid() && if nested then c.Dispatching() else c.stage == Outside
    modifies c, c.queue, c.queue.data
    ensures c.Valid()
    ensures old(c.OwnersOk()) && old(c.acceptedOwners) < MOST - CAPACITY && !(nested && op == Disable) ==>
              c.OwnersOk() && c.acceptedOwners <= old(c.acceptedOwners) + 1
  {
    hide Client.Valid, Client.OwnersOk, Within;
    RoomForOwner(c);
    if c.acceptedOwners < MOST && (op != Disable || c.acceptedOwners > 0) {
      GainBound(c.acceptedOwners, op);
    }
    var ok := c.Change(op, nested, memory);
  }

  lemma GainBound(owners: U32, op: Op)
    requires owners < MOST && (op == Disable ==> owners > 0)
    ensures Wrap32(owners + Gain(Command.Change(op))) <= owners + 1
  {
  }

  method Handle(c: Client, e: Event)
    requires c.Valid() && Possible(c, e)
    modifies c, c.queue, c.queue.data
    ensures c.Valid()
    ensures old(c.OwnersOk()) && old(c.acceptedOwners) < MOST - CAPACITY && !NestedDisable(e) ==>
              c.OwnersOk() && c.acceptedOwners <= old(c.acceptedOwners) + 1
  {
    hide Client.Valid, Client.OwnersOk;
    match e
    case AskTargets(wanted, nested, memory) => var ok := c.SetTargets(wanted, nested, memory);
    case AskChange(op, nested, memory) => AskForChange(c, op, nested, memory);
    case Begin => var ok := c.BeginCycle();
    case DeferOne => c.Defer();
    case TakeOne => c.Take();
    case DispatchOne => c.Dispatched();
    case FinishBatch => c.EndBatch();
    case StartUpdate => var ok := c.UpdateStart();
    case SendUpdate(now, five, three, seven) => c.UpdateDiscovery(now, five, three, seven);
    case FinishUpdate => c.UpdateEnd();
    case Halt => c.Interrupt();
    case StopDiscovery => c.Stop();
  }

  // ---- accepted changes take effect ----

  /** Between cycles, with nothing left to dispatch. */
  ghost predicate Resting(c: Client)
    reads c, c.queue, c.queue.data
  {
    && c.Valid() && c.OwnersOk() && c.active && !c.interrupted
    && c.stage == Outside && !c.batchActive && !c.cycleActive && c.Pending() == 0
  }

  /** The batch is read with nothing in it, and its update runs. */
  method FinishCycle(c: Client, now: nat, five: nat, three: nat, seven: nat)
    requires c.Valid() && c.OwnersOk() && c.active && !c.interrupted && c.cycleActive && c.batchActive
    requires c.stage == Outside && c.Pending() == 0 && 1 <= five <= 5 && 1 <= three <= 3 && 4 <= seven <= 7
    modifies c`batchActive, c`generation, c`updatedGeneration, c`stage, c`seenGeneration, c`targetsChanged, c`full, c`fast,
             c`tries, c`discoverySeq, c`owed, c`log, c`rounds, c`trace, c`cycleActive
    ensures Resting(c)
  {
    hide Client.Valid, Client.OwnersOk, Wrap32;
    c.EndBatch();
    c.CycleCompletes();
    var begun := c.UpdateStart();
    c.UpdateDiscovery(now, five, three, seven);
    c.UpdateEnd();
  }

  /** One receive cycle in which nothing arrives. */
  method QuietCycle(c: Client, now: nat, five: nat, three: nat, seven: nat)
    requires Resting(c) && 1 <= five <= 5 && 1 <= three <= 3 && 4 <= seven <= 7
    modifies c, c.queue
    ensures Resting(c) && c.acceptedOwners == old(c.acceptedOwners) && c.desired == old(c.desired)
    ensures c.queue.Contents() == old(c.queue.Contents())[Turn(old(c.queue.Contents()))..]
  {
    hide Client.Valid, Client.OwnersOk, Turn, Asks, CommandQueue.Contents;
    c.QueueIsValid();
    var allowed := c.BeginCycle();
    c.QueueIsValid();
    FinishCycle(c, now, five, three, seven);
  }

  /** After enough cycles everything that was accepted has taken effect: the owners, and the targets. */
  method DrainQueue(c: Client)
    requires Resting(c)
    modifies c, c.queue
    ensures Resting(c) && c.queue.Contents() == [] && c.acceptedOwners == old(c.acceptedOwners)
    ensures c.broadcastOwners == c.acceptedOwners && c.targets == old(c.desired)
  {
    hide Client.CycleOk, Client.LogOk, Client.TraceOk, Retargets;
    while c.queue.count > 0
      invariant Resting(c) && c.acceptedOwners == old(c.acceptedOwners) && c.desired == old(c.desired)
      decreases c.queue.count
    {
      TurnIs(c.queue.Contents());
      QuietCycle(c, 0, 1, 1, 4);
    }
  }

  /** An Enable between cycles, with room in the queue and in the counter. */
  method EnableOnce(c: Client)
    requires c.Valid() && c.OwnersOk() && !c.interrupted && c.stage == Outside && !c.batchActive && c.Pending() == 0
    requires if c.active then !c.cycleActive && c.queue.count < CAPACITY && c.acceptedOwners < MOST
             else c.acceptedOwners == c.queue.count == 0
    modifies c, c.queue, c.queue.data
    ensures Resting(c) && c.acceptedOwners == old(c.acceptedOwners) + 1 && c.queue.count == old(c.queue.count) + 1
  {
    hide Client.Valid, Client.OwnersOk, CommandQueue.Contents;
    var accepted := c.Change(Enable, false, true);
    c.QueueIsValid();
  }

  /** Any number of Enables that fits the queue is accepted, and all of them become broadcast owners. */
  method EnablesTakeEffect(configured: Targets, start: U32, n: nat) returns (c: Client)
    requires n <= CAPACITY
    ensures fresh(c) && c.acceptedOwners == c.broadcastOwners == n
  {
    hide Client.Valid, Client.OwnersOk, CommandQueue.Contents;
    c := new Client(configured, start);
    c.QueueIsValid();
    for i := 0 to n
      invariant fresh(c) && fresh(c.queue) && fresh(c.queue.data) && c.Valid() && c.queue.Valid() && c.OwnersOk()
      invariant c.acceptedOwners == c.queue.count == i && !c.interrupted && c.stage == Outside && !c.batchActive
      invariant c.Pending() == 0 && (if i == 0 then !c.active && c.broadcastOwners == 0 else Resting(c))
    {
      EnableOnce(c);
      c.QueueIsValid();
    }
    if n > 0 {
      DrainQueue(c);
    }
  }

  /** Between the two moments the batch was read and the full send made, or it all ended. */
  ghost predicate ReleasedBetween(t: Trace, i: int, j: int)
    requires 0 <= i < j <= |t|
  {
    exists k :: i < k < j && (SentInTurn(t, i, k) || t[k].Stopped? || t[k].Interrupted?)
  }

  lemma AllReleased(t: Trace)
    requires Linear(t)
    ensures forall i, j | 0 <= i < j < |t| && t[i] == Dequeued(true) && t[j].Dequeued? :: ReleasedBetween(t, i, j)
  {
    forall i, j | 0 <= i < j < |t| && t[i] == Dequeued(true) && t[j].Dequeued?
      ensures ReleasedBetween(t, i, j)
    {
      var k := TurnsAreLinear(t, i, j);
    }
  }

  /**
   * In every run the desired targets are what the queue commits, no two sends share a generation, every round has
   * one full and at most two fast sends under its sequence number, and queued commands take their turns. Without a
   * nested Disable the owners stay balanced.
   */
  method Run(configured: Targets, start: U32, events: seq<Event>) returns (c: Client)
    ensures fresh(c) && c.queue.Valid()
    ensures Calm(events) && c.active ==> Balanced(c.queue.Contents(), c.broadcastOwners, c.acceptedOwners)
    ensures c.active ==> c.desired == Drained(c.queue.Contents(), c.targets)
    ensures RoundsOk(c.log, c.rounds) && OnePerGeneration(c.log, c.updatedGeneration)
    ensures Numbered(c.log, start) && c.discoverySeq == Wrap32(start + c.rounds)
    ensures Linear(c.trace)
    ensures forall i, j | 0 <= i < j < |c.trace| && c.trace[i] == Dequeued(true) && c.trace[j].Dequeued? ::
              ReleasedBetween(c.trace, i, j)
  {
    hide RoundsOk, OnePerGeneration, Numbered, Balanced, Drained, Linear, Wrap32;
    c := new Client(configured, start);
    for i := 0 to |events|
      invariant fresh(c) && fresh(c.queue) && fresh(c.queue.data) && c.firstSeq == start
      invariant c.Valid() && (Calm(events) ==> c.OwnersOk() && c.acceptedOwners <= i)
    {
      if Possible(c, events[i]) {
        Handle(c, events[i]);
      }
    }
    OlderSends(c.log, c.updatedGeneration - 1, c.updatedGeneration);
    AllReleased(c.trace);
  }
}

/** What the tracker can always do: finish the operation that holds the lock, and release everything. */
module FrameTrackerLiveness {
  import opened Words
  import opened Wrappers
  import opened FrameTracker
  import opened FrameTrackerSafety
  import opened FrameTrackerRuns
  import opened FrameTrackerBegins

  // ---- counters never overflow ----

  /** The reference counts fit their words; those of the tickets are at most that of the endpoint. */
  lemma CountsFit(s: State, r: nat)
    requires Inv(s) && s.endpoint < U32_SIZE && r < |s.recs|
    ensures s.recs[r].refs + Held(s.phase) + (if s.owned then 1 else 0) <= s.endpoint
  {
    hide Total, RecsOk, LiveOk, ExpiredOk, PhaseOk;
    TotalAtLeast(s.recs, r);
  }

  lemma StepFits(s: State, step: Step)
    requires Can(s, step) && s.endpoint < U32_SIZE
    ensures Do(s, step).endpoint < U32_SIZE
  {
    hide DoClose, DoBegin, DoCopy, DoSettle;
    match step
    case Ticket(_) =>
    case Close(x) => CloseFits(s, x);
    case Begin(x) => BeginFits(s, x);
    case Copy(x) => CopyFits(s, x);
    case Settle(x) => SettleFits(s, x);
  }

  lemma CloseFits(s: State, step: CloseStep)
    requires CanClose(s, step)
    ensures DoClose(s, step).endpoint == s.endpoint
  {
  }

  lemma BeginFits(s: State, step: BeginStep)
    requires CanBegin(s, step) && s.endpoint < U32_SIZE
    ensures DoBegin(s, step).endpoint < U32_SIZE
  {
    hide Free, Collected, Matches, NewRec, Blanks;
  }

  lemma CopyFits(s: State, step: CopyStep)
    requires CanCopy(s, step)
    ensures DoCopy(s, step).endpoint == s.endpoint
  {
  }

  lemma SettleFits(s: State, step: SettleStep)
    requires CanSettle(s, step)
    ensures DoSettle(s, step).endpoint == s.endpoint
  {
  }

  lemma {:induction false} ReachableFits(run: seq<State>, i: nat)
    requires Run(run) && i < |run|
    ensures run[i].endpoint < U32_SIZE
  {
    hide Can, Do;
    if i == 0 {
      StartsSmall();
    } else {
      ReachableFits(run, i - 1);
      var step := StepAt(run, i - 1);
      StepFits(run[i - 1], step);
    }
  }

  lemma StartsSmall()
    ensures Initial().endpoint < U32_SIZE
  {
  }

  // ---- the lock holder is never stuck, and always finishes ----

  /** The next step of the operation that holds the lock. */
  function HolderStep(s: State): (step: Step)
    requires !s.phase.Idle?
  {
    match s.phase
    case Closing(job) => Close(if job.i < |s.recs| then CloseRecord else CloseDone)
    case Scanning(job) => Begin(if job.i < |s.recs| then ScanRecord else ScanDone(false, true))
    case Joining(_, _) => Begin(JoinEndpoint)
    case JoiningHeld(_, _) => Begin(JoinTicket)
    case Taking(_, _) => Begin(TakeEndpoint(false))
    case TakingHeld(_, _) => Begin(Take)
    case Copying(job) =>
      Copy(if job.loaded then CopyReuse else if |job.out| < job.capacity && job.i < |s.recs| then CopyLoad else CopyDone)
    case Settling(job) =>
      Settle(if job.cursor.Swap? then SettleSwap
             else if job.cursor.Decide? then SettleDecide
             else if |job.out| < job.capacity && job.i < |s.recs| then SettleLoad else SettleDone)
  }

  /** Whatever the other threads did, the lock holder can go on. */
  lemma HolderProceeds(s: State)
    requires Inv(s) && !s.phase.Idle?
    ensures Can(s, HolderStep(s))
  {
    hide Total, RecsOk, LiveOk, ExpiredOk, GoalOk;
  }

  function Left(n: nat, i: nat): (r: nat) { if i < n then n - i else 0 }

  /** How many steps the operation still takes at most. */
  function Rank(s: State): (n: nat) {
    match s.phase
    case Idle => 0
    case Closing(job) => Left(|s.recs|, job.i) + 1
    case Scanning(job) => Left(|s.recs|, job.i) + 3
    case Joining(_, _) => 2
    case JoiningHeld(_, _) => 1
    case Taking(_, _) => 2
    case TakingHeld(_, _) => 1
    case Copying(job) => 2 * Left(|s.recs|, job.i) + if job.loaded then 0 else 1
    case Settling(job) =>
      3 * Left(|s.recs|, job.i) + match job.cursor case Load => 3 case Swap => 2 case Decide(_) => 1
  }

  /** Every step of the lock holder brings its operation closer to the end. */
  lemma HolderAdvances(s: State, step: Step)
    requires Can(s, step) && !s.phase.Idle? && !step.Ticket? && PhaseOk(s)
    ensures Rank(Do(s, step)) < Rank(s)
  {
    hide DoCopy, DoSettle, Free, Collected, Matches, NewRec, ClosedRec, GoalOk, OutOk, Blanks;
    if step.Copy? {
      CopyAdvances(s, step.copy);
    } else if step.Settle? {
      SettleAdvances(s, step.settle);
    }
  }

  lemma CopyAdvances(s: State, step: CopyStep)
    requires CanCopy(s, step) && !s.phase.Idle?
    ensures Rank(DoCopy(s, step)) < Rank(s)
  {
    hide DueAt;
  }

  lemma SettleAdvances(s: State, step: SettleStep)
    requires CanSettle(s, step) && !s.phase.Idle?
    ensures Rank(DoSettle(s, step)) < Rank(s)
  {
    hide FinishedAt, Settles, TimedOut;
  }

  /** Threads without the lock do not hold it up. */
  lemma OthersWait(s: State, step: TicketStep)
    requires CanTicket(s, step)
    ensures Rank(DoTicket(s, step)) == Rank(s) && DoTicket(s, step).phase == s.phase
  {
  }

  // ---- what holders of references can do ----

  /** A held ticket can be claimed, published and released, and a reference on its way can be dropped. */
  lemma HoldersCanAct(s: State, r: nat)
    requires Inv(s) && r < |s.recs|
    ensures s.transit > 0 ==> CanTicket(s, DropEndpoint)
    ensures s.endpoint < U32_SIZE ==> (0 < s.endpoint < U32_SIZE - 1 <==> CanTicket(s, RetainEndpoint))
    ensures s.transit > 0 && 0 < s.recs[r].refs < U32_SIZE - 1 ==> CanTicket(s, RetainTicket(r))
    ensures s.recs[r].refs > 0 && s.recs[r].pub != Claimed ==> CanTicket(s, ReleaseTicket(r))
    ensures s.recs[r].refs > 1 ==> CanTicket(s, ReleaseTicket(r))
    ensures s.recs[r].refs > 0 && s.recs[r].pub == Open ==> CanTicket(s, Claim(r))
    ensures s.recs[r].pub == Claimed ==> CanTicket(s, Publish(r))
    ensures s.recs[r].refs > 0 && s.phase.Idle? ==> CanClose(s, AbandonInput(r)) && CanClose(s, BeginDecode(r))
  {
    hide Total, LiveOk, ExpiredOk, PhaseOk;
    assert RecOk(s.recs[r]);
  }

  // ---- everything can be released ----

  ghost function ClaimedCount(recs: seq<Rec>): (n: nat) {
    if recs == [] then 0
    else ClaimedCount(recs[..|recs| - 1]) + if recs[|recs| - 1].pub == Claimed then 1 else 0
  }

  lemma {:induction false} ClaimedPut(recs: seq<Rec>, r: nat, b: Rec)
    requires r < |recs|
    ensures ClaimedCount(recs[r := b]) ==
              ClaimedCount(recs) - (if recs[r].pub == Claimed then 1 else 0) + if b.pub == Claimed then 1 else 0
  {
    var n := |recs| - 1;
    if r < n {
      assert recs[r := b][..n] == recs[..n][r := b];
      ClaimedPut(recs[..n], r, b);
    } else {
      assert recs[r := b][..n] == recs[..n];
    }
  }

  lemma {:induction false} SomeClaimed(recs: seq<Rec>) returns (r: nat)
    requires ClaimedCount(recs) > 0
    ensures r < |recs| && recs[r].pub == Claimed
  {
    var n := |recs| - 1;
    if recs[n].pub == Claimed {
      r := n;
    } else {
      r := SomeClaimed(recs[..n]);
    }
  }

  lemma {:induction false} NoneClaimed(recs: seq<Rec>, r: nat)
    requires ClaimedCount(recs) == 0 && r < |recs|
    ensures recs[r].pub != Claimed
  {
    var n := |recs| - 1;
    if r < n {
      NoneClaimed(recs[..n], r);
    }
  }

  lemma {:induction false} SomeHeld(recs: seq<Rec>) returns (r: nat)
    requires Total(recs) > 0
    ensures r < |recs| && recs[r].refs > 0
  {
    var n := |recs| - 1;
    if recs[n].refs > 0 {
      r := n;
    } else {
      r := SomeHeld(recs[..n]);
    }
  }

  /** How far the tracker is from being closed: in use, closing for good, closed. */
  function Stage(s: State): (n: nat) {
    if !s.owned then 0 else if s.phase.Closing? && s.phase.close.last then 1 else 2
  }

  /** While the tracker is owned: finish what runs, then close. */
  lemma TowardClosed(s: State) returns (step: Step)
    requires Inv(s) && s.owned
    ensures Can(s, step)
    ensures Stage(Do(s, step)) < Stage(s) || (Stage(Do(s, step)) == Stage(s) && Rank(Do(s, step)) < Rank(s))
  {
    hide Total, CountOk, RecsOk, LiveOk, ExpiredOk;
    if s.phase.Idle? {
      step := Close(CloseTracker);
    } else {
      HolderProceeds(s);
      step := HolderStep(s);
      HolderAdvances(s, step);
      HolderCloses(s);
    }
  }

  lemma HolderCloses(s: State)
    requires !s.phase.Idle? && Can(s, HolderStep(s))
    ensures Stage(Do(s, HolderStep(s))) <= Stage(s)
  {
    hide Free, Collected, Matches, NewRec, ClosedRec, DueAt, FinishedAt, Blanks;
  }

  /** Once closed: publish what is claimed, release the tickets, then the references on their way. */
  lemma TowardFreed(s: State) returns (step: Step)
    requires Inv(s) && !s.owned && s.endpoint > 0
    ensures Can(s, step) && step.Ticket? && var t := Do(s, step);
            && !t.owned && Rank(t) == Rank(s)
            && (ClaimedCount(t.recs) < ClaimedCount(s.recs)
                || (ClaimedCount(t.recs) == ClaimedCount(s.recs)
                    && (Total(t.recs) < Total(s.recs) || (t.recs == s.recs && t.transit < s.transit))))
  {
    hide Total, ClaimedCount, RecsOk, LiveOk, ExpiredOk;
    if ClaimedCount(s.recs) > 0 {
      var r := SomeClaimed(s.recs);
      step := Ticket(Publish(r));
      assert CanTicket(s, Publish(r)) by { HoldersCanAct(s, r); }
      ClaimedPut(s.recs, r, s.recs[r].(pub := Ready));
    } else if Total(s.recs) > 0 {
      var r := SomeHeld(s.recs);
      NoneClaimed(s.recs, r);
      step := Ticket(ReleaseTicket(r));
      ClaimedPut(s.recs, r, s.recs[r].(refs := s.recs[r].refs - 1));
      TotalPut(s.recs, r, s.recs[r].(refs := s.recs[r].refs - 1));
    } else {
      step := Ticket(DropEndpoint);
    }
  }

  /** A sequence of steps from one state. */
  ghost predicate Path(path: seq<State>) {
    |path| > 0 && forall i | 0 <= i < |path| - 1 :: Next(path[i], path[i + 1])
  }

  lemma PathStep(s: State, step: Step, rest: seq<State>)
    requires Can(s, step) && Path(rest) && rest[0] == Do(s, step)
    ensures Path([s] + rest)
  {
    hide Can, Do;
    var path := [s] + rest;
    forall i | 0 <= i < |path| - 1
      ensures Next(path[i], path[i + 1])
    {
      if i > 0 {
        assert path[i] == rest[i - 1] && path[i + 1] == rest[i];
      }
    }
  }

  /** From every reachable state the tracker can be closed and its memory freed: nothing leaks, nothing is stuck. */
  lemma {:induction false} CanBeFreed(s: State) returns (path: seq<State>)
    requires Inv(s)
    ensures Path(path) && path[0] == s && path[|path| - 1].endpoint == 0
    decreases Stage(s), Rank(s), ClaimedCount(s.recs), Total(s.recs), s.transit
  {
    hide Can, Do, Inv, Rank, Total, ClaimedCount;
    if s.endpoint == 0 {
      path := [s];
    } else {
      var step: Step;
      if s.owned {
        step := TowardClosed(s);
      } else {
        step := TowardFreed(s);
      }
      StepKeeps(s, step);
      var rest := CanBeFreed(Do(s, step));
      PathStep(s, step, rest);
      path := [s] + rest;
    }
  }

  // ---- which calls are admitted, and what they come to ----

  /** Between operations: an epoch opens only above the current one; only the current one closes or takes frames. */
  lemma CallsAdmitted(s: State, epoch: nat, want: BeginJob)
    requires Inv(s) && s.phase.Idle? && s.owned
    ensures CanClose(s, OpenEpoch(epoch)) <==> epoch > s.epoch
    ensures CanClose(s, CloseEpoch(epoch)) <==> epoch == s.epoch
    ensures CanBegin(s, StartBegin(epoch, want)) <==> s.accepting && epoch == s.epoch
  {
  }

  /** At first no epoch is open and no statistics are kept; any positive epoch can be opened. */
  lemma FirstCalls(epoch: nat, want: BeginJob)
    ensures !CanBegin(Initial(), StartBegin(epoch, want)) && !Initial().tracking
    ensures CanClose(Initial(), OpenEpoch(epoch)) <==> epoch > 0
  {
  }

  /** From moment i to moment j records are being closed. */
  ghost predicate ClosesFrom(run: seq<State>, i: nat, j: nat, step: CloseStep) {
    && i < j < |run| - 1 && (step.OpenEpoch? || step.CloseEpoch? || step.CloseTracker?)
    && CanClose(run[i], step) && run[i + 1] == DoClose(run[i], step)
    && (forall k | i < k <= j :: run[k].phase.Closing?) && run[j + 1].phase.Idle?
  }

  ghost predicate JobFor(s: State, t: State, step: CloseStep)
    requires t.phase.Closing?
  {
    && !t.accepting && t.owned && t.epoch == s.epoch
    && t.phase.close.next == (if step.OpenEpoch? then Some(step.epoch) else None)
    && t.phase.close.last == step.CloseTracker?
  }

  lemma {:induction false} JobKept(run: seq<State>, i: nat, j: nat, k: nat, step: CloseStep)
    requires Run(run) && ClosesFrom(run, i, j, step) && i < k <= j
    ensures JobFor(run[i], run[k], step)
    decreases k
  {
    hide Run, Can, Do;
    if k > i + 1 {
      JobKept(run, i, j, k - 1, step);
      var x := StepAt(run, k - 1);
      JobStep(run[i], run[k - 1], x, step);
    }
  }

  lemma JobStep(s: State, t: State, x: Step, step: CloseStep)
    requires t.phase.Closing? && JobFor(s, t, step) && Can(t, x) && Do(t, x).phase.Closing?
    ensures JobFor(s, Do(t, x), step)
  {
    hide ClosedRec, Free, Collected;
  }

  lemma JobDone(s: State, t: State, x: Step, step: CloseStep)
    requires t.phase.Closing? && JobFor(s, t, step) && Can(t, x) && Do(t, x).phase.Idle?
    ensures Do(t, x).owned == !step.CloseTracker? && Do(t, x).accepting == step.OpenEpoch?
    ensures Do(t, x).epoch == if step.OpenEpoch? then step.epoch else s.epoch
  {
    hide ClosedRec, Free, Collected;
  }

  /** Opening leaves the new epoch open, closing leaves none, and closing the tracker gives it up. */
  lemma CloseOutcome(run: seq<State>, i: nat, j: nat, step: CloseStep)
    requires Run(run) && ClosesFrom(run, i, j, step)
    ensures run[j + 1].owned == !step.CloseTracker? && run[j + 1].accepting == step.OpenEpoch?
    ensures run[j + 1].epoch == if step.OpenEpoch? then step.epoch else run[i].epoch
  {
    hide Run, Can, Do;
    JobKept(run, i, j, j, step);
    var x := StepAt(run, j);
    JobDone(run[i], run[j], x, step);
  }

  /** Input that nobody completed or began to decode can be given up. */
  lemma AbandonSettles(s: State, r: nat)
    requires CanClose(s, AbandonInput(r)) && Live(s.recs[r]) && s.recs[r].input && s.recs[r].pub == Open
    ensures var b := DoClose(s, AbandonInput(r)).recs[r];
            if s.recs[r].submitted then b == s.recs[r] else b.settled && b.pub == Closed
  {
  }

  /** A scan that meets the wanted frame ends there: it joins an open one, and a finished one is stale. */
  lemma ScanVerdict(s: State)
    requires CanBegin(s, ScanRecord)
    ensures var job, a := s.phase.scan, s.recs[s.phase.scan.i];
            var p := DoBegin(s, ScanRecord).phase;
            if !job.want.input && Stands(a, s.epoch, job.want.wire)
            then p == if Live(a) && a.pub == Open then Joining(job.i, job.want) else Idle
            else p.Scanning? && p.scan.i == job.i + 1 && p.scan.want == job.want
  {
  }

  /** A join that has its endpoint reference always gets the ticket: the ticket's count cannot be full. */
  lemma JoinGives(s: State)
    requires Inv(s) && s.endpoint < U32_SIZE && CanBegin(s, JoinTicket)
    ensures Gives(s, DoBegin(s, JoinTicket), s.phase.at)
  {
    hide Total, CountOk, RecsOk, LiveOk, ExpiredOk;
    CountsFit(s, s.phase.at);
  }

  /** A fresh frame is taken unless the serial numbers or the references are used up. */
  lemma TakeProceeds(s: State, exhausted: bool)
    requires Inv(s) && s.endpoint < U32_SIZE && CanBegin(s, TakeEndpoint(exhausted))
    ensures DoBegin(s, TakeEndpoint(exhausted)).phase.TakingHeld? <==> !exhausted && s.endpoint < U32_SIZE - 1
  {
    hide Total, RecsOk, LiveOk, ExpiredOk;
  }
}

/** What every interleaving of tracker steps keeps, and what no run can do. */
module FrameTrackerSafety {
  import opened FrameTracker

  // ---- reference counts ----

  ghost function Total(recs: seq<Rec>): (n: nat) {
    if recs == [] then 0 else Total(recs[..|recs| - 1]) + recs[|recs| - 1].refs
  }

  lemma {:induction false} TotalPut(recs: seq<Rec>, r: nat, b: Rec)
    requires r < |recs|
    ensures Total(recs[r := b]) == Total(recs) - recs[r].refs + b.refs
  {
    var n := |recs| - 1;
    if r < n {
      assert recs[r := b][..n] == recs[..n][r := b];
      TotalPut(recs[..n], r, b);
    } else {
      assert recs[r := b][..n] == recs[..n];
    }
  }

  lemma {:induction false} TotalAtLeast(recs: seq<Rec>, r: nat)
    requires r < |recs|
    ensures Total(recs) >= recs[r].refs
  {
    var n := |recs| - 1;
    if r < n {
      TotalAtLeast(recs[..n], r);
    }
  }

  lemma {:induction false} TotalBlanks(recs: seq<Rec>, n: nat)
    ensures Total(recs + Blanks(n)) == Total(recs)
  {
    if n == 0 {
      assert recs + Blanks(0) == recs;
    } else {
      var longer := recs + Blanks(n);
      assert longer[..|longer| - 1] == recs + Blanks(n - 1);
      TotalBlanks(recs, n - 1);
    }
  }

  lemma TotalNone()
    ensures Total([]) == 0
  {
  }

  function Held(p: Phase): (n: nat) { if p.JoiningHeld? || p.TakingHeld? then 1 else 0 }

  /** Every endpoint reference belongs to the owner, a ticket, or a thread on its way. */
  ghost predicate CountOk(s: State) {
    s.endpoint == (if s.owned then 1 else 0) + Total(s.recs) + s.transit + Held(s.phase)
  }

  // ---- records and the lock holder ----

  predicate Live(a: Rec) { a.occupied && !a.settled }

  ghost predicate RecOk(a: Rec) {
    && (a.pub == Claimed ==> a.refs > 0)
    && (a.settled ==> a.occupied && a.pub != Open)
    && (!a.occupied ==> a.pub == Closed && a.refs == 0 && a.version == 0)
    && (a.consumed ==> a.pub == Ready)
    && (Live(a) ==> a.pub != Closed)
  }

  ghost predicate RecsOk(recs: seq<Rec>) {
    forall r | 0 <= r < |recs| :: RecOk(recs[r])
  }

  /** Live records belong to the open epoch, or are about to be closed. */
  ghost predicate LiveOk(s: State) {
    forall r | 0 <= r < |s.recs| && Live(s.recs[r]) ::
      s.recs[r].epoch == s.epoch && if s.phase.Closing? then r >= s.phase.close.i else s.accepting
  }

  /** An expired record is settled at once. */
  ghost predicate ExpiredOk(s: State) {
    forall r | 0 <= r < |s.recs| && Live(s.recs[r]) && s.recs[r].pub == Expired ::
      s.phase.Settling? && s.phase.settle.i == r && s.phase.settle.cursor == Decide(Expired)
  }

  /** A record that may be taken for a new frame. */
  ghost predicate Takeable(s: State, k: nat) {
    k < |s.recs| && (Free(s.recs[k]) || Collected(s.recs[k], s.tracking))
  }

  ghost predicate ScanOk(s: State, job: ScanJob) {
    && (job.free.Some? ==> job.free.value < |s.recs| && Free(s.recs[job.free.value]))
    && (job.collected.Some? ==> job.collected.value < |s.recs| && Collected(s.recs[job.collected.value], s.tracking))
  }

  /** What was due when the copy began has been taken, or still can be. */
  ghost predicate GoalOk(s: State, job: CopyJob) {
    forall k | k in job.goal ::
      && k < |s.recs|
      && if k < job.i || (k == job.i && job.loaded) then s.recs[k].consumed else Due(s.recs[k], s.epoch)
  }

  /** The caller's array is filled in record order and never beyond its capacity. */
  ghost predicate OutOk(out: seq<nat>, i: nat, capacity: nat, writing: bool) {
    && |out| <= capacity && (writing ==> |out| < capacity)
    && (forall k | 0 <= k < |out| :: out[k] < i)
    && forall j, k | 0 <= j < k < |out| :: out[j] < out[k]
  }

  ghost predicate CopyOk(s: State, job: CopyJob) {
    && s.accepting && s.tracking && GoalOk(s, job) && OutOk(job.out, job.i, job.capacity, job.loaded)
    && (job.loaded ==> job.i < |s.recs| && Live(s.recs[job.i]))
  }

  ghost predicate SettleOk(s: State, job: SettleJob) {
    OutOk(job.out, job.i, job.capacity, !job.cursor.Load?) && CursorOk(s, job)
  }

  ghost predicate CursorOk(s: State, job: SettleJob) {
    !job.cursor.Load? ==>
      && job.i < |s.recs| && Live(s.recs[job.i])
      && (job.cursor.Swap? ==> job.now - s.recs[job.i].first >= job.timeout)
      && (job.cursor.Decide? && (job.cursor.seen == Ready || job.cursor.seen == Expired)
          ==> s.recs[job.i].pub == job.cursor.seen)
  }

  ghost predicate PhaseOk(s: State) {
    && (!s.phase.Idle? ==> s.owned)
    && match s.phase
       case Idle => true
       case Closing(job) => !s.accepting && (job.next.Some? ==> s.epoch < job.next.value)
       case Scanning(job) => s.accepting && ScanOk(s, job)
       case Joining(r, _) => s.accepting && r < |s.recs| && Live(s.recs[r])
       case JoiningHeld(r, _) => s.accepting && r < |s.recs| && Live(s.recs[r])
       case Taking(k, _) => s.accepting && Takeable(s, k)
       case TakingHeld(k, _) => s.accepting && Takeable(s, k)
       case Copying(job) => CopyOk(s, job)
       case Settling(job) => SettleOk(s, job)
  }

  ghost predicate Inv(s: State) {
    CountOk(s) && RecsOk(s.recs) && LiveOk(s) && ExpiredOk(s) && PhaseOk(s)
  }

  lemma InitialInv()
    ensures Inv(Initial())
  {
    hide Total;
    var none: seq<Rec> := [];
    TotalBlanks(none, BLOCK);
    assert none + Blanks(BLOCK) == Blanks(BLOCK);
    assert Total(none) == 0 by { TotalNone(); }
  }

  // ---- each step keeps the invariant ----

  lemma TicketCount(s: State, step: TicketStep)
    requires CountOk(s) && CanTicket(s, step)
    ensures CountOk(DoTicket(s, step))
  {
    hide Total;
    match step
    case RetainEndpoint =>
    case DropEndpoint =>
    case RetainTicket(r) => TotalPut(s.recs, r, s.recs[r].(refs := s.recs[r].refs + 1));
    case ReleaseTicket(r) => TotalPut(s.recs, r, s.recs[r].(refs := s.recs[r].refs - 1));
    case Claim(r) => TotalPut(s.recs, r, s.recs[r].(pub := Claimed));
    case Publish(r) => TotalPut(s.recs, r, s.recs[r].(pub := Ready));
  }

  /** What threads without the lock can do to a record; nothing at all if nobody holds it. */
  ghost predicate Drift(a: Rec, b: Rec) {
    && b == a.(refs := b.refs, pub := b.pub)
    && (a.refs == 0 ==> a == b)
    && (b.pub == a.pub || (a.pub == Open && b.pub == Claimed) || (a.pub == Claimed && b.pub == Ready))
  }

  ghost predicate Drifts(s: State, t: State) {
    && t == s.(recs := t.recs, endpoint := t.endpoint, transit := t.transit)
    && |t.recs| == |s.recs| && forall r | 0 <= r < |s.recs| :: Drift(s.recs[r], t.recs[r])
  }

  /** One record drifts, the others stay. */
  lemma PutDrifts(recs: seq<Rec>, r: nat, b: Rec)
    requires RecsOk(recs) && r < |recs| && Drift(recs[r], b) && RecOk(b)
    ensures RecsOk(recs[r := b]) && forall k | 0 <= k < |recs| :: Drift(recs[k], recs[r := b][k])
  {
    hide RecOk;
  }

  lemma TicketDrifts(s: State, step: TicketStep)
    requires RecsOk(s.recs) && CanTicket(s, step)
    ensures Drifts(s, DoTicket(s, step)) && RecsOk(DoTicket(s, step).recs)
  {
    hide RecsOk, Drift;
    match step
    case RetainEndpoint => SameDrifts(s.recs);
    case DropEndpoint => SameDrifts(s.recs);
    case RetainTicket(r) => TicketDrift(s, step, r, s.recs[r].(refs := s.recs[r].refs + 1));
    case ReleaseTicket(r) => TicketDrift(s, step, r, s.recs[r].(refs := s.recs[r].refs - 1));
    case Claim(r) => TicketDrift(s, step, r, s.recs[r].(pub := Claimed));
    case Publish(r) => TicketDrift(s, step, r, s.recs[r].(pub := Ready));
  }

  lemma SameDrifts(recs: seq<Rec>)
    ensures forall k | 0 <= k < |recs| :: Drift(recs[k], recs[k])
  {
  }

  lemma TicketDrift(s: State, step: TicketStep, r: nat, b: Rec)
    requires RecsOk(s.recs) && CanTicket(s, step) && r < |s.recs| && DoTicket(s, step).recs == s.recs[r := b]
    requires match step
             case RetainTicket(k) => k == r && b == s.recs[r].(refs := s.recs[r].refs + 1)
             case ReleaseTicket(k) => k == r && b == s.recs[r].(refs := s.recs[r].refs - 1)
             case Claim(k) => k == r && b == s.recs[r].(pub := Claimed)
             case Publish(k) => k == r && b == s.recs[r].(pub := Ready)
             case _ => false
    ensures RecsOk(s.recs[r := b]) && forall k | 0 <= k < |s.recs| :: Drift(s.recs[k], s.recs[r := b][k])
  {
    assert RecOk(s.recs[r]);
    PutDrifts(s.recs, r, b);
  }

  lemma DriftLive(s: State, t: State)
    requires Drifts(s, t) && LiveOk(s) && ExpiredOk(s)
    ensures LiveOk(t) && ExpiredOk(t)
  {
    forall r | 0 <= r < |t.recs| && Live(t.recs[r])
      ensures Live(s.recs[r]) && t.recs[r].epoch == s.recs[r].epoch
      ensures t.recs[r].pub == Expired ==> s.recs[r].pub == Expired
    {
      assert Drift(s.recs[r], t.recs[r]);
    }
  }

  lemma DriftTakeable(s: State, t: State, k: nat)
    requires Drifts(s, t) && k < |s.recs| && (Free(s.recs[k]) || Collected(s.recs[k], s.tracking))
    ensures t.recs[k] == s.recs[k]
  {
    assert Drift(s.recs[k], t.recs[k]);
  }

  lemma DriftGoal(s: State, t: State, job: CopyJob)
    requires Drifts(s, t) && GoalOk(s, job)
    ensures GoalOk(t, job)
  {
    forall k | k in job.goal
      ensures k < |t.recs|
      ensures if k < job.i || (k == job.i && job.loaded) then t.recs[k].consumed else Due(t.recs[k], t.epoch)
    {
      assert Drift(s.recs[k], t.recs[k]);
    }
  }

  lemma DriftPhase(s: State, t: State)
    requires Drifts(s, t) && PhaseOk(s)
    ensures PhaseOk(t)
  {
    hide GoalOk, Free, Collected;
    match s.phase
    case Idle =>
    case Closing(_) =>
    case Scanning(job) =>
      if job.free.Some? {
        DriftTakeable(s, t, job.free.value);
      }
      if job.collected.Some? {
        DriftTakeable(s, t, job.collected.value);
      }
    case Joining(r, _) => assert Drift(s.recs[r], t.recs[r]);
    case JoiningHeld(r, _) => assert Drift(s.recs[r], t.recs[r]);
    case Taking(k, _) => DriftTakeable(s, t, k);
    case TakingHeld(k, _) => DriftTakeable(s, t, k);
    case Copying(job) =>
      DriftGoal(s, t, job);
      if job.loaded {
        assert Drift(s.recs[job.i], t.recs[job.i]);
      }
    case Settling(job) =>
      if !job.cursor.Load? {
        assert Drift(s.recs[job.i], t.recs[job.i]);
      }
  }

  lemma TicketKeeps(s: State, step: TicketStep)
    requires Inv(s) && CanTicket(s, step)
    ensures Inv(DoTicket(s, step))
  {
    hide CountOk, LiveOk, ExpiredOk, PhaseOk, RecsOk, Drifts, CanTicket, DoTicket;
    var t := DoTicket(s, step);
    TicketCount(s, step);
    TicketDrifts(s, step);
    DriftLive(s, t);
    DriftPhase(s, t);
  }

  lemma CloseCount(s: State, step: CloseStep)
    requires CountOk(s) && PhaseOk(s) && CanClose(s, step)
    ensures CountOk(DoClose(s, step))
  {
    hide Total;
    match step
    case OpenEpoch(_) =>
    case CloseEpoch(_) =>
    case CloseTracker =>
    case CloseRecord => TotalPut(s.recs, s.phase.close.i, ClosedRec(s.recs[s.phase.close.i]));
    case CloseDone =>
    case AbandonInput(r) => TotalPut(s.recs, r, s.recs[r].(pub := Closed, settled := true));
    case BeginDecode(r) => TotalPut(s.recs, r, s.recs[r].(submitted := true));
  }

  lemma CloseKeeps(s: State, step: CloseStep)
    requires Inv(s) && CanClose(s, step)
    ensures Inv(DoClose(s, step))
  {
    hide CountOk;
    CloseCount(s, step);
  }

  lemma BeginCount(s: State, step: BeginStep)
    requires CountOk(s) && PhaseOk(s) && CanBegin(s, step)
    ensures CountOk(DoBegin(s, step))
  {
    hide Total;
    match step
    case StartBegin(_, _) =>
    case ScanRecord =>
    case ScanDone(_, _) => TotalBlanks(s.recs, BLOCK);
    case JoinEndpoint =>
    case JoinTicket => TotalPut(s.recs, s.phase.at, s.recs[s.phase.at].(refs := s.recs[s.phase.at].refs + 1));
    case TakeEndpoint(_) =>
    case Take => TotalPut(s.recs, s.phase.at, NewRec(s.recs[s.phase.at], s.epoch, s.phase.want));
  }

  lemma ScanKeeps(s: State, step: BeginStep)
    requires Inv(s) && CanBegin(s, step) && (step.StartBegin? || step.ScanRecord? || step.ScanDone?)
    ensures Inv(DoBegin(s, step))
  {
    hide CountOk;
    BeginCount(s, step);
  }

  lemma TakeKeeps(s: State, step: BeginStep)
    requires Inv(s) && CanBegin(s, step) && !(step.StartBegin? || step.ScanRecord? || step.ScanDone?)
    ensures Inv(DoBegin(s, step))
  {
    hide CountOk;
    BeginCount(s, step);
  }

  lemma BeginKeeps(s: State, step: BeginStep)
    requires Inv(s) && CanBegin(s, step)
    ensures Inv(DoBegin(s, step))
  {
    hide Inv, DoBegin;
    if step.StartBegin? || step.ScanRecord? || step.ScanDone? {
      ScanKeeps(s, step);
    } else {
      TakeKeeps(s, step);
    }
  }

  lemma CopyCount(s: State, step: CopyStep)
    requires CountOk(s) && CanCopy(s, step)
    ensures CountOk(DoCopy(s, step))
  {
    hide Total;
    if step.CopyLoad? || step.CopyReuse? {
      var i := s.phase.copy.i;
      TotalPut(s.recs, i, s.recs[i].(consumed := s.recs[i].consumed || s.recs[i].pub == Ready));
      TotalPut(s.recs, i, s.recs[i].(reusable := s.recs[i].reusable || (s.recs[i].pub == Ready && s.recs[i].refs == 0)));
    }
  }

  lemma CopyKeeps(s: State, step: CopyStep)
    requires Inv(s) && CanCopy(s, step)
    ensures Inv(DoCopy(s, step))
  {
    hide CountOk;
    CopyCount(s, step);
  }

  lemma SettleCount(s: State, step: SettleStep)
    requires CountOk(s) && CanSettle(s, step)
    ensures CountOk(DoSettle(s, step))
  {
    hide Total;
    if step.SettleSwap? || step.SettleDecide? {
      var i := s.phase.settle.i;
      TotalPut(s.recs, i, s.recs[i].(pub := Expired));
      TotalPut(s.recs, i, s.recs[i].(settled := true));
    }
  }

  lemma SettleKeeps(s: State, step: SettleStep)
    requires Inv(s) && CanSettle(s, step)
    ensures Inv(DoSettle(s, step))
  {
    hide CountOk;
    SettleCount(s, step);
  }

  /** Every step of every thread keeps the invariant. */
  lemma StepKeeps(s: State, step: Step)
    requires Inv(s) && Can(s, step)
    ensures Inv(Do(s, step))
  {
    hide Inv, DoTicket, DoClose, DoBegin, DoCopy, DoSettle;
    match step
    case Ticket(x) => TicketKeeps(s, x);
    case Close(x) => CloseKeeps(s, x);
    case Begin(x) => BeginKeeps(s, x);
    case Copy(x) => CopyKeeps(s, x);
    case Settle(x) => SettleKeeps(s, x);
  }

  /** Nothing is freed while the owner, a ticket or a call holds it, and nobody runs on freed memory. */
  lemma FreedIsUnused(s: State, step: Step, r: nat)
    requires Inv(s) && s.endpoint == 0 && r < |s.recs|
    ensures !s.owned && s.transit == 0 && s.phase.Idle? && s.recs[r].refs == 0
    ensures !Can(s, step)
  {
    hide Total, RecsOk, LiveOk, ExpiredOk;
    TotalAtLeast(s.recs, r);
    if step.Ticket? && !step.ticket.RetainEndpoint? && !step.ticket.DropEndpoint? && step.ticket.r < |s.recs| {
      TotalAtLeast(s.recs, step.ticket.r);
    }
    if step.Close? && (step.close.AbandonInput? || step.close.BeginDecode?) && step.close.r < |s.recs| {
      TotalAtLeast(s.recs, step.close.r);
    }
  }

  // ---- what one step can do to a record ----

  /** The same ticket before and after a step. */
  ghost predicate Continues(s: State, a: Rec, b: Rec) {
    && (b.pub == a.pub || (a.pub == Open && (b.pub == Claimed || b.pub == Expired || b.pub == Closed))
        || (a.pub == Claimed && b.pub == Ready))
    && b.epoch == a.epoch && b.wire == a.wire && b.input == a.input && (a.submitted ==> b.submitted)
    && (a.pub == Open && b.pub == Expired ==>
          s.phase.Settling? && s.phase.settle.now - a.first >= s.phase.settle.timeout)
    && (a.pub == Open && b.pub == Closed ==> s.phase.Closing? || (a.input && !a.submitted))
    && (b.settled && Live(a) ==> s.phase.Closing? || (a.pub == Open && b.pub == Closed)
                                 || (s.phase.Settling? && (a.pub == Ready || a.pub == Expired)))
    && (a.occupied ==> b.occupied) && (a.settled ==> b.settled) && (a.consumed ==> b.consumed)
    && (a.refs == 0 && b.refs > 0 ==> s.phase.JoiningHeld? && Live(a))
    && (b.consumed && !a.consumed ==> s.phase.Copying? && s.accepting && Due(a, s.epoch))
    && (b.settled && Live(a) && a.pub == Ready ==> s.phase.Closing? || (s.tracking ==> a.consumed))
  }

  /** A new ticket in the same place. */
  ghost predicate Reborn(s: State, a: Rec, b: Rec) {
    && b.version == a.version + 1 && a.refs == 0 && b.refs == 1
    && a.pub != Open && a.pub != Claimed && b.pub == Open
    && b.epoch == s.epoch && Live(b) && !b.consumed
    && (Live(a) ==> a.pub == Ready && (s.tracking ==> a.consumed && a.reusable))
  }

  ghost predicate Edge(s: State, a: Rec, b: Rec) {
    if b.version == a.version then Continues(s, a, b) else Reborn(s, a, b)
  }

  ghost predicate Evolves(s: State, t: State) {
    && |s.recs| <= |t.recs| && (s.tracking ==> t.tracking) && s.epoch <= t.epoch
    && (forall r | 0 <= r < |s.recs| :: Edge(s, s.recs[r], t.recs[r]))
    && forall r | |s.recs| <= r < |t.recs| :: t.recs[r] == BLANK
  }

  lemma TicketEvolves(s: State, step: TicketStep)
    requires Inv(s) && CanTicket(s, step)
    ensures Evolves(s, DoTicket(s, step))
  {
    hide CountOk, LiveOk, ExpiredOk, PhaseOk;
  }

  lemma CloseEvolves(s: State, step: CloseStep)
    requires Inv(s) && CanClose(s, step)
    ensures Evolves(s, DoClose(s, step))
  {
    hide CountOk, LiveOk, ExpiredOk;
  }

  lemma BeginEvolves(s: State, step: BeginStep)
    requires Inv(s) && CanBegin(s, step)
    ensures Evolves(s, DoBegin(s, step))
  {
    hide CountOk, LiveOk, ExpiredOk;
  }

  lemma CopyEvolves(s: State, step: CopyStep)
    requires Inv(s) && CanCopy(s, step)
    ensures Evolves(s, DoCopy(s, step))
  {
    hide CountOk, LiveOk, ExpiredOk;
  }

  lemma SettleEvolves(s: State, step: SettleStep)
    requires Inv(s) && CanSettle(s, step)
    ensures Evolves(s, DoSettle(s, step))
  {
    hide CountOk, LiveOk, ExpiredOk;
  }

  lemma StepEvolves(s: State, step: Step)
    requires Inv(s) && Can(s, step)
    ensures Evolves(s, Do(s, step))
  {
    hide Inv, Evolves, DoTicket, DoClose, DoBegin, DoCopy, DoSettle;
    match step
    case Ticket(x) => TicketEvolves(s, x);
    case Close(x) => CloseEvolves(s, x);
    case Begin(x) => BeginEvolves(s, x);
    case Copy(x) => CopyEvolves(s, x);
    case Settle(x) => SettleEvolves(s, x);
  }

  /** A copy that did not run out of room has taken everything that was due when it began. */
  lemma CopyTakesAll(s: State, k: nat)
    requires Inv(s) && CanCopy(s, CopyDone) && |s.phase.copy.out| < s.phase.copy.capacity && k in s.phase.copy.goal
    ensures k < |s.recs| && s.recs[k].consumed && s.recs[k].pub == Ready
  {
    assert GoalOk(s, s.phase.copy);
    assert RecOk(s.recs[k]);
  }

  /** Once an epoch is closed, none of its tickets can be completed into a report. */
  lemma ClosedEpochSettled(s: State, r: nat)
    requires Inv(s) && !s.accepting && s.phase.Idle? && r < |s.recs| && s.recs[r].occupied
    ensures s.recs[r].settled && s.recs[r].pub != Open
  {
    if Live(s.recs[r]) {
      assert false;
    }
  }
}

/** What a begin hands out, over every interleaving: the frame that was asked for, once. */
module FrameTrackerBegins {
  import opened Words
  import opened Wrappers
  import opened FrameTracker
  import opened FrameTrackerSafety
  import opened FrameTrackerRuns

  // ---- which frame a record stands for ----

  /** The record stands for this sequence of the epoch. */
  ghost predicate Stands(a: Rec, epoch: nat, wire: nat) {
    a.occupied && !a.input && a.epoch == epoch && a.wire == wire
  }

  /** No record before n stands for the wanted sequence; input frames have none. */
  ghost predicate Unknown(s: State, n: nat, want: BeginJob) {
    !want.input ==> forall r | 0 <= r < n && r < |s.recs| :: !Stands(s.recs[r], s.epoch, want.wire)
  }

  /** What the begin in progress knows about the frame it was asked for. */
  ghost predicate AskedOk(s: State) {
    match s.phase
    case Scanning(job) => Unknown(s, job.i, job.want)
    case Joining(r, want) => !want.input && r < |s.recs| && Stands(s.recs[r], s.epoch, want.wire)
    case JoiningHeld(r, want) => !want.input && r < |s.recs| && Stands(s.recs[r], s.epoch, want.wire)
    case Taking(_, want) => Unknown(s, |s.recs|, want)
    case TakingHeld(_, want) => Unknown(s, |s.recs|, want)
    case _ => true
  }

  ghost predicate EpochsOk(s: State) {
    forall r | 0 <= r < |s.recs| && s.recs[r].occupied :: s.recs[r].epoch <= s.epoch
  }

  /** No two records stand for the same sequence of the same epoch. */
  ghost predicate Unique(recs: seq<Rec>) {
    forall q, r | 0 <= q < r < |recs| && Stands(recs[q], recs[r].epoch, recs[r].wire) ::
      !Stands(recs[r], recs[r].epoch, recs[r].wire)
  }

  ghost predicate BeginInv(s: State) {
    AskedOk(s) && EpochsOk(s) && Unique(s.recs)
  }

  lemma InitialBegins()
    ensures BeginInv(Initial())
  {
  }

  // ---- steps that keep every record's identity ----

  ghost predicate SameIdentity(a: Rec, b: Rec) {
    a.occupied == b.occupied && a.input == b.input && a.epoch == b.epoch && a.wire == b.wire
  }

  /** The records stand for what they stood for; new ones are unused. */
  ghost predicate SameIdentities(s: State, t: State) {
    && |s.recs| <= |t.recs|
    && (forall r | 0 <= r < |s.recs| :: SameIdentity(s.recs[r], t.recs[r]))
    && forall r | |s.recs| <= r < |t.recs| :: !t.recs[r].occupied
  }

  lemma TicketIdentities(s: State, step: TicketStep)
    requires CanTicket(s, step)
    ensures SameIdentities(s, DoTicket(s, step)) && |DoTicket(s, step).recs| == |s.recs|
  {
  }

  lemma CloseIdentities(s: State, step: CloseStep)
    requires CanClose(s, step)
    ensures SameIdentities(s, DoClose(s, step)) && |DoClose(s, step).recs| == |s.recs|
  {
  }

  lemma BeginIdentities(s: State, step: BeginStep)
    requires CanBegin(s, step) && !step.Take?
    ensures SameIdentities(s, DoBegin(s, step))
  {
  }

  lemma CopyIdentities(s: State, step: CopyStep)
    requires CanCopy(s, step)
    ensures SameIdentities(s, DoCopy(s, step)) && |DoCopy(s, step).recs| == |s.recs|
  {
  }

  lemma SettleIdentities(s: State, step: SettleStep)
    requires CanSettle(s, step)
    ensures SameIdentities(s, DoSettle(s, step)) && |DoSettle(s, step).recs| == |s.recs|
  {
  }

  lemma IdentityUnique(s: State, t: State)
    requires SameIdentities(s, t) && Unique(s.recs) && EpochsOk(s) && s.epoch <= t.epoch
    ensures Unique(t.recs) && EpochsOk(t)
  {
  }

  lemma IdentityAsked(s: State, t: State)
    requires SameIdentities(s, t) && AskedOk(s) && t.epoch == s.epoch && t.phase == s.phase
    ensures AskedOk(t)
  {
  }

  // ---- every step keeps it ----

  lemma TicketBegins(s: State, step: TicketStep)
    requires BeginInv(s) && CanTicket(s, step)
    ensures BeginInv(DoTicket(s, step))
  {
    hide AskedOk, EpochsOk, Unique, SameIdentities;
    TicketIdentities(s, step);
    IdentityUnique(s, DoTicket(s, step));
    IdentityAsked(s, DoTicket(s, step));
  }

  lemma CloseBegins(s: State, step: CloseStep)
    requires PhaseOk(s) && BeginInv(s) && CanClose(s, step)
    ensures BeginInv(DoClose(s, step))
  {
    hide EpochsOk, Unique, SameIdentities;
    CloseIdentities(s, step);
    IdentityUnique(s, DoClose(s, step));
  }

  lemma ScanBegins(s: State, step: BeginStep)
    requires BeginInv(s) && CanBegin(s, step) && !step.Take?
    ensures AskedOk(DoBegin(s, step))
  {
    hide EpochsOk, Unique;
  }

  /** A new record for a sequence that no record stands for. */
  lemma TakeUnique(s: State, k: nat, b: Rec)
    requires k < |s.recs| && Unique(s.recs) && b.occupied && b.epoch == s.epoch
    requires !b.input ==> forall r | 0 <= r < |s.recs| :: !Stands(s.recs[r], s.epoch, b.wire)
    ensures Unique(s.recs[k := b])
  {
  }

  lemma TakeBegins(s: State)
    requires BeginInv(s) && CanBegin(s, Take)
    ensures BeginInv(DoBegin(s, Take))
  {
    hide Unique;
    var k := s.phase.at;
    TakeUnique(s, k, NewRec(s.recs[k], s.epoch, s.phase.want));
  }

  lemma BeginBegins(s: State, step: BeginStep)
    requires BeginInv(s) && CanBegin(s, step)
    ensures BeginInv(DoBegin(s, step))
  {
    hide EpochsOk, Unique, SameIdentities, AskedOk, Stands;
    if step.Take? {
      TakeBegins(s);
    } else {
      ScanBegins(s, step);
      BeginIdentities(s, step);
      IdentityUnique(s, DoBegin(s, step));
    }
  }

  lemma CopyBegins(s: State, step: CopyStep)
    requires BeginInv(s) && CanCopy(s, step)
    ensures BeginInv(DoCopy(s, step))
  {
    hide EpochsOk, Unique, SameIdentities;
    CopyIdentities(s, step);
    IdentityUnique(s, DoCopy(s, step));
  }

  lemma SettleBegins(s: State, step: SettleStep)
    requires BeginInv(s) && CanSettle(s, step)
    ensures BeginInv(DoSettle(s, step))
  {
    hide EpochsOk, Unique, SameIdentities;
    SettleIdentities(s, step);
    IdentityUnique(s, DoSettle(s, step));
  }

  /** Every step of every thread keeps what the begin in progress knows, and the frames unique. */
  lemma StepBegins(s: State, step: Step)
    requires Inv(s) && BeginInv(s) && Can(s, step)
    ensures BeginInv(Do(s, step))
  {
    hide CountOk, RecsOk, LiveOk, ExpiredOk, PhaseOk, BeginInv, DoTicket, DoClose, DoBegin, DoCopy, DoSettle;
    match step
    case Ticket(x) => TicketBegins(s, x);
    case Close(x) => CloseBegins(s, x);
    case Begin(x) => BeginBegins(s, x);
    case Copy(x) => CopyBegins(s, x);
    case Settle(x) => SettleBegins(s, x);
  }

  lemma {:induction false} ReachableBegins(run: seq<State>, i: nat)
    requires Run(run) && i < |run|
    ensures BeginInv(run[i])
  {
    hide Inv, BeginInv, Can, Do;
    if i == 0 {
      InitialBegins();
    } else {
      ReachableBegins(run, i - 1);
      Reachable(run, i - 1);
      var step := StepAt(run, i - 1);
      StepBegins(run[i - 1], step);
    }
  }

  // ---- what a begin hands out ----

  /** The frame the begin in progress was asked for. */
  function Wanted(p: Phase): (w: Option<BeginJob>) {
    match p
    case Scanning(job) => Some(job.want)
    case Joining(_, want) => Some(want)
    case JoiningHeld(_, want) => Some(want)
    case Taking(_, want) => Some(want)
    case TakingHeld(_, want) => Some(want)
    case _ => None
  }

  /** A begin ends with a ticket on record r: joined, or freshly taken. */
  ghost predicate Gives(s: State, t: State, r: nat) {
    && t.phase.Idle? && r < |s.recs| == |t.recs|
    && if s.phase.JoiningHeld? then s.phase.at == r && t.recs[r].refs == s.recs[r].refs + 1
       else s.phase.TakingHeld? && s.phase.at == r && t.recs[r].refs == 1
  }

  /** The record stands for the frame asked for, in this epoch. */
  ghost predicate Serves(a: Rec, epoch: nat, want: BeginJob) {
    Live(a) && a.epoch == epoch && a.input == want.input && a.wire == want.wire && a.refs > 0
  }

  /** Nothing has happened to the frame yet. */
  ghost predicate Untouched(a: Rec) {
    a.pub == Open && a.refs == 1 && !a.submitted && !a.consumed && !a.reusable
  }

  /** While a begin is in progress, what it wants and the epoch stay. */
  lemma WantedStays(s: State, step: Step)
    requires Can(s, step) && Wanted(s.phase).Some?
    ensures Do(s, step).epoch == s.epoch
    ensures Wanted(Do(s, step).phase).Some? ==> Wanted(Do(s, step).phase) == Wanted(s.phase)
  {
    hide DoBegin, DoCopy, DoSettle, DoClose;
    if step.Begin? {
      BeginWanted(s, step.begin);
    }
  }

  lemma BeginWanted(s: State, step: BeginStep)
    requires CanBegin(s, step) && Wanted(s.phase).Some?
    ensures DoBegin(s, step).epoch == s.epoch
    ensures Wanted(DoBegin(s, step).phase).Some? ==> Wanted(DoBegin(s, step).phase) == Wanted(s.phase)
  {
    hide Blanks, Free, Collected, Matches, NewRec;
  }

  lemma GivenServes(s: State, step: Step, r: nat)
    requires Inv(s) && BeginInv(s) && Can(s, step) && Gives(s, Do(s, step), r)
    ensures Wanted(s.phase).Some? && Serves(Do(s, step).recs[r], s.epoch, Wanted(s.phase).value)
    ensures s.phase.TakingHeld? ==> Unknown(s, |s.recs|, s.phase.want)
  {
    hide CountOk, RecsOk, LiveOk, ExpiredOk, EpochsOk, Unique;
  }

  /** From moment i on, a begin asked for this frame is in progress. */
  ghost predicate BeginFrom(run: seq<State>, i: nat, j: nat, want: BeginJob) {
    && i < j < |run| && Can(run[i], Begin(StartBegin(run[i].epoch, want)))
    && run[i + 1] == Do(run[i], Begin(StartBegin(run[i].epoch, want)))
    && forall k | i < k <= j :: Wanted(run[k].phase).Some?
  }

  lemma {:induction false} StillWanted(run: seq<State>, i: nat, j: nat, want: BeginJob)
    requires Run(run) && BeginFrom(run, i, j, want)
    ensures Wanted(run[j].phase) == Some(want) && run[j].epoch == run[i].epoch
    decreases j
  {
    hide Can, Do, Run;
    if j == i + 1 {
      StartWants(run[i], want);
    } else {
      StillWanted(run, i, j - 1, want);
      var step := StepAt(run, j - 1);
      WantedStays(run[j - 1], step);
    }
  }

  lemma StartWants(s: State, want: BeginJob)
    requires Can(s, Begin(StartBegin(s.epoch, want)))
    ensures var t := Do(s, Begin(StartBegin(s.epoch, want))); Wanted(t.phase) == Some(want) && t.epoch == s.epoch
  {
  }

  /**
   * A begin that ends with a ticket ends with a live record of the frame it was asked for, in the epoch it
   * was asked in; a fresh record is taken only when no record stood for that frame.
   */
  lemma BeginServed(run: seq<State>, i: nat, j: nat, r: nat, want: BeginJob)
    requires Run(run) && BeginFrom(run, i, j, want) && j < |run| - 1 && Gives(run[j], run[j + 1], r)
    ensures Serves(run[j + 1].recs[r], run[i].epoch, want)
    ensures run[j + 1].recs[r].version != run[j].recs[r].version && !want.input ==>
              forall q | 0 <= q < |run[j].recs| :: !Stands(run[j].recs[q], run[i].epoch, want.wire)
    ensures run[j + 1].recs[r].version != run[j].recs[r].version ==>
              Untouched(run[j + 1].recs[r]) && run[j + 1].recs[r].first == want.first
  {
    hide Can, Do, Run, Serves, Inv, BeginInv;
    StillWanted(run, i, j, want);
    Reachable(run, j);
    ReachableBegins(run, j);
    var step := StepAt(run, j);
    GivenServes(run[j], step, r);
    GivenVersion(run[j], step, r);
  }

  lemma GivenVersion(s: State, step: Step, r: nat)
    requires Can(s, step) && Gives(s, Do(s, step), r)
    ensures Do(s, step).recs[r].version == s.recs[r].version + if s.phase.TakingHeld? then 1 else 0
    ensures s.phase.TakingHeld? ==> Untouched(Do(s, step).recs[r]) && Do(s, step).recs[r].first == s.phase.want.first
  {
  }

  /** At no moment of any run do two live records stand for the same sequence of an epoch. */
  lemma OneRecordPerSequence(run: seq<State>, i: nat, q: nat, r: nat)
    requires Run(run) && i < |run| && q < r < |run[i].recs|
    requires Live(run[i].recs[q]) && Live(run[i].recs[r]) && !run[i].recs[q].input && !run[i].recs[r].input
    ensures run[i].recs[q].wire != run[i].recs[r].wire
  {
    hide Run, CountOk, RecsOk, ExpiredOk, PhaseOk, AskedOk, EpochsOk;
    Reachable(run, i);
    ReachableBegins(run, i);
  }

  // ---- when storage grows ----

  /** Nobody holds the record and its frame is over: never begun, settled, or completed and no longer needed. */
  ghost predicate Reusable(a: Rec, tracking: bool) {
    && a.refs == 0 && a.version != U64_SIZE - 1
    && (!a.occupied || a.settled || (a.pub == Ready && (tracking ==> a.consumed && a.reusable)))
  }

  /** Between moments i and j the scan passed over r, and it was in use then. */
  ghost predicate PassedOver(run: seq<State>, i: nat, j: nat, r: nat) {
    exists k | i <= k < j < |run| ::
      && run[k].phase.Scanning? && run[k].phase.scan.i == r < |run[k].recs|
      && !Reusable(run[k].recs[r], run[k].tracking)
  }

  /** A scan that has found nothing has found every record so far in use. */
  lemma {:induction false} FoundNothing(run: seq<State>, i: nat, j: nat, r: nat, want: BeginJob)
    requires Run(run) && BeginFrom(run, i, j, want) && run[j].phase.Scanning? && r < run[j].phase.scan.i
    requires run[j].phase.scan.free.None? && run[j].phase.scan.collected.None?
    ensures PassedOver(run, i, j, r)
    decreases j
  {
    hide Can, Do, Run, Reusable;
    if j == i + 1 {
      assert false by { StartScan(run[i], want); }
    } else {
      var step := StepAt(run, j - 1);
      ScanMoves(run[j - 1], step);
      if run[j - 1].phase.scan.i > r {
        FoundNothing(run, i, j - 1, r, want);
        var k :| i <= k < j - 1 && run[k].phase.Scanning? && run[k].phase.scan.i == r < |run[k].recs|
                 && !Reusable(run[k].recs[r], run[k].tracking);
      }
    }
  }

  lemma StartScan(s: State, want: BeginJob)
    requires Can(s, Begin(StartBegin(s.epoch, want)))
    ensures Do(s, Begin(StartBegin(s.epoch, want))).phase == Scanning(ScanJob(0, want, None, None))
  {
  }

  /** A step that leaves a scan with nothing found has passed at most one record, which was in use. */
  lemma ScanMoves(s: State, step: Step)
    requires Can(s, step) && Wanted(s.phase).Some? && Do(s, step).phase.Scanning?
    requires Do(s, step).phase.scan.free.None? && Do(s, step).phase.scan.collected.None?
    ensures s.phase.Scanning? && s.phase.scan.free.None? && s.phase.scan.collected.None?
    ensures var i, i' := s.phase.scan.i, Do(s, step).phase.scan.i;
            i' == i || (i' == i + 1 && i < |s.recs| && !Reusable(s.recs[i], s.tracking))
  {
  }

  /** Storage grows only when the scan of that begin found every record in use. */
  lemma GrowsOnlyWhenFull(run: seq<State>, i: nat, j: nat, r: nat, want: BeginJob)
    requires Run(run) && BeginFrom(run, i, j, want) && j < |run| - 1
    requires |run[j + 1].recs| > |run[j].recs| && r < |run[j].recs|
    ensures PassedOver(run, i, j, r)
  {
    hide Can, Do, Run, PassedOver;
    var step := StepAt(run, j);
    GrowthStep(run[j], step);
    FoundNothing(run, i, j, r, want);
  }

  lemma GrowthStep(s: State, step: Step)
    requires Can(s, step)
    ensures |Do(s, step).recs| > |s.recs| ==>
              && s.phase.Scanning? && s.phase.scan.i >= |s.recs|
              && s.phase.scan.free.None? && s.phase.scan.collected.None?
  {
    hide DoTicket, DoClose, DoCopy, DoSettle, SameIdentities, ScanOne, NewRec;
    match step
    case Ticket(x) => TicketIdentities(s, x);
    case Close(x) => CloseIdentities(s, x);
    case Begin(x) =>
    case Copy(x) => CopyIdentities(s, x);
    case Settle(x) => SettleIdentities(s, x);
  }
}

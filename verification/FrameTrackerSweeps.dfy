/** What a settle pass leaves behind, and what can end a ticket nobody completed. */
module FrameTrackerSweeps {
  import opened FrameTracker
  import opened FrameTrackerSafety
  import opened FrameTrackerRuns

  /** Nobody has completed the frame, and its time is up. */
  ghost predicate Overdue(a: Rec, now: nat, timeout: nat) {
    Live(a) && a.pub == Open && now - a.first >= timeout
  }

  /** The pass has dealt with record r. */
  predicate Swept(job: SettleJob, r: nat) {
    r < job.i || (r == job.i && job.cursor.Decide?)
  }

  /** No swept record is overdue, and what was finished when the pass began is settled or still to come. */
  ghost predicate SweepOk(s: State) {
    s.phase.Settling? ==>
      var job := s.phase.settle;
      && (forall r | 0 <= r < |s.recs| && Swept(job, r) :: !Overdue(s.recs[r], job.now, job.timeout))
      && (forall k | k in job.goal :: k < |s.recs| && if k < job.i then s.recs[k].settled else Finished(s, k))
      && (!job.cursor.Load? && job.i in job.goal ==> job.cursor == Decide(Ready))
  }

  ghost predicate Finished(s: State, k: nat)
    requires k < |s.recs|
  {
    Live(s.recs[k]) && s.recs[k].pub == Ready && (s.tracking ==> s.recs[k].consumed)
  }

  lemma DriftSweeps(s: State, t: State)
    requires Drifts(s, t) && SweepOk(s)
    ensures SweepOk(t)
  {
    if s.phase.Settling? {
      var job := s.phase.settle;
      forall r | 0 <= r < |t.recs| && Swept(job, r)
        ensures !Overdue(t.recs[r], job.now, job.timeout)
      {
        assert Drift(s.recs[r], t.recs[r]);
      }
      forall k | k in job.goal
        ensures k < |t.recs| && if k < job.i then t.recs[k].settled else Finished(t, k)
      {
        assert Drift(s.recs[k], t.recs[k]);
      }
    }
  }

  lemma SettleSweeps(s: State, step: SettleStep)
    requires PhaseOk(s) && SweepOk(s) && CanSettle(s, step)
    ensures SweepOk(DoSettle(s, step))
  {
    if step.SettleSwap? || step.SettleDecide? {
      PutSweeps(s, step);
    }
  }

  lemma PutSweeps(s: State, step: SettleStep)
    requires PhaseOk(s) && SweepOk(s) && CanSettle(s, step) && (step.SettleSwap? || step.SettleDecide?)
    ensures SweepOk(DoSettle(s, step))
  {
  }

  /** Every step of every thread keeps the pass on course. */
  lemma StepSweeps(s: State, step: Step)
    requires Inv(s) && SweepOk(s) && Can(s, step)
    ensures SweepOk(Do(s, step))
  {
    match step
    case Ticket(x) =>
      hide CountOk, LiveOk, PhaseOk, ExpiredOk, DoTicket, SweepOk, Drifts;
      TicketDrifts(s, x);
      DriftSweeps(s, DoTicket(s, x));
    case Settle(x) =>
      hide CountOk, LiveOk, PhaseOk, ExpiredOk, DoSettle, SweepOk;
      SettleSweeps(s, x);
    case _ =>
  }

  lemma {:induction false} ReachableSweeps(run: seq<State>, i: nat)
    requires Run(run) && i < |run|
    ensures SweepOk(run[i])
  {
    hide Inv, Can, Do;
    if i > 0 {
      ReachableSweeps(run, i - 1);
      Reachable(run, i - 1);
      var step := StepAt(run, i - 1);
      StepSweeps(run[i - 1], step);
    }
  }

  /** At moment j a settle pass that began at moment i ends, without having run out of room. */
  ghost predicate PassEnds(run: seq<State>, i: nat, j: nat, now: nat, timeout: nat, capacity: nat) {
    && i < j < |run| - 1 && Can(run[i], Settle(StartSettle(now, timeout, capacity)))
    && run[i + 1] == Do(run[i], Settle(StartSettle(now, timeout, capacity)))
    && (forall k | i < k <= j :: run[k].phase.Settling?)
    && run[j + 1].phase.Idle? && |run[j].phase.settle.out| < capacity
  }

  /** The pass keeps what it was started with. */
  lemma {:induction false} PassKeeps(run: seq<State>, i: nat, j: nat, k: nat, now: nat, timeout: nat, capacity: nat)
    requires Run(run) && PassEnds(run, i, j, now, timeout, capacity) && i < k <= j
    ensures var job := run[k].phase.settle;
            job.now == now && job.timeout == timeout && job.capacity == capacity && job.goal == FinishedAt(run[i])
    decreases k
  {
    hide Run, Can, Do;
    if k == i + 1 {
      PassStarts(run[i], now, timeout, capacity);
    } else {
      PassKeeps(run, i, j, k - 1, now, timeout, capacity);
      var step := StepAt(run, k - 1);
      JobStays(run[k - 1], step);
    }
  }

  lemma PassStarts(s: State, now: nat, timeout: nat, capacity: nat)
    requires Can(s, Settle(StartSettle(now, timeout, capacity)))
    ensures Do(s, Settle(StartSettle(now, timeout, capacity))).phase
            == Settling(SettleJob(0, [], capacity, now, timeout, Load, FinishedAt(s)))
  {
  }

  lemma JobStays(s: State, step: Step)
    requires Can(s, step) && s.phase.Settling? && Do(s, step).phase.Settling?
    ensures var a, b := s.phase.settle, Do(s, step).phase.settle;
            b.now == a.now && b.timeout == a.timeout && b.capacity == a.capacity && b.goal == a.goal
  {
    hide FinishedAt, TimedOut, Settles;
  }

  lemma PassOver(s: State, step: Step)
    requires Can(s, step) && s.phase.Settling? && Do(s, step).phase.Idle?
    ensures Do(s, step) == s.(phase := Idle)
    ensures |s.phase.settle.out| < s.phase.settle.capacity ==> s.phase.settle.i >= |s.recs|
  {
    hide FinishedAt, TimedOut, Settles;
  }

  /**
   * A settle pass that had room leaves no overdue frame open, and has settled everything that was finished
   * when it began.
   */
  lemma PassSettlesAll(run: seq<State>, i: nat, j: nat, r: nat, now: nat, timeout: nat, capacity: nat)
    requires Run(run) && PassEnds(run, i, j, now, timeout, capacity) && r < |run[j + 1].recs|
    ensures !Overdue(run[j + 1].recs[r], now, timeout)
    ensures r < |run[i].recs| && Finished(run[i], r) ==> run[j + 1].recs[r].settled
  {
    hide Run, Can, Do;
    PassKeeps(run, i, j, j, now, timeout, capacity);
    ReachableSweeps(run, j);
    var step := StepAt(run, j);
    PassOver(run[j], step);
    assert Swept(run[j].phase.settle, r);
    assert r in FinishedAt(run[i]) ==> run[j].recs[r].settled;
  }

  // ---- what ends a ticket nobody completed ----

  /** The ticket's time was up at some moment in between. */
  ghost predicate TimedOutBetween(run: seq<State>, i: nat, j: nat, r: nat) {
    exists k | i <= k < j < |run| ::
      && run[k].phase.Settling? && r < |run[k].recs| && SameTicket(run, i, k, r)
      && run[k].phase.settle.now - run[k].recs[r].first >= run[k].phase.settle.timeout
  }

  /**
   * A frame handed to the decoder is never abandoned: outside the closing of an epoch only a completion or
   * its timeout ends it.
   */
  lemma {:induction false} DecodedStays(run: seq<State>, i: nat, j: nat, r: nat)
    requires Run(run) && SameTicket(run, i, j, r) && NoClosing(run, i, j)
    requires run[i].recs[r].pub == Open && run[i].recs[r].submitted
    ensures run[j].recs[r].submitted && run[j].recs[r].pub != Closed
    ensures run[j].recs[r].pub == Expired ==> TimedOutBetween(run, i, j, r)
    decreases j
  {
    hide Run;
    if i < j {
      SameTicketBetween(run, i, j, j - 1, r);
      assert NoClosing(run, i, j - 1);
      DecodedStays(run, i, j - 1, r);
      EdgeAt(run, j - 1, r);
      if run[j - 1].recs[r].pub == Expired {
        var k :| i <= k < j - 1 && run[k].phase.Settling? && r < |run[k].recs| && SameTicket(run, i, k, r)
                 && run[k].phase.settle.now - run[k].recs[r].first >= run[k].phase.settle.timeout;
      }
    }
  }

  /** A begin of decoding on a live ticket marks it. */
  lemma DecodeMarks(s: State, r: nat)
    requires Inv(s) && CanClose(s, BeginDecode(r)) && Live(s.recs[r])
    ensures DoClose(s, BeginDecode(r)).recs[r].submitted
  {
  }
}

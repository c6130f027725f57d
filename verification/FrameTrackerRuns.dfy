/** Whole runs of the tracker, over every interleaving of its threads. */
module FrameTrackerRuns {
  import opened FrameTracker
  import opened FrameTrackerSafety

  ghost predicate Next(s: State, t: State) {
    exists step: Step :: Can(s, step) && t == Do(s, step)
  }

  ghost predicate NextAt(run: seq<State>, i: int) {
    0 <= i < |run| - 1 && Next(run[i], run[i + 1])
  }

  ghost predicate Run(run: seq<State>) {
    |run| > 0 && run[0] == Initial() && forall i | 0 <= i < |run| - 1 :: NextAt(run, i)
  }

  /** The step taken at moment i. */
  lemma StepAt(run: seq<State>, i: nat) returns (step: Step)
    requires Run(run) && i < |run| - 1
    ensures Can(run[i], step) && run[i + 1] == Do(run[i], step)
  {
    hide Can, Do;
    assert NextAt(run, i);
    step :| Can(run[i], step) && run[i + 1] == Do(run[i], step);
  }

  lemma {:induction false} Reachable(run: seq<State>, i: nat)
    requires Run(run) && i < |run|
    ensures Inv(run[i])
  {
    hide Inv, Can, Do;
    if i == 0 {
      InitialInv();
    } else {
      Reachable(run, i - 1);
      var step := StepAt(run, i - 1);
      StepKeeps(run[i - 1], step);
    }
  }

  lemma Evolution(run: seq<State>, i: nat)
    requires Run(run) && i < |run| - 1
    ensures Evolves(run[i], run[i + 1])
  {
    hide Inv, Can, Do, Evolves;
    Reachable(run, i);
    var step := StepAt(run, i);
    StepEvolves(run[i], step);
  }

  /** The record r as it changes in one step of the run. */
  lemma EdgeAt(run: seq<State>, i: nat, r: nat)
    requires Run(run) && i < |run| - 1 && r < |run[i].recs|
    ensures r < |run[i + 1].recs| && Edge(run[i], run[i].recs[r], run[i + 1].recs[r])
  {
    hide Run, Edge;
    Evolution(run, i);
  }

  /** Records are never removed, and their versions only grow. */
  lemma {:induction false} VersionGrows(run: seq<State>, i: nat, j: nat, r: nat)
    requires Run(run) && i <= j < |run| && r < |run[i].recs|
    ensures r < |run[j].recs| && run[i].recs[r].version <= run[j].recs[r].version
    decreases j
  {
    hide Run;
    if i < j {
      VersionGrows(run, i, j - 1, r);
      EdgeAt(run, j - 1, r);
    }
  }

  /** The same ticket at two moments of a run. */
  ghost predicate SameTicket(run: seq<State>, i: nat, j: nat, r: nat) {
    i <= j < |run| && r < |run[i].recs| && r < |run[j].recs| && run[i].recs[r].version == run[j].recs[r].version
  }

  lemma SameTicketBetween(run: seq<State>, i: nat, j: nat, k: nat, r: nat)
    requires Run(run) && SameTicket(run, i, j, r) && i <= k <= j
    ensures SameTicket(run, i, k, r) && SameTicket(run, k, j, r)
  {
    hide Run;
    VersionGrows(run, i, k, r);
    VersionGrows(run, k, j, r);
  }

  /** What a ticket has once gone through stays: it never opens again, and marks are never taken back. */
  lemma {:induction false} TicketMonotone(run: seq<State>, i: nat, j: nat, r: nat)
    requires Run(run) && SameTicket(run, i, j, r)
    ensures run[i].recs[r].pub != Open ==> run[j].recs[r].pub != Open
    ensures run[i].recs[r].settled ==> run[j].recs[r].settled
    ensures run[i].recs[r].consumed ==> run[j].recs[r].consumed
    ensures run[i].recs[r].epoch == run[j].recs[r].epoch && run[i].recs[r].wire == run[j].recs[r].wire
    decreases j
  {
    hide Run;
    if i < j {
      SameTicketBetween(run, i, j, j - 1, r);
      TicketMonotone(run, i, j - 1, r);
      EdgeAt(run, j - 1, r);
    }
  }

  /** At moment i, some thread wins the ticket: claims, expires or closes it. */
  ghost predicate LeavesOpen(run: seq<State>, i: nat, r: nat) {
    && i < |run| - 1 && r < |run[i].recs| && r < |run[i + 1].recs|
    && run[i].recs[r].pub == Open && run[i + 1].recs[r].pub != Open
  }

  /** Every incarnation of a ticket leaves Open at most once, so it has one winner. */
  lemma OneWinner(run: seq<State>, i: nat, j: nat, r: nat)
    requires Run(run) && LeavesOpen(run, i, r) && LeavesOpen(run, j, r) && SameTicket(run, i, j, r)
    ensures i == j
  {
    hide Run;
    if i < j {
      SameTicketBetween(run, i, j, i + 1, r);
      TicketMonotone(run, i + 1, j, r);
    }
  }

  /** A ready ticket was claimed earlier in the same incarnation. */
  lemma {:induction false} ReadyWasClaimed(run: seq<State>, j: nat, r: nat) returns (i: nat)
    requires Run(run) && j < |run| && r < |run[j].recs| && run[j].recs[r].pub == Ready
    ensures i < j && SameTicket(run, i, j, r) && run[i].recs[r].pub == Claimed
    decreases j
  {
    hide Run;
    if j == 0 {
      assert false by { StartsBlank(run, r); }
    } else if r >= |run[j - 1].recs| {
      assert false by { GrowsBlank(run, j - 1, r); }
    } else {
      EdgeAt(run, j - 1, r);
      if run[j - 1].recs[r].pub == Claimed {
        i := j - 1;
      } else {
        i := ReadyWasClaimed(run, j - 1, r);
      }
    }
  }

  lemma StartsBlank(run: seq<State>, r: nat)
    requires Run(run) && r < |run[0].recs|
    ensures run[0].recs[r] == BLANK
  {
  }

  /** New storage starts out closed. */
  lemma GrowsBlank(run: seq<State>, i: nat, r: nat)
    requires Run(run) && i < |run| - 1 && |run[i].recs| <= r < |run[i + 1].recs|
    ensures run[i + 1].recs[r] == BLANK
  {
    hide Run, Edge;
    Evolution(run, i);
  }

  /** A held ticket is never recycled: its incarnation changes only at zero references, and by one. */
  lemma RecycledOnlyUnheld(run: seq<State>, i: nat, r: nat)
    requires Run(run) && i < |run| - 1 && r < |run[i].recs|
    ensures r < |run[i + 1].recs|
    ensures run[i + 1].recs[r].version != run[i].recs[r].version ==>
              && run[i].recs[r].refs == 0 && run[i + 1].recs[r].version == run[i].recs[r].version + 1
              && run[i].recs[r].pub != Open && run[i].recs[r].pub != Claimed
  {
    hide Run;
    EdgeAt(run, i, r);
  }

  // ---- handing completions to statistics ----

  /** At moment i, the completion of r is handed over. */
  ghost predicate HandsOver(run: seq<State>, i: nat, r: nat) {
    && i < |run| - 1 && r < |run[i].recs| && r < |run[i + 1].recs|
    && !run[i].recs[r].consumed && run[i + 1].recs[r].consumed
  }

  /** A completion is handed over at most once, and only as a finished one of the open epoch. */
  lemma HandedOnce(run: seq<State>, i: nat, j: nat, r: nat)
    requires Run(run) && HandsOver(run, i, r) && HandsOver(run, j, r) && SameTicket(run, i, j, r)
    ensures i == j && Due(run[i].recs[r], run[i].epoch) && run[i].accepting
  {
    hide Run;
    EdgeAt(run, i, r);
    if i < j {
      SameTicketBetween(run, i, j, i + 1, r);
      TicketMonotone(run, i + 1, j, r);
    }
  }

  /** The completion waits, untouched. */
  ghost predicate Waits(run: seq<State>, i: nat, j: nat, r: nat) {
    && SameTicket(run, i, j, r) && Live(run[j].recs[r]) && run[j].recs[r].pub == Ready && !run[j].recs[r].consumed
  }

  ghost predicate TakenBetween(run: seq<State>, i: nat, j: nat, r: nat) {
    exists m: nat :: i <= m <= j && SameTicket(run, i, m, r) && run[m].recs[r].consumed
  }

  ghost predicate NoClosing(run: seq<State>, i: nat, j: nat) {
    forall k | i <= k < j < |run| :: !run[k].phase.Closing?
  }

  /**
   * Once statistics are tracked, a completion is neither settled nor recycled before it is handed over,
   * unless an epoch closes.
   */
  lemma {:induction false} NotLostBeforeHandOver(run: seq<State>, i: nat, j: nat, r: nat)
    requires Run(run) && i <= j < |run| && run[i].tracking && r < |run[i].recs|
    requires Waits(run, i, i, r) && NoClosing(run, i, j)
    ensures run[j].tracking && (Waits(run, i, j, r) || TakenBetween(run, i, j, r))
    decreases j
  {
    hide Run;
    if i < j {
      assert NoClosing(run, i, j - 1);
      NotLostBeforeHandOver(run, i, j - 1, r);
      Evolution(run, j - 1);
      if Waits(run, i, j - 1, r) {
        EdgeAt(run, j - 1, r);
        if run[j].recs[r].consumed {
          assert SameTicket(run, i, j, r);
        }
      }
    }
  }
}

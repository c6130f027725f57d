/** The log of discovery sends: one full send per round, at most two fast ones, one per generation. */
module DiscoveryRounds {

  import opened Words

  /** A send after receive generation `gen` with a sequence number; `round` counts the full sends. */
  datatype Send = Send(gen: nat, round: nat, number: U32, full: bool)

  /** Every send carries the number of its round. */
  ghost predicate Numbered(log: seq<Send>, first: U32) {
    forall i | 0 <= i < |log| :: log[i].number == Wrap32(first + log[i].round)
  }

  /** Sends with one number belong to one round, until the numbers have gone around. */
  lemma OneRoundPerNumber(log: seq<Send>, first: U32, i: nat, j: nat)
    requires Numbered(log, first) && i < |log| && j < |log| && log[i].number == log[j].number
    requires -U32_SIZE < log[i].round - log[j].round < U32_SIZE
    ensures log[i].round == log[j].round
  {
    var a, b := first + log[i].round, first + log[j].round;
    var x, y := a / U32_SIZE, b / U32_SIZE;
    assert a - b == U32_SIZE * (x - y);
  }

  ghost function Count(log: seq<Send>, round: nat, full: bool): (n: nat) {
    if log == [] then 0
    else Count(log[..|log| - 1], round, full) + if log[|log| - 1].round == round && log[|log| - 1].full == full then 1 else 0
  }

  lemma CountAppend(log: seq<Send>, x: Send, round: nat, full: bool)
    ensures Count(log + [x], round, full) == Count(log, round, full) + if x.round == round && x.full == full then 1 else 0
  {
    assert (log + [x])[..|log|] == log;
  }

  /** Each round so far had exactly one full send and at most two fast ones. */
  ghost predicate RoundOk(log: seq<Send>, rounds: nat, r: nat) {
    && Count(log, r, true) == (if 1 <= r <= rounds then 1 else 0)
    && Count(log, r, false) <= (if 1 <= r <= rounds then 2 else 0)
  }

  ghost predicate RoundsOk(log: seq<Send>, rounds: nat) {
    forall r: nat :: RoundOk(log, rounds, r)
  }

  ghost predicate OnePerGeneration(log: seq<Send>, last: int) {
    && (forall i, j | 0 <= i < j < |log| :: log[i].gen < log[j].gen)
    && forall i | 0 <= i < |log| :: log[i].gen <= last
  }

  lemma FullSend(log: seq<Send>, rounds: nat, gen: nat, number: U32, first: U32)
    requires RoundsOk(log, rounds) && Numbered(log, first) && number == Wrap32(first + (rounds + 1))
    ensures var log' := log + [Send(gen, rounds + 1, number, true)];
            RoundsOk(log', rounds + 1) && Numbered(log', first) && Count(log', rounds + 1, false) == 0
  {
    var x := Send(gen, rounds + 1, number, true);
    var log', rounds' := log + [x], rounds + 1;
    forall r: nat
      ensures RoundOk(log', rounds', r)
    {
      assert RoundOk(log, rounds, r);
      CountAppend(log, x, r, true);
      CountAppend(log, x, r, false);
    }
    assert RoundOk(log, rounds, rounds + 1);
    CountAppend(log, x, rounds + 1, false);
  }

  lemma FastSend(log: seq<Send>, rounds: nat, gen: nat, number: U32, first: U32)
    requires RoundsOk(log, rounds) && rounds > 0 && Count(log, rounds, false) < 2
    requires Numbered(log, first) && number == Wrap32(first + rounds)
    ensures var log' := log + [Send(gen, rounds, number, false)];
            RoundsOk(log', rounds) && Numbered(log', first) && Count(log', rounds, false) == Count(log, rounds, false) + 1
  {
    var x := Send(gen, rounds, number, false);
    var log' := log + [x];
    forall r: nat
      ensures RoundOk(log', rounds, r)
    {
      assert RoundOk(log, rounds, r);
      CountAppend(log, x, r, true);
      CountAppend(log, x, r, false);
    }
    CountAppend(log, x, rounds, false);
  }

  lemma NoSends()
    ensures RoundsOk([], 0)
  {
    forall r: nat
      ensures RoundOk([], 0, r)
    {
    }
  }
}

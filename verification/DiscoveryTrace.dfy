/** What a discovery client does, in order, and that queued commands take their turns. */
module DiscoveryTrace {

  datatype Mark =
    | Dequeued(asks: bool)
    | BatchBegun
    | BatchRead
    | Deferred
    | Dispatched
    | SentFull
    | Stopped
    | Interrupted

  type Trace = seq<Mark>

  /** How often a mark occurs. */
  ghost function Tally(t: Trace, m: Mark): (n: nat) {
    if t == [] then 0 else Tally(t[..|t| - 1], m) + if t[|t| - 1] == m then 1 else 0
  }

  lemma TallyAppend(t: Trace, x: Mark, m: Mark)
    ensures Tally(t + [x], m) == Tally(t, m) + if x == m then 1 else 0
  {
    assert (t + [x])[..|t|] == t;
  }

  /** How many batches are being read. */
  ghost function Reading(t: Trace): (n: int) {
    Tally(t, BatchBegun) - Tally(t, BatchRead)
  }

  /** How many deferred messages are not dispatched. */
  ghost function Undone(t: Trace): (n: int) {
    Tally(t, Deferred) - Tally(t, Dispatched)
  }

  /** Every batch begun has been read, and every message deferred has been dispatched. */
  ghost predicate Settled(t: Trace) {
    Reading(t) == 0 && Undone(t) == 0
  }

  /** What ends the turn of an Enable or Trigger: its full send, or the end of it all. */
  predicate Releases(m: Mark) {
    m.SentFull? || m.Stopped? || m.Interrupted?
  }

  /** The last Enable or Trigger taken off the queue still has its turn. */
  ghost predicate Open(t: Trace) {
    t != [] &&
    var m := t[|t| - 1];
    m == Dequeued(true) || (!Releases(m) && Open(t[..|t| - 1]))
  }

  ghost predicate EndsDequeued(t: Trace) {
    t != [] && t[|t| - 1].Dequeued?
  }

  /**
   * Nothing is taken off the queue during the turn of another command, and what is taken off comes with a batch
   * of its own; batches are read one at a time, and full sends come when all is settled.
   */
  ghost predicate Fits(t: Trace, m: Mark) {
    && (EndsDequeued(t) ==> m.BatchBegun?)
    && match m
       case Dequeued(_) => !Open(t)
       case BatchBegun => Reading(t) == 0
       case BatchRead => Reading(t) == 1
       case SentFull => Settled(t)
       case _ => true
  }

  ghost predicate Linear(t: Trace) {
    t == [] || (Linear(t[..|t| - 1]) && Fits(t[..|t| - 1], t[|t| - 1]))
  }

  /** Every mark fits what came before it. */
  lemma {:induction false} LinearAt(t: Trace, k: nat)
    requires Linear(t) && k < |t|
    ensures Linear(t[..k]) && Fits(t[..k], t[k])
  {
    var n := |t| - 1;
    if k < n {
      LinearAt(t[..n], k);
      assert t[..n][..k] == t[..k];
    }
  }

  /** A turn that is not open has been released since it began. */
  lemma {:induction false} Released(t: Trace, i: nat)
    requires i < |t| && t[i] == Dequeued(true) && !Open(t)
    ensures exists k :: i < k < |t| && Releases(t[k])
  {
    var n := |t| - 1;
    if !Releases(t[n]) {
      Released(t[..n], i);
      var k :| i < k < n && Releases(t[..n][k]);
      assert Releases(t[k]);
    }
  }

  lemma {:induction false} TallyGrows(t: Trace, m: Mark, a: nat, b: nat)
    requires a <= b <= |t|
    ensures Tally(t[..a], m) <= Tally(t[..b], m)
    ensures Tally(t[..a], m) < Tally(t[..b], m) ==> exists e :: a <= e < b && t[e] == m
    decreases b
  {
    if a < b {
      TallyGrows(t, m, a, b - 1);
      assert t[..b] == t[..b - 1] + [t[b - 1]];
      TallyAppend(t[..b - 1], t[b - 1], m);
    }
  }

  /** A batch that begins at `b` has been read by the time all is settled. */
  lemma BatchIsRead(t: Trace, b: nat, k: nat) returns (e: nat)
    requires Linear(t) && b < k < |t| && t[b] == BatchBegun && Settled(t[..k])
    ensures b < e < k && t[e] == BatchRead
  {
    hide Tally, Linear;
    LinearAt(t, b);
    assert t[..b + 1] == t[..b] + [t[b]];
    TallyAppend(t[..b], t[b], BatchBegun);
    TallyAppend(t[..b], t[b], BatchRead);
    TallyGrows(t, BatchBegun, b + 1, k);
    TallyGrows(t, BatchRead, b + 1, k);
    e :| b + 1 <= e < k && t[e] == BatchRead;
  }

  /** At k a full send, made after a batch begun since i was read and everything deferred was dispatched. */
  ghost predicate SentInTurn(t: Trace, i: int, k: int)
    requires 0 <= i < k < |t|
  {
    t[k].SentFull? && Settled(t[..k]) && exists b, e :: BatchBetween(t, i, b, e, k)
  }

  ghost predicate BatchBetween(t: Trace, i: int, b: int, e: int, k: int)
    requires 0 <= i < k < |t|
  {
    i < b < e < k && t[b] == BatchBegun && t[e] == BatchRead
  }

  /**
   * Between an Enable or Trigger taken off the queue and anything taken off later, its batch was begun and read,
   * its messages were dispatched and its full send was made, or discovery was stopped or interrupted.
   */
  lemma TurnsAreLinear(t: Trace, i: nat, j: nat) returns (k: nat)
    requires Linear(t) && i < j < |t| && t[i] == Dequeued(true) && t[j].Dequeued?
    ensures i < k < j && (SentInTurn(t, i, k) || t[k].Stopped? || t[k].Interrupted?)
  {
    hide Linear, Tally;
    LinearAt(t, j);
    Released(t[..j], i);
    k :| i < k < j && Releases(t[..j][k]);
    LinearAt(t, i + 1);
    assert t[..i + 1][i] == t[i];
    LinearAt(t, k);
    if t[k].SentFull? {
      var e := BatchIsRead(t, i + 1, k);
      assert BatchBetween(t, i, i + 1, e, k);
    }
  }
}

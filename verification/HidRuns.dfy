/** Whole runs of report operations: when the host ends up with the most recent state, and when it does not. */
module HidRuns {
  import opened HidReport

  datatype Op =
    | PutFull(current: Bytes, force: bool)
    | PutDelta(previous: Bytes, current: Bytes)
    | PutFullMask(current: Bytes)
    | Replace(current: Bytes)
    | Consume

  /** What a holder remembers for comparisons, beside the most recent state. */
  datatype Memo = Memo(pending: Bytes, lastSent: Bytes, stored: bool, recent: Host)

  function Base(m: Memo): (r: Host) {
    if |m.pending| > 0 then Known(m.pending) else if m.stored then Known(m.lastSent) else Empty
  }

  function Stashed(m: Memo, current: Bytes): (r: Memo) {
    m.(pending := current, stored := m.stored || |current| > 0, recent := Known(current))
  }

  function Next(m: Memo, op: Op): (r: Memo) {
    match op
    case PutFull(current, force) =>
      if !force && Base(m) == Known(current) then m.(recent := Known(current)) else Stashed(m, current)
    case PutDelta(_, current) => Stashed(m, current)
    case PutFullMask(current) => Stashed(m, current)
    case Replace(current) => Stashed(m, current)
    case Consume => if |m.pending| > 0 then m.(lastSent := m.pending, pending := []) else m
  }

  function After(m: Memo, ops: seq<Op>): (r: Memo) {
    if ops == [] then m else Next(After(m, ops[..|ops| - 1]), ops[|ops| - 1])
  }

  lemma AfterStep(m: Memo, ops: seq<Op>, i: nat)
    requires i < |ops|
    ensures After(m, ops[..i + 1]) == Next(After(m, ops[..i]), ops[i])
  {
    assert ops[..i + 1][..i] == ops[..i];
  }

  /** A caller's duties: states that fit, deltas against the most recent state. */
  predicate Proper(op: Op, width: nat, m: Memo) {
    match op
    case Consume => true
    case PutDelta(previous, current) => |current| == |previous| <= width && m.recent == Known(previous)
    case _ => |op.current| <= width
  }

  ghost predicate ProperRun(ops: seq<Op>, width: nat, m: Memo) {
    forall i | 0 <= i < |ops| :: Proper(ops[i], width, After(m, ops[..i]))
  }

  /** A full report that is dropped as a repetition does repeat the most recent state. */
  predicate Harmless(op: Op, m: Memo) {
    op.PutFull? && !op.force && Base(m) == Known(op.current) ==> m.recent == Known(op.current)
  }

  /** So far. */
  ghost predicate HarmlessTo(ops: seq<Op>, m: Memo, n: nat)
    requires n <= |ops|
  {
    forall i | 0 <= i < n :: Harmless(ops[i], After(m, ops[..i]))
  }

  ghost predicate HarmlessRun(ops: seq<Op>, m: Memo) {
    HarmlessTo(ops, m, |ops|)
  }

  // ---- runs without empty states ----

  predicate Nonempty(op: Op) {
    op.Consume? || |op.current| > 0
  }

  /** Something nonempty is only remembered after something was stored. */
  predicate Formed(m: Memo) {
    |m.pending| > 0 || |m.lastSent| > 0 ==> m.stored
  }

  /** As long as no state is empty, the comparison state is the most recent one. */
  lemma {:induction false} NonemptySynced(ops: seq<Op>, m: Memo)
    requires Formed(m) && Base(m) == m.recent && forall i | 0 <= i < |ops| :: Nonempty(ops[i])
    ensures Formed(After(m, ops)) && Base(After(m, ops)) == After(m, ops).recent
  {
    if ops != [] {
      NonemptySynced(ops[..|ops| - 1], m);
    }
  }

  /** So such runs are always decoded right. */
  lemma NonemptyHarmless(ops: seq<Op>, m: Memo)
    requires Formed(m) && Base(m) == m.recent && forall i | 0 <= i < |ops| :: Nonempty(ops[i])
    ensures HarmlessRun(ops, m)
  {
    forall i | 0 <= i < |ops|
      ensures Harmless(ops[i], After(m, ops[..i]))
    {
      NonemptySynced(ops[..i], m);
    }
  }

  lemma HarmlessStep(ops: seq<Op>, m: Memo, i: nat)
    requires i < |ops|
    ensures HarmlessTo(ops, m, i + 1) <==> HarmlessTo(ops, m, i) && Harmless(ops[i], After(m, ops[..i]))
  {
    hide After, Harmless;
  }

  lemma RunStart(ops: seq<Op>, m: Memo)
    ensures HarmlessTo(ops, m, 0) && After(m, ops[..0]) == m
  {
  }

  // ---- performing a run ----

  ghost function MemoOf(h: Holder): (m: Memo)
    reads h
  {
    Memo(h.pending, h.lastSent, h.capacity > 0, h.recent)
  }

  method Perform(h: Holder, op: Op)
    requires h.Valid() && Proper(op, h.width, MemoOf(h))
    modifies h
    ensures h.Valid() && MemoOf(h) == Next(old(MemoOf(h)), op)
    ensures old(h.Sound()) ==> (h.Sound() <==> Harmless(op, old(MemoOf(h))))
  {
    hide Replay, Message, Inside, Picked, Changed;
    match op
    case PutFull(current, force) => h.AddFull(current, force);
    case PutDelta(previous, current) => h.AddDelta(previous, current);
    case PutFullMask(current) => h.AddForcedFullMaskDelta(current);
    case Replace(current) => h.ReplaceWithFullForced(current);
    case Consume => h.ResetMessage();
  }

  /**
   * A run of any states. If every full report dropped as a repetition repeats the most recent state, decoding all
   * consumed and queued items gives the most recent state; and the first operation that drops another report leaves
   * the host with something else. So the host is right after every operation if and only if the run is harmless.
   */
  method Run(h: Holder, ops: seq<Op>)
    requires h.Valid() && h.Sound() && ProperRun(ops, h.width, MemoOf(h))
    modifies h
    ensures h.Valid() && MemoOf(h) == After(old(MemoOf(h)), ops)
    ensures HarmlessRun(ops, old(MemoOf(h))) ==> h.Sound()
    ensures ops != [] && HarmlessTo(ops, old(MemoOf(h)), |ops| - 1) ==> (h.Sound() <==> HarmlessRun(ops, old(MemoOf(h))))
  {
    hide Next, After, Harmless, HarmlessTo, Proper, Replay, Message, Inside;
    ghost var m := MemoOf(h);
    RunStart(ops, m);
    for i := 0 to |ops|
      invariant h.Valid() && MemoOf(h) == After(m, ops[..i])
      invariant HarmlessTo(ops, m, i) ==> h.Sound()
      invariant i > 0 && HarmlessTo(ops, m, i - 1) ==> (h.Sound() <==> HarmlessTo(ops, m, i))
    {
      AfterStep(m, ops, i);
      HarmlessStep(ops, m, i);
      Perform(h, ops[i]);
    }
    assert ops[..|ops|] == ops;
  }

  /** Empty states break the comparison: the state before an empty one is taken for the most recent. */
  method EmptyStateLosesTheNext(x: Byte, checksum: Bytes -> bv32) returns (h: Holder)
    ensures fresh(h) && h.Valid() && h.recent == Known([x]) && h.Decoded() == Known([]) && !h.Sound()
  {
    hide Replay;
    h := new Holder(1, checksum);
    h.AddFull([x], false);
    h.ResetMessage();
    h.AddFull([], false);
    assert h.Decoded() == Known([]);
    assert h.Baseline() == Known([x]);
    h.AddFull([x], false);
    assert h.Decoded() == Known([]);
  }
}

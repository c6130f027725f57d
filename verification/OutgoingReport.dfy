/** What a receiver's report says about the retained packets. */
module OutgoingReport {
  import opened Words
  import opened Modular
  import opened OutgoingSlots

  /** What a report says: ids to release, and ids reported lost. */
  datatype Verdict = Verdict(gone: set<int>, lost: set<int>)

  const NOTHING := Verdict({}, {})

  function Join(a: Verdict, b: Verdict): (r: Verdict) {
    Verdict(a.gone + b.gone, a.lost + b.lost)
  }

  lemma JoinAssoc(a: Verdict, b: Verdict, c: Verdict)
    ensures Join(a, Join(b, c)) == Join(Join(a, b), c) && Join(NOTHING, a) == a && Join(a, NOTHING) == a
  {
    assert a.gone + (b.gone + c.gone) == (a.gone + b.gone) + c.gone;
    assert a.lost + (b.lost + c.lost) == (a.lost + b.lost) + c.lost;
  }

  /** An acknowledged id is released only if the send cursor has passed it. */
  ghost function BitVerdict(acked: bool, id: U16, cursor: U16): (r: Verdict) {
    if !acked then Verdict({}, {id as int})
    else if Signed16(Wrap16(cursor - id)) > 0 then Verdict({id as int}, {})
    else NOTHING
  }

  /** The verdict of one bitmap byte whose lowest bit stands for start; bits above the top one say nothing. */
  ghost function ByteVerdict(bits: nat, start: int, cursor: U16): (r: Verdict) {
    if bits == 0 then NOTHING
    else Join(BitVerdict(bits % 2 == 1, Wrap16(start), cursor), ByteVerdict(bits / 2, start + 1, cursor))
  }

  ghost function BitmapVerdict(b: seq<U8>, start: int, cursor: U16): (r: Verdict) {
    if b == [] then NOTHING else Join(ByteVerdict(b[0], start, cursor), BitmapVerdict(b[1..], start + 8, cursor))
  }

  /** The content without what is gone; exactly what is lost is marked for another send. */
  ghost predicate Thinned(m: map<int, Packet>, m': map<int, Packet>, v: Verdict, cutoff: U32) {
    && m'.Keys == m.Keys - v.gone
    && forall id | id in m' :: m'[id] == if id in v.lost then Marked(m[id], cutoff) else m[id]
  }

  lemma ThinnedRefl(m: map<int, Packet>, cutoff: U32)
    ensures Thinned(m, m, NOTHING, cutoff)
  {
  }

  lemma MarkedTwice(p: Packet, cutoff: U32)
    ensures Marked(Marked(p, cutoff), cutoff) == Marked(p, cutoff)
  {
  }

  lemma ThinnedTrans(m0: map<int, Packet>, m: map<int, Packet>, m': map<int, Packet>, a: Verdict, b: Verdict, cutoff: U32)
    requires Thinned(m0, m, a, cutoff) && Thinned(m, m', b, cutoff)
    ensures Thinned(m0, m', Join(a, b), cutoff)
  {
    hide Marked;
    forall i | i in m'
      ensures m'[i] == if i in Join(a, b).lost then Marked(m0[i], cutoff) else m0[i]
    {
      assert i in m;
      MarkedTwice(m0[i], cutoff);
    }
  }

  lemma ReleaseVerdict(m: map<int, Packet>, m': map<int, Packet>, id: U16, cursor: U16, cutoff: U32)
    requires m' == (if Signed16(Wrap16(cursor - id)) > 0 && id in m then m - {id} else m)
    ensures Thinned(m, m', BitVerdict(true, id, cursor), cutoff)
  {
    hide Signed16, Wrap16, Marked;
  }

  lemma MarkVerdict(m: map<int, Packet>, m': map<int, Packet>, id: U16, cursor: U16, cutoff: U32)
    requires m'.Keys == m.Keys
    requires forall i | i in m' :: m'[i] == if i == id then Marked(m[i], cutoff) else m[i]
    ensures Thinned(m, m', BitVerdict(false, id, cursor), cutoff)
  {
    hide Marked;
  }

  lemma ByteStart(bits: nat, start: int, cursor: U16)
    ensures ByteVerdict(bits, start, cursor) == Join(NOTHING, ByteVerdict(bits, start + 0, cursor))
  {
    hide *;
    assert start + 0 == start;
    JoinAssoc(ByteVerdict(bits, start, cursor), NOTHING, NOTHING);
  }

  lemma ByteStep(bits: nat, start: int, cursor: U16, done: Verdict)
    requires bits != 0
    ensures Join(done, ByteVerdict(bits, start, cursor))
         == Join(Join(done, BitVerdict(bits % 2 == 1, Wrap16(start), cursor)), ByteVerdict(bits / 2, start + 1, cursor))
  {
    hide Signed16, Wrap16, Join, BitVerdict;
    JoinAssoc(done, BitVerdict(bits % 2 == 1, Wrap16(start), cursor), ByteVerdict(bits / 2, start + 1, cursor));
  }

  lemma ByteDone(start: int, cursor: U16, done: Verdict)
    ensures Join(done, ByteVerdict(0, start, cursor)) == done
  {
    JoinAssoc(done, NOTHING, NOTHING);
  }

  lemma BitmapStart(b: seq<U8>, start: int, cursor: U16)
    ensures BitmapVerdict(b, start, cursor) == Join(NOTHING, BitmapVerdict(b[0..], start + 0 * 8, cursor))
  {
    hide *;
    assert b[0..] == b;
    JoinAssoc(BitmapVerdict(b, start, cursor), NOTHING, NOTHING);
  }

  lemma BitmapStep(b: seq<U8>, j: nat, base: int, cursor: U16, done: Verdict)
    requires j < |b|
    ensures Join(done, BitmapVerdict(b[j..], base + j * 8, cursor))
         == Join(Join(done, ByteVerdict(b[j], base + j * 8, cursor)), BitmapVerdict(b[j + 1..], base + (j + 1) * 8, cursor))
  {
    hide ByteVerdict, Join;
    assert b[j..][1..] == b[j + 1..] && b[j..][0] == b[j];
    assert base + j * 8 + 8 == base + (j + 1) * 8;
    JoinAssoc(done, ByteVerdict(b[j], base + j * 8, cursor), BitmapVerdict(b[j + 1..], base + (j + 1) * 8, cursor));
  }

  lemma BitmapDone(b: seq<U8>, start: int, cursor: U16, done: Verdict)
    ensures Join(done, BitmapVerdict(b[|b|..], start, cursor)) == done
  {
    JoinAssoc(done, NOTHING, NOTHING);
  }

  /** The first n ids of the window. */
  ghost function Early(head: U16, n: nat): (r: set<int>) {
    if n == 0 then {} else Early(head, n - 1) + {Wrap16(head + n - 1) as int}
  }

  /** How many ids from the head the base of a report passes over; nothing when it is the smaller number. */
  function EarlyCount(base: U16, head: U16, tail: U16): (n: nat) {
    if base <= head then 0 else if base - head > Span(head, tail) then Span(head, tail) else base - head
  }

  /** How many ids lie before the base in the circular order that the rest of the window uses. */
  function CircularCount(base: U16, head: U16, tail: U16): (n: nat) {
    var ahead := Wrap16(base - head);
    if Signed16(ahead) <= 0 then 0 else if ahead > Span(head, tail) then Span(head, tail) else ahead
  }

  /** The plain difference is right if and only if it does not leave half the range, or nothing is retained. */
  lemma EarlyExactIff(base: U16, head: U16, tail: U16)
    ensures EarlyCount(base, head, tail) == CircularCount(base, head, tail)
       <==> head == tail || -0x8000 <= base - head < 0x8000
  {
    var d := base - head;
    assert Wrap16(d) == if d < 0 then d + U16_SIZE else d;
    SpanZero(head, tail);
  }

  lemma SpanZero(head: U16, tail: U16)
    ensures Span(head, tail) == 0 <==> head == tail
  {
  }

  lemma EarlyBound(base: U16, head: U16, tail: U16)
    ensures var count, span := base as int - head as int, Span(head, tail);
            EarlyCount(base, head, tail) == if count <= 0 then 0 else if count > span then span else count
  {
  }

  lemma EarlyNone(head: U16)
    ensures Verdict({}, Early(head, 0)) == NOTHING
  {
  }

  lemma EarlyStep(head: U16, i: nat, cursor: U16)
    ensures Join(Verdict({}, Early(head, i)), BitVerdict(false, Wrap16(head + i), cursor)) == Verdict({}, Early(head, i + 1))
  {
    hide Wrap16;
  }

  /** The time before which a send counts as lost: the aged present, or the echoed time if that is later. */
  function Cutoff(body: seq<U8>, now: U32, age: U32): (r: U32) {
    var aged := Wrap32(now - age);
    if |body| < 6 then aged
    else
      var echo := Read16(body, 0) + 65536 * Read16(body, 2);
      if Signed32(Wrap32(aged - echo)) < 0 then echo else aged
  }

  /** A report is acted on unless it is older than the last one or truncated. */
  predicate Heeded(last: U32, stamp: U32, body: seq<U8>) {
    !Older(last, stamp) && !(0 < |body| < 6)
  }

  predicate Older(last: U32, stamp: U32) {
    last != 0 && Signed32(Wrap32(stamp - last)) < 0
  }

  /** How many ids from the head a confirmed id retires: up to it when it is ahead, never past the tail. */
  function Confirmed(head: U16, tail: U16, confirmed: U16): (n: nat) {
    var count := Signed16(Wrap16(confirmed - head + 1));
    if count <= 0 then 0 else if count > Span(head, tail) then Span(head, tail) else count
  }

  /** On unwrapped clocks: a report counts unless it was sent before the last one or is cut off. */
  lemma HeededExact(last: int, stamp: int, body: seq<U8>)
    requires -HALF_RANGE <= stamp - last < HALF_RANGE
    ensures Heeded(Wrap32(last), Wrap32(stamp), body) <==>
              (Wrap32(last) == 0 || stamp >= last) && (|body| == 0 || |body| >= 6)
    ensures Older(Wrap32(last), Wrap32(stamp)) <==> Wrap32(last) != 0 && stamp < last
  {
    hide Wrap32, Signed32;
    WrapDifference(stamp, last);
    SignedExact(stamp - last);
  }

  /** On unwrapped clocks: the cutoff is the later of the aged present and the echoed time. */
  lemma CutoffExact(body: seq<U8>, now: int, age: U32, echo: int)
    requires |body| >= 6 && Read16(body, 0) + 65536 * Read16(body, 2) == Wrap32(echo)
    requires -HALF_RANGE <= now - age - echo < HALF_RANGE
    ensures Cutoff(body, Wrap32(now), age) == Wrap32(if now - age >= echo then now - age else echo)
  {
    hide Wrap32, Signed32, Read16;
    var back: int := age;
    WrapDifference(now, -back);
    WrapDifference(now - age, echo);
    SignedExact(now - age - echo);
  }

  /** On unwrapped ids: of the window from `head`, exactly the ids up to the confirmed one are retired. */
  lemma ConfirmedRetires(head: int, tail: U16, confirmed: int, id: int)
    requires -0x8000 <= confirmed - head + 1 < 0x8000 && head <= id < head + Span(Wrap16(head), tail)
    ensures Wrap16(Wrap16(id) - Wrap16(head)) < Confirmed(Wrap16(head), tail, Wrap16(confirmed)) <==> id <= confirmed
  {
    WordDistance(id, head, 0);
    WordDistance(confirmed, head, 1);
  }

  lemma ConfirmedBound(head: U16, tail: U16, confirmed: U16)
    ensures Confirmed(head, tail, confirmed) <= Span(head, tail)
  {
  }

  /** The first retained id, in the order of the window, or its end. */
  ghost predicate FirstRetained(live: map<int, Packet>, start: U16, head: U16, tail: U16) {
    if live == map[] then head == tail
    else head in live && forall id | id in live :: Wrap16(head - start) <= Wrap16(id - start)
  }

  lemma SpanBound(head: U16, tail: U16)
    ensures Span(head, tail) < U16_SIZE
  {
  }

  lemma Offsets(start: U16, head: U16, id: U16)
    ensures Wrap16(head - start) + Wrap16(id - head) < U16_SIZE ==>
              Wrap16(id - start) == Wrap16(head - start) + Wrap16(id - head)
  {
    var a, b := head - start, id - head;
    assert Wrap16(a) == if a < 0 then a + U16_SIZE else a;
    assert Wrap16(b) == if b < 0 then b + U16_SIZE else b;
    assert Wrap16(a + b) == if a + b < 0 then a + b + U16_SIZE else a + b;
  }

  lemma Farther(start: U16, head: U16, tail: U16, id: U16)
    requires Wrap16(head - start) + Span(head, tail) <= Span(start, tail) && InWindow(head, tail, id)
    ensures Wrap16(head - start) <= Wrap16(id - start)
  {
    hide Wrap16;
    Offsets(start, head, id);
    SpanBound(start, tail);
    SpanBound(head, tail);
  }
}

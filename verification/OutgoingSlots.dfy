/** The slots of the outgoing window as an index from 16-bit packet ids to retained packets. */
module OutgoingSlots {
  import opened Words
  import opened Wrappers
  import opened Modular

  /** A retained packet; serial identifies the allocation that holds it. */
  datatype Packet = Packet(serial: nat, id: U16, retransmitCount: U8, sendTimestamp: U32)

  const MAX_SPAN := 32768

  predicate PowerOfTwo(cap: nat) {
    cap in [64, 128, 256, 512, 1024, 2048, 4096, 8192, 16384, 32768]
  }

  lemma CapacityDivides(cap: nat)
    requires PowerOfTwo(cap)
    ensures Divides(cap, U16_SIZE)
  {
    assert cap * (U16_SIZE / cap) == U16_SIZE;
  }

  function Span(head: U16, tail: U16): (r: U16) { Wrap16(tail - head) }

  /** The id lies in [head, tail), going around the 16-bit circle. */
  predicate InWindow(head: U16, tail: U16, id: U16) {
    Wrap16(id - head) < Span(head, tail)
  }

  /** The slot array as an index: the span fits, and everything outside the window is empty. */
  ghost predicate Indexed(slots: seq<Option<Packet>>, created: seq<U32>, head: U16, tail: U16) {
    && |slots| == |created|
    && (|slots| == 0 ==> head == tail)
    && (|slots| > 0 ==> PowerOfTwo(|slots|) && Span(head, tail) <= |slots|)
    && (forall d | Span(head, tail) <= d < |slots| :: EmptyAt(slots, created, head, d))
  }

  ghost predicate EmptyAt(slots: seq<Option<Packet>>, created: seq<U32>, head: U16, d: nat)
    requires |slots| == |created| > 0
  {
    slots[(head + d) % |slots|] == None && created[(head + d) % |slots|] == 0
  }

  /** The retained packets by id. */
  ghost function Live(slots: seq<Option<Packet>>, head: U16, tail: U16): (m: map<int, Packet>) {
    map id: int | 0 <= id < U16_SIZE && InWindow(head, tail, id) && |slots| > 0 && slots[id % |slots|].Some?
      :: slots[id % |slots|].value
  }

  /** A window id and its offset from the head use the same slot. */
  lemma SlotOfId(cap: nat, head: U16, id: U16)
    requires PowerOfTwo(cap)
    ensures id % cap == (head + Wrap16(id - head)) % cap
  {
    CapacityDivides(cap);
    WrapSlot(head + Wrap16(id - head), cap);
  }

  /** Different ids of the window, or an id and an offset outside it, never share a slot. */
  lemma SlotsApart(cap: nat, head: U16, id: U16, d: nat)
    requires PowerOfTwo(cap) && Wrap16(id - head) < cap && d < cap && d != Wrap16(id - head)
    ensures id % cap != (head + d) % cap
  {
    SlotOfId(cap, head, id);
    var e := Wrap16(id - head);
    if d < e {
      SlotInjective(head, d, e, cap);
    } else {
      SlotInjective(head, e, d, cap);
    }
  }

  lemma IdsApart(cap: nat, head: U16, id: U16, id': U16)
    requires PowerOfTwo(cap) && Wrap16(id - head) < cap && Wrap16(id' - head) < cap && id != id'
    ensures id % cap != id' % cap
  {
    SlotOfId(cap, head, id');
    SlotsApart(cap, head, id, Wrap16(id' - head));
  }

  /** No slot outside the window is occupied. */
  lemma OccupiedInWindow(slots: seq<Option<Packet>>, created: seq<U32>, head: U16, tail: U16, k: nat)
    requires Indexed(slots, created, head, tail) && k < |slots| && slots[k].Some?
    ensures exists id: U16 :: InWindow(head, tail, id) && id % |slots| == k
  {
    var d := SlotOffset(head, k, |slots|);
    CapacityDivides(|slots|);
    WrapSlot(head + d, |slots|);
    assert !EmptyAt(slots, created, head, d);
    var id: U16 := Wrap16(head + d);
    assert InWindow(head, tail, id);
  }

  lemma ReleaseIndexed(slots: seq<Option<Packet>>, created: seq<U32>, head: U16, tail: U16, k: nat)
    requires Indexed(slots, created, head, tail) && k < |slots|
    ensures Indexed(slots[k := None], created, head, tail)
  {
    hide PowerOfTwo, Wrap16;
    var slots' := slots[k := None];
    forall d | Span(head, tail) <= d < |slots|
      ensures EmptyAt(slots', created, head, d)
    {
      assert EmptyAt(slots, created, head, d);
    }
  }

  lemma ReleaseLive(slots: seq<Option<Packet>>, head: U16, tail: U16, id: U16)
    requires PowerOfTwo(|slots|) && Span(head, tail) <= |slots| && InWindow(head, tail, id)
    ensures Live(slots[id % |slots| := None], head, tail) == Live(slots, head, tail) - {id}
  {
    hide PowerOfTwo, Wrap16;
    var cap := |slots|;
    var slots' := slots[id % cap := None];
    forall id': U16 | InWindow(head, tail, id') && id' != id
      ensures slots'[id' % cap] == slots[id' % cap]
    {
      IdsApart(cap, head, id, id');
    }
  }

  lemma NextSpan(head: U16, tail: U16, id: U16)
    requires head != tail
    ensures Span(Wrap16(head + 1), tail) == Span(head, tail) - 1
    ensures InWindow(Wrap16(head + 1), tail, id) <==> InWindow(head, tail, id) && id != head
  {
    OneLess(head, tail);
    OneLess(head, id);
  }

  /** Distances around the circle, seen from one id further on. */
  lemma OneLess(head: U16, x: U16)
    ensures Wrap16(x - Wrap16(head + 1)) == if x == head then U16_SIZE - 1 else Wrap16(x - head) - 1
    ensures x == head <==> Wrap16(x - head) == 0
  {
    var d := x - head;
    assert Wrap16(d) == if d < 0 then d + U16_SIZE else d;
    assert Wrap16(head + 1) == if head + 1 == U16_SIZE then 0 else head + 1;
  }

  /** Offset d from the advanced head is offset d + 1 from the old one; the last wraps to the old head. */
  lemma NextOffset(cap: nat, head: U16, d: nat)
    requires PowerOfTwo(cap) && d < cap
    ensures (Wrap16(head + 1) + d) % cap == (head + d + 1) % cap
    ensures d == cap - 1 ==> (head + d + 1) % cap == head % cap
  {
    CapacityDivides(cap);
    var h := Wrap16(head + 1);
    if h != head + 1 {
      var q: int :| cap * q == U16_SIZE;
      ModAdd(h + d, q, cap);
    }
    ModAdd(head, 1, cap);
  }

  lemma AdvanceIndexed(slots: seq<Option<Packet>>, created: seq<U32>, head: U16, tail: U16)
    requires Indexed(slots, created, head, tail) && head != tail
    ensures Indexed(slots[head % |slots| := None], created[head % |slots| := 0], Wrap16(head + 1), tail)
  {
    hide PowerOfTwo, Wrap16;
    var cap, head' := |slots|, Wrap16(head + 1);
    var slots', created' := slots[head % cap := None], created[head % cap := 0];
    NextSpan(head, tail, head);
    forall d | Span(head', tail) <= d < cap
      ensures EmptyAt(slots', created', head', d)
    {
      NextOffset(cap, head, d);
      if d < cap - 1 {
        assert EmptyAt(slots, created, head, d + 1);
      }
    }
  }

  lemma AdvanceLive(slots: seq<Option<Packet>>, head: U16, tail: U16)
    requires PowerOfTwo(|slots|) && Span(head, tail) <= |slots| && head != tail
    ensures Live(slots[head % |slots| := None], Wrap16(head + 1), tail) == Live(slots, head, tail) - {head}
  {
    hide PowerOfTwo, Wrap16, InWindow;
    forall id: U16 ensures InWindow(Wrap16(head + 1), tail, id) <==> InWindow(head, tail, id) && id != head {
      NextSpan(head, tail, id);
    }
    HeadInWindow(head, tail);
    ReleaseLive(slots, head, tail, head);
  }

  lemma HeadInWindow(head: U16, tail: U16)
    requires head != tail
    ensures InWindow(head, tail, head)
  {
  }

  function TailAfter(head: U16, tail: U16, id: U16): (r: U16) {
    if Span(head, tail) <= Wrap16(id - head) then Wrap16(id + 1) else tail
  }

  lemma GrownSpan(head: U16, tail: U16, id: U16, id': U16)
    requires Wrap16(id - head) < MAX_SPAN
    ensures Span(head, TailAfter(head, tail, id))
         == if Span(head, tail) <= Wrap16(id - head) then Wrap16(id - head) + 1 else Span(head, tail)
    ensures InWindow(head, TailAfter(head, tail, id), id)
    ensures InWindow(head, tail, id') ==> InWindow(head, TailAfter(head, tail, id), id')
  {
  }

  lemma StoreIndexed(slots: seq<Option<Packet>>, created: seq<U32>, head: U16, tail: U16, id: U16, p: Packet, time: U32)
    requires Indexed(slots, created, head, tail) && Wrap16(id - head) < |slots|
    ensures Indexed(slots[id % |slots| := Some(p)], created[id % |slots| := time], head, TailAfter(head, tail, id))
  {
    hide Wrap16;
    var cap, e := |slots|, Wrap16(id - head);
    var slots', created' := slots[id % cap := Some(p)], created[id % cap := time];
    GrownSpan(head, tail, id, id);
    hide PowerOfTwo;
    forall d | Span(head, TailAfter(head, tail, id)) <= d < cap
      ensures EmptyAt(slots', created', head, d)
    {
      assert EmptyAt(slots, created, head, d);
      SlotsApart(cap, head, id, d);
    }
  }

  lemma StoreLive(slots: seq<Option<Packet>>, created: seq<U32>, head: U16, tail: U16, id: U16, p: Packet)
    requires Indexed(slots, created, head, tail) && Wrap16(id - head) < |slots| && slots[id % |slots|] == None
    ensures id !in Live(slots, head, tail)
    ensures Live(slots[id % |slots| := Some(p)], head, TailAfter(head, tail, id)) == Live(slots, head, tail)[id := p]
  {
    var cap, tail' := |slots|, TailAfter(head, tail, id);
    var slots' := slots[id % cap := Some(p)];
    GrownSpan(head, tail, id, id);
    hide PowerOfTwo, Wrap16;
    forall id': U16 | id' != id
      ensures InWindow(head, tail', id') && slots'[id' % cap].Some? <==> InWindow(head, tail, id') && slots[id' % cap].Some?
      ensures InWindow(head, tail', id') ==> slots'[id' % cap] == slots[id' % cap]
    {
      StoreOther(slots, created, head, tail, id, id');
    }
  }

  lemma StoreOther(slots: seq<Option<Packet>>, created: seq<U32>, head: U16, tail: U16, id: U16, id': U16)
    requires Indexed(slots, created, head, tail) && Wrap16(id - head) < |slots| && id != id'
    ensures InWindow(head, tail, id') ==> InWindow(head, TailAfter(head, tail, id), id')
    ensures InWindow(head, TailAfter(head, tail, id), id') ==> id' % |slots| != id % |slots|
    ensures InWindow(head, TailAfter(head, tail, id), id') && !InWindow(head, tail, id') ==> slots[id' % |slots|] == None
  {
    GrownSpan(head, tail, id, id');
    hide PowerOfTwo, Wrap16;
    if InWindow(head, TailAfter(head, tail, id), id') {
      IdsApart(|slots|, head, id, id');
      SlotOfId(|slots|, head, id');
      if !InWindow(head, tail, id') {
        assert EmptyAt(slots, created, head, Wrap16(id' - head));
      }
    }
  }

  /** The entries copied into the larger arrays so far: offsets below n, and nothing else. */
  ghost predicate Copied(slots: seq<Option<Packet>>, created: seq<U32>, slots': seq<Option<Packet>>, created': seq<U32>,
                         head: U16, n: nat)
    requires |slots| == |created| && |slots'| == |created'| && |slots'| > 0 && (n > 0 ==> |slots| > 0)
  {
    && (forall d | 0 <= d < n :: CopiedAt(slots, created, slots', created', head, d))
    && (forall d | n <= d < |slots'| :: EmptyAt(slots', created', head, d))
  }

  ghost predicate CopiedAt(slots: seq<Option<Packet>>, created: seq<U32>, slots': seq<Option<Packet>>, created': seq<U32>,
                           head: U16, d: nat)
    requires |slots| == |created| > 0 && |slots'| == |created'| > 0
  {
    && slots'[(head + d) % |slots'|] == slots[(head + d) % |slots|]
    && created'[(head + d) % |slots'|] == created[(head + d) % |slots|]
  }

  lemma CopyStep(slots: seq<Option<Packet>>, created: seq<U32>, slots': seq<Option<Packet>>, created': seq<U32>,
                 head: U16, n: nat)
    requires |slots| == |created| > 0 && |slots'| == |created'| > 0 && n < |slots'|
    requires Copied(slots, created, slots', created', head, n)
    ensures var k, k' := (head + n) % |slots|, (head + n) % |slots'|;
            Copied(slots, created, slots'[k' := slots[k]], created'[k' := created[k]], head, n + 1)
  {
    var k, k', cap' := (head + n) % |slots|, (head + n) % |slots'|, |slots'|;
    var s, c := slots'[k' := slots[k]], created'[k' := created[k]];
    forall d | 0 <= d < n
      ensures CopiedAt(slots, created, s, c, head, d)
    {
      assert CopiedAt(slots, created, slots', created', head, d);
      SlotInjective(head, d, n, cap');
    }
    forall d | n + 1 <= d < cap'
      ensures EmptyAt(s, c, head, d)
    {
      assert EmptyAt(slots', created', head, d);
      SlotInjective(head, n, d, cap');
    }
  }

  lemma CopyIndexed(slots: seq<Option<Packet>>, created: seq<U32>, slots': seq<Option<Packet>>, created': seq<U32>,
                    head: U16, tail: U16)
    requires |slots| == |created| && (head != tail ==> |slots| > 0)
    requires |slots'| == |created'| && PowerOfTwo(|slots'|) && Span(head, tail) <= |slots'|
    requires Copied(slots, created, slots', created', head, Span(head, tail))
    ensures Indexed(slots', created', head, tail)
  {
    hide PowerOfTwo, CopiedAt;
  }

  lemma CopyLive(slots: seq<Option<Packet>>, created: seq<U32>, slots': seq<Option<Packet>>, created': seq<U32>,
                 head: U16, tail: U16)
    requires Indexed(slots, created, head, tail) && |slots'| == |created'| && PowerOfTwo(|slots'|)
    requires Span(head, tail) <= |slots'|
    requires Copied(slots, created, slots', created', head, Span(head, tail))
    ensures Live(slots', head, tail) == Live(slots, head, tail)
  {
    hide PowerOfTwo, Wrap16, EmptyAt;
    forall id: U16 | InWindow(head, tail, id)
      ensures |slots| > 0 && slots'[id % |slots'|] == slots[id % |slots|]
    {
      WindowNonempty(head, tail, id);
      SlotOfId(|slots|, head, id);
      SlotOfId(|slots'|, head, id);
      assert CopiedAt(slots, created, slots', created', head, Wrap16(id - head));
    }
  }

  /** When each retained packet was created. */
  ghost function Times(created: seq<U32>, live: map<int, Packet>): (m: map<int, U32>) {
    map id: int | id in live && |created| > 0 :: created[id % |created|]
  }

  lemma CopyTimes(slots: seq<Option<Packet>>, created: seq<U32>, slots': seq<Option<Packet>>, created': seq<U32>,
                  head: U16, tail: U16)
    requires Indexed(slots, created, head, tail) && |slots'| == |created'| && PowerOfTwo(|slots'|)
    requires Span(head, tail) <= |slots'|
    requires Copied(slots, created, slots', created', head, Span(head, tail))
    ensures Times(created', Live(slots, head, tail)) == Times(created, Live(slots, head, tail))
  {
    hide PowerOfTwo, Wrap16, EmptyAt;
    forall id: U16 | InWindow(head, tail, id)
      ensures |slots| > 0 && created'[id % |slots'|] == created[id % |slots|]
    {
      WindowNonempty(head, tail, id);
      SlotOfId(|slots|, head, id);
      SlotOfId(|slots'|, head, id);
      assert CopiedAt(slots, created, slots', created', head, Wrap16(id - head));
    }
  }

  lemma StoreTimes(slots: seq<Option<Packet>>, created: seq<U32>, head: U16, tail: U16, id: U16, p: Packet, time: U32)
    requires Indexed(slots, created, head, tail) && Wrap16(id - head) < |slots| && slots[id % |slots|] == None
    ensures Times(created[id % |slots| := time], Live(slots, head, tail)[id := p])
         == Times(created, Live(slots, head, tail))[id := time]
  {
    hide PowerOfTwo, Wrap16;
    forall id': U16 | InWindow(head, tail, id') && id' != id
      ensures id' % |slots| != id % |slots|
    {
      StoreOther(slots, created, head, tail, id, id');
    }
  }

  lemma AdvanceTimes(slots: seq<Option<Packet>>, created: seq<U32>, head: U16, tail: U16)
    requires Indexed(slots, created, head, tail) && head != tail
    ensures |slots| > 0 && Times(created[head % |slots| := 0], Live(slots, head, tail) - {head})
                           == Times(created, Live(slots, head, tail)) - {head}
  {
    hide PowerOfTwo, Wrap16;
    HeadInWindow(head, tail);
    WindowSlots(slots, created, head, tail, head);
    forall id: U16 | InWindow(head, tail, id) && id != head
      ensures id % |slots| != head % |slots|
    {
      WindowSlots(slots, created, head, tail, id);
      IdsApart(|slots|, head, head, id);
    }
  }

  lemma WindowNonempty(head: U16, tail: U16, id: U16)
    requires InWindow(head, tail, id)
    ensures head != tail
  {
  }

  // ---- who owns which packet ----

  /** Every packet ever retained is either live under exactly one id or freed, never both. */
  ghost predicate Accounted(live: map<int, Packet>, issued: nat, freed: set<nat>) {
    && (forall id | id in live :: live[id].serial < issued && live[id].serial !in freed)
    && (forall id, id' | id in live && id' in live && id != id' :: live[id].serial != live[id'].serial)
    && (forall n: nat | n < issued :: n in freed || LiveSerial(live, n))
    && (forall n | n in freed :: n < issued)
  }

  ghost predicate LiveSerial(live: map<int, Packet>, n: nat) {
    exists id :: id in live && live[id].serial == n
  }

  lemma AccountFree(live: map<int, Packet>, issued: nat, freed: set<nat>, id: int)
    requires Accounted(live, issued, freed) && id in live
    ensures Accounted(live - {id}, issued, freed + {live[id].serial})
  {
    var live' := live - {id};
    forall n: nat | n < issued && n != live[id].serial && n !in freed
      ensures LiveSerial(live', n)
    {
      assert LiveSerial(live, n);
      var k :| k in live && live[k].serial == n;
      assert k in live' && live'[k].serial == n;
    }
  }

  lemma AccountRetain(live: map<int, Packet>, issued: nat, freed: set<nat>, id: int, p: Packet)
    requires Accounted(live, issued, freed) && id !in live && p.serial == issued
    ensures Accounted(live[id := p], issued + 1, freed)
  {
    var live' := live[id := p];
    assert live'[id].serial == issued;
    forall n: nat | n < issued && n !in freed
      ensures LiveSerial(live', n)
    {
      assert LiveSerial(live, n);
      var k :| k in live && live[k].serial == n;
      assert k in live' && live'[k].serial == n;
    }
  }

  /** When nothing is live any more, every retained packet has been freed. */
  lemma AccountEmpty(issued: nat, freed: set<nat>)
    requires Accounted(map[], issued, freed)
    ensures forall n: nat :: n < issued <==> n in freed
  {
    forall n: nat | n < issued ensures n in freed {
      assert !LiveSerial(map[], n);
    }
  }

  lemma WrapNext(h: U16, i: nat)
    ensures Wrap16(h + 0) == h && Wrap16(h - h) == 0 && Wrap16(Wrap16(h + i) + 1) == Wrap16(h + (i + 1))
    ensures forall x: U16 :: Span(x, x) == 0
  {
  }

  /** What is left of the window content after the first n ids from head are gone. */
  ghost function Kept(live: map<int, Packet>, head: U16, n: nat): (m: map<int, Packet>) {
    map id | id in live && Wrap16(id - head) >= n :: live[id]
  }

  predicate Expired(born: U32, keep: nat, now: U32) {
    Signed32(Wrap32(born + keep - now)) < 0
  }

  /** On unwrapped clocks: a packet has expired exactly when it is older than keep. */
  lemma ExpiredExact(born: nat, keep: nat, now: nat)
    requires born <= now < born + HALF_RANGE && keep < HALF_RANGE
    ensures Expired(Wrap32(born), keep, Wrap32(now)) <==> now - born > keep
  {
    hide Wrap32, Signed32;
    WrapDifference(born, keep);
    WrapDifference(born + keep, now);
    WrapDifference(Wrap32(born) + keep, Wrap32(now));
    WrapTwice(now);
    SignedExact(born + keep - now);
  }

  lemma WrapTwice(x: int)
    ensures Wrap32(Wrap32(x)) == Wrap32(x)
  {
  }

  /** The unwrapped creation times, at an unwrapped time less than half the clock range later. */
  ghost predicate Dated(births: map<int, U32>, times: map<int, nat>, clock: nat) {
    forall id | id in births ::
      id in times && births[id] == Wrap32(times[id]) && times[id] <= clock < times[id] + HALF_RANGE
  }

  /** Every packet before offset n is older than keep. */
  ghost predicate OldBefore(births: map<int, U32>, times: map<int, nat>, head: U16, n: nat, keep: nat, clock: nat) {
    forall id | id in births && id in times && Wrap16(id - head) < n :: clock - times[id] > keep
  }

  lemma ExpiredAreOld(births: map<int, U32>, times: map<int, nat>, head: U16, n: nat, keep: nat, clock: nat)
    requires Dated(births, times, clock) && keep < HALF_RANGE && EarlierExpired(births, head, n, keep, Wrap32(clock))
    ensures OldBefore(births, times, head, n, keep, clock)
  {
    hide Expired, Wrap32, Wrap16;
    forall id | id in births && id in times && Wrap16(id - head) < n
      ensures clock - times[id] > keep
    {
      ExpiredExact(times[id], keep, clock);
    }
  }

  lemma FreshIsYoung(births: map<int, U32>, times: map<int, nat>, id: int, keep: nat, clock: nat)
    requires Dated(births, times, clock) && keep < HALF_RANGE && id in births && !Expired(births[id], keep, Wrap32(clock))
    ensures id in times && clock - times[id] <= keep
  {
    hide Expired, Wrap32;
    ExpiredExact(times[id], keep, clock);
  }

  /** The creation times of ids from offset n on, and the claim that all earlier ones have expired. */
  ghost function Later(births: map<int, U32>, head: U16, n: nat): (m: map<int, U32>) {
    map id | id in births && Wrap16(id - head) >= n :: births[id]
  }

  ghost predicate EarlierExpired(births: map<int, U32>, head: U16, n: nat, keep: nat, now: U32) {
    forall id | id in births && Wrap16(id - head) < n :: Expired(births[id], keep, now)
  }

  lemma LaterSame(births: map<int, U32>, head: U16, n: nat, id: int)
    requires id in births && Wrap16(id - head) >= n
    ensures id in Later(births, head, n) && Later(births, head, n)[id] == births[id]
  {
  }

  lemma LaterNone(births: map<int, U32>, head: U16, keep: nat, now: U32)
    ensures Later(births, head, 0) == births && EarlierExpired(births, head, 0, keep, now)
  {
  }

  lemma LaterStep(births: map<int, U32>, head: U16, n: nat, keep: nat, now: U32)
    requires n < U16_SIZE && (forall id | id in births :: 0 <= id < U16_SIZE) && EarlierExpired(births, head, n, keep, now)
    requires Wrap16(head + n) in Later(births, head, n) ==> Expired(Later(births, head, n)[Wrap16(head + n)], keep, now)
    ensures Later(births, head, n + 1) == Later(births, head, n) - {Wrap16(head + n)}
    ensures EarlierExpired(births, head, n + 1, keep, now)
  {
    hide Wrap16, Expired;
    forall id | id in births
      ensures Wrap16(id - head) == n <==> id == Wrap16(head + n)
    {
      OffsetOf(id, head, n);
    }
  }

  lemma KeptNone(live: map<int, Packet>, head: U16)
    ensures Kept(live, head, 0) == live
  {
  }

  lemma KeptStep(live: map<int, Packet>, head: U16, n: nat)
    requires n < U16_SIZE && forall id | id in live :: 0 <= id < U16_SIZE
    ensures Kept(live, head, n + 1) == Kept(live, head, n) - {Wrap16(head + n)}
  {
    hide Wrap16;
    forall id | id in live
      ensures Wrap16(id - head) == n <==> id == Wrap16(head + n)
    {
      OffsetOf(id, head, n);
    }
  }

  lemma OffsetOf(id: U16, head: U16, n: nat)
    requires n < U16_SIZE
    ensures Wrap16(id - head) == n <==> id == Wrap16(head + n)
  {
  }

  lemma WindowSlots(slots: seq<Option<Packet>>, created: seq<U32>, head: U16, tail: U16, id: U16)
    requires Indexed(slots, created, head, tail) && InWindow(head, tail, id)
    ensures |slots| == |created| > 0 && PowerOfTwo(|slots|) && Span(head, tail) <= |slots|
    ensures Wrap16(id - head) < |slots|
  {
    hide PowerOfTwo;
    WindowNonempty(head, tail, id);
  }

  lemma LiveAt(slots: seq<Option<Packet>>, head: U16, tail: U16, id: U16)
    requires |slots| > 0 && InWindow(head, tail, id)
    ensures id in Live(slots, head, tail) <==> slots[id % |slots|].Some?
    ensures id in Live(slots, head, tail) ==> Live(slots, head, tail)[id] == slots[id % |slots|].value
  {
  }

  lemma CopyStart(slots: seq<Option<Packet>>, created: seq<U32>, slots': seq<Option<Packet>>, created': seq<U32>, head: U16)
    requires |slots| == |created| && |slots'| == |created'| > 0
    requires (forall k | 0 <= k < |slots'| :: slots'[k] == None) && (forall k | 0 <= k < |slots'| :: created'[k] == 0)
    ensures Copied(slots, created, slots', created', head, 0)
  {
  }

  lemma OffsetSlots(size: nat, cap: nat, head: U16, d: nat)
    requires PowerOfTwo(size) && PowerOfTwo(cap)
    ensures Wrap16(head + d) % size == (head + d) % size && Wrap16(head + d) % cap == (head + d) % cap
  {
    CapacityDivides(size);
    CapacityDivides(cap);
    WrapSlot(head + d, size);
    WrapSlot(head + d, cap);
  }

  lemma StartWindow(slots: seq<Option<Packet>>, created: seq<U32>, head: U16, id: U16)
    requires Indexed(slots, created, head, head)
    ensures Indexed(slots, created, id, id) && Live(slots, id, id) == Live(slots, head, head)
  {
    hide PowerOfTwo;
    assert Span(id, id) == 0 && Span(head, head) == 0;
    forall d | 0 <= d < |slots|
      ensures EmptyAt(slots, created, id, d)
    {
      var e := SlotOffset(head, (id + d) % |slots|, |slots|);
      assert EmptyAt(slots, created, head, e);
    }
  }

  lemma OccupiedSlot(slots: seq<Option<Packet>>, created: seq<U32>, head: U16, tail: U16, id: U16)
    requires Indexed(slots, created, head, tail) && Wrap16(id - head) < |slots| && slots[id % |slots|].Some?
    ensures id in Live(slots, head, tail)
  {
    hide PowerOfTwo, Wrap16;
    SlotOfId(|slots|, head, id);
    assert !EmptyAt(slots, created, head, Wrap16(id - head));
  }

  lemma ExpireStep(h: U16, head: U16, tail: U16, n: nat, span: nat)
    requires head != tail && n == Wrap16(head - h) && span <= U16_SIZE - 1 && Span(head, tail) == span - n
    ensures n + 1 <= span && Wrap16(h + n) == head && n + 1 == Wrap16(Wrap16(head + 1) - h)
  {
  }

  /** The packet after a report that it is missing. */
  function Marked(p: Packet, cutoff: U32): (r: Packet) {
    if p.retransmitCount != 0 && p.sendTimestamp != 0 && Signed32(Wrap32(cutoff - p.sendTimestamp)) >= 0
    then p.(sendTimestamp := 0) else p
  }

  /** On unwrapped clocks: a packet sent by the cutoff becomes due again, any other stays. */
  lemma MarkedExact(p: Packet, sent: int, cutoff: int)
    requires p.sendTimestamp == Wrap32(sent) && -HALF_RANGE <= cutoff - sent < HALF_RANGE
    ensures Marked(p, Wrap32(cutoff)) ==
              if p.retransmitCount != 0 && p.sendTimestamp != 0 && sent <= cutoff then p.(sendTimestamp := 0) else p
  {
    hide Wrap32, Signed32;
    WrapDifference(cutoff, sent);
    SignedExact(cutoff - sent);
  }

  lemma MarkedSame(p: Packet, cutoff: U32)
    ensures Marked(p, cutoff).serial == p.serial && Marked(p, cutoff).id == p.id
  {
  }

  lemma MarkKeeps(slots: seq<Option<Packet>>, created: seq<U32>, head: U16, tail: U16, id: U16, p: Packet,
                  issued: nat, freed: set<nat>)
    requires Indexed(slots, created, head, tail) && Accounted(Live(slots, head, tail), issued, freed)
    requires id in Live(slots, head, tail)
    ensures |slots| > 0 && InWindow(head, tail, id)
    ensures p.serial == Live(slots, head, tail)[id].serial ==>
              var slots' := slots[id % |slots| := Some(p)];
              && Indexed(slots', created, head, tail)
              && Live(slots', head, tail) == Live(slots, head, tail)[id := p]
              && Accounted(Live(slots', head, tail), issued, freed)
  {
    hide PowerOfTwo, Accounted, Wrap16;
    var slots', live := slots[id % |slots| := Some(p)], Live(slots, head, tail);
    forall d | Span(head, tail) <= d < |slots|
      ensures EmptyAt(slots', created, head, d)
    {
      assert EmptyAt(slots, created, head, d);
    }
    forall id': U16 | InWindow(head, tail, id') && id' != id
      ensures slots'[id' % |slots|] == slots[id' % |slots|]
    {
      IdsApart(|slots|, head, id, id');
    }
    if p.serial == live[id].serial {
      AccountUpdate(live, issued, freed, id, p);
    }
  }

  lemma AccountUpdate(live: map<int, Packet>, issued: nat, freed: set<nat>, id: int, p: Packet)
    requires Accounted(live, issued, freed) && id in live && p.serial == live[id].serial
    ensures Accounted(live[id := p], issued, freed)
  {
    var live' := live[id := p];
    forall n: nat | n < issued && n !in freed
      ensures LiveSerial(live', n)
    {
      assert LiveSerial(live, n);
      var k :| k in live && live[k].serial == n;
      assert k in live' && live'[k].serial == n;
    }
  }

  lemma SpanPositive(head: U16, tail: U16)
    requires head != tail
    ensures Span(head, tail) > 0
  {
  }
}

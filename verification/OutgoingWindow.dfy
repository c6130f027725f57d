/** The growable window of retained unreliable packets, and what sending and reports do to it. */
module OutgoingWindow {
  import opened Words
  import opened Wrappers
  import opened Modular
  import opened OutgoingSlots
  import opened OutgoingPass
  import opened OutgoingReport

  /** Where the cursor starts: its offset, or the head when it has fallen out of the window. */
  function ClampedOffset(cursor: U16, head: U16, tail: U16): (n: nat) {
    if Wrap16(cursor - head) <= Span(head, tail) then Wrap16(cursor - head) else 0
  }

  lemma ClampedAt(before: U16, cursor: U16, head: U16, tail: U16)
    requires cursor == if Wrap16(before - head) <= Span(head, tail) then before else head
    ensures ClampedOffset(before, head, tail) == Wrap16(cursor - head)
  {
  }

  /** The offset after the last id looked at. */
  function Stop(cursor: U16, head: U16, result: int): (n: nat) {
    Wrap16(cursor - head) + if result == 0 then 0 else 1
  }

  lemma StopAt(cursor: U16, head: U16)
    ensures Stop(cursor, head, 0) == Wrap16(cursor - head)
    ensures forall r | r != 0 :: Stop(cursor, head, r) == Wrap16(cursor - head) + 1
  {
  }

  lemma StopBound(cursor: U16, head: U16, tail: U16, result: int)
    requires if result == 0 then cursor == tail else Wrap16(cursor - head) < Span(head, tail)
    ensures Stop(cursor, head, result) == Stop(cursor, head, if cursor == tail then 0 else 1) < U16_SIZE
    ensures Wrap16(cursor - head) <= Stop(cursor, head, result) && (result == 0 <==> cursor == tail)
  {
  }

  lemma NothingAgain(live: map<int, Packet>, head: U16)
    ensures Ids([]) == Between(live, head, 0, 0, true)
  {
  }

  lemma CursorStep(head: U16, tail: U16, cursor: U16)
    requires Wrap16(cursor - head) <= Wrap16(tail - head) && cursor != tail
    ensures Wrap16(cursor - head) < Wrap16(tail - head)
    ensures Wrap16(Wrap16(cursor + 1) - head) == Wrap16(cursor - head) + 1
  {
  }

  lemma SpanOffset(head: U16, tail: U16)
    ensures Span(head, tail) == Wrap16(tail - head)
  {
  }

  lemma HeadOffset(head: U16)
    ensures Wrap16(head - head) == 0
  {
  }

  lemma SpanStep(start: U16, head: U16, tail: U16)
    requires head != tail && Wrap16(head - start) + Span(head, tail) == Span(start, tail)
    ensures Wrap16(Wrap16(head + 1) - start) == Wrap16(head - start) + 1
  {
  }

  lemma SpanRest(start: U16, n: nat, tail: U16)
    requires n <= Span(start, tail)
    ensures Span(Wrap16(start + n), tail) == Span(start, tail) - n
  {
    var d := tail - start;
    assert Wrap16(d) == if d < 0 then d + U16_SIZE else d;
    assert Wrap16(start + n) == if start + n < U16_SIZE then start + n else start + n - U16_SIZE;
  }

  lemma SpanJoin(start: U16, middle: U16, head: U16, tail: U16, n: nat)
    requires n <= Span(start, tail) && middle == Wrap16(start + n)
    requires Wrap16(head - middle) + Span(head, tail) == Span(middle, tail)
    ensures Wrap16(head - start) + Span(head, tail) == Span(start, tail)
  {
    OffsetBack(start, n);
    SpanRest(start, n, tail);
    hide Wrap16;
    Offsets(start, middle, head);
    SpanBound(start, tail);
  }

  lemma EmptyView(slots: seq<Option<Packet>>, head: U16)
    ensures Live(slots, head, head) == map[]
  {
  }

  method CopyWindow(slots: array<Option<Packet>>, created: array<U32>, head: U16, span: nat, size: nat)
      returns (bigger: array<Option<Packet>>, times: array<U32>)
    requires slots.Length == created.Length && span <= slots.Length && PowerOfTwo(size) && slots.Length < size
    requires slots.Length > 0 ==> PowerOfTwo(slots.Length)
    ensures fresh(bigger) && fresh(times) && bigger.Length == times.Length == size
    ensures size > 0 && Copied(slots[..], created[..], bigger[..], times[..], head, span)
  {
    ghost var s, c := slots[..], created[..];
    bigger := new Option<Packet>[size](_ => None);
    times := new U32[size](_ => 0);
    hide PowerOfTwo, Copied, EmptyAt, CopiedAt, Wrap16;
    CopyStart(s, c, bigger[..], times[..], head);
    for i := 0 to span
      invariant slots[..] == s && created[..] == c
      invariant Copied(s, c, bigger[..], times[..], head, i)
    {
      var id := Wrap16(head + i);
      OffsetSlots(size, slots.Length, head, i);
      ghost var b, t := bigger[..], times[..];
      CopyStep(s, c, b, t, head, i);
      bigger[id % size] := slots[id % slots.Length];
      times[id % size] := created[id % slots.Length];
      assert bigger[..] == b[(head + i) % size := s[(head + i) % |s|]];
      assert times[..] == t[(head + i) % size := c[(head + i) % |s|]];
    }
  }

  class Window {
    var slots: array<Option<Packet>>
    var created: array<U32>
    var head: U16
    var tail: U16
    var cursor: U16
    var initialized: bool
    var lastFeedback: U32
    var issued: nat
    ghost var freed: set<nat>

    ghost predicate Valid()
      reads this`slots, this`created, this`head, this`tail, this`initialized, this`issued, this`freed, slots, created
    {
      && Indexed(slots[..], created[..], head, tail) && Accounted(View(), issued, freed)
      && (!initialized ==> head == tail)
    }

    ghost function View(): (m: map<int, Packet>)
      reads this`slots, this`head, this`tail, slots
    {
      Live(slots[..], head, tail)
    }

    ghost function Births(): (m: map<int, U32>)
      reads this`slots, this`created, this`head, this`tail, slots, created
    {
      Times(created[..], View())
    }

    constructor ()
      ensures Valid() && View() == map[] && issued == 0 && !initialized && fresh(slots) && fresh(created)
      ensures head == tail == cursor == 0 && lastFeedback == 0
    {
      slots := new Option<Packet>[0];
      created := new U32[0];
      head, tail, cursor, initialized, lastFeedback, issued, freed := 0, 0, 0, false, 0, 0, {};
    }

    /** Free the packet of a window id, if there is one. */
    method Release(id: U16)
      requires Valid() && InWindow(head, tail, id)
      modifies this`freed, slots
      ensures Valid() && View() == old(View()) - {id}
      ensures freed == if id in old(View()) then old(freed) + {old(View())[id].serial} else old(freed)
      ensures slots[..] == old(slots[..])[id % slots.Length := None]
    {
      hide PowerOfTwo, Indexed, Accounted, Live;
      ghost var live := View();
      WindowSlots(slots[..], created[..], head, tail, id);
      ReleaseIndexed(slots[..], created[..], head, tail, id % slots.Length);
      ReleaseLive(slots[..], head, tail, id);
      var k := id % slots.Length;
      if slots[k].Some? {
        LiveAt(slots[..], head, tail, id);
        AccountFree(live, issued, freed, id);
        freed := freed + {slots[k].value.serial};
        slots[k] := None;
        assert slots[..] == old(slots[..])[k := None];
      } else {
        assert slots[..] == old(slots[..])[k := None];
        LiveAt(slots[..], head, tail, id);
        assert live - {id} == live;
      }
    }

    method Get(id: U16) returns (r: Option<Packet>)
      requires Valid()
      ensures r == if id in View() then Some(View()[id]) else None
    {
      hide PowerOfTwo, Accounted;
      if slots.Length == 0 || Wrap16(id - head) >= Wrap16(tail - head) {
        return None;
      }
      return slots[id % slots.Length];
    }

    /** Free the id at the head and step past it. */
    method DropHead()
      requires Valid() && head != tail
      modifies this`head, this`freed, slots, created
      ensures Valid() && head == Wrap16(old(head) + 1) && View() == old(View()) - {old(head)}
      ensures Births() == old(Births()) - {old(head)}
      ensures Span(head, tail) == Span(old(head), tail) - 1
      ensures freed >= old(freed)
    {
      hide PowerOfTwo, Indexed, Accounted, Live, Wrap16, InWindow, Times;
      HeadInWindow(head, tail);
      ghost var h, s, c := head, slots[..], created[..];
      AdvanceTimes(s, c, head, tail);
      WindowSlots(s, c, head, tail, head);
      AdvanceIndexed(s, c, head, tail);
      AdvanceLive(s, head, tail);
      NextSpan(head, tail, head);
      Release(head);
      created[head % slots.Length] := 0;
      assert created[..] == c[h % |s| := 0];
      head := Wrap16(head + 1);
    }

    /** Free the oldest n ids of the window. */
    method Advance(n: nat)
      requires Valid() && n <= Span(head, tail)
      modifies this`head, this`freed, slots, created
      ensures Valid() && head == Wrap16(old(head) + n)
      ensures View() == Kept(old(View()), old(head), n)
      ensures freed >= old(freed)
    {
      hide *;
      ghost var live := View();
      ViewIds();
      WrapNext(head, 0);
      KeptNone(live, head);
      var i := 0;
      while i < n
        invariant 0 <= i <= n && head == Wrap16(old(head) + i) && n - i <= Span(head, tail)
        invariant Valid() && View() == Kept(live, old(head), i) && n < U16_SIZE
        invariant freed >= old(freed)
      {
        WrapNext(old(head), i);
        KeptStep(live, old(head), i);
        DropHead();
        i := i + 1;
      }
    }

    /** Make room for ids up to need - 1 past the head; the content does not change. */
    method EnsureCapacity(need: nat, memory: bool) returns (ok: bool)
      requires Valid()
      modifies this`slots, this`created
      ensures Valid() && View() == old(View()) && Births() == old(Births())
      ensures ok <==> need <= old(slots.Length) || (need <= MAX_SPAN && memory)
      ensures ok ==> need <= slots.Length
      ensures slots == old(slots) || fresh(slots)
      ensures created == old(created) || fresh(created)
    {
      if need <= slots.Length {
        return true;
      }
      if need > MAX_SPAN {
        return false;
      }
      var size := if slots.Length > 0 then slots.Length else 64;
      while size < need
        invariant PowerOfTwo(size)
        decreases need - size
      {
        size := size * 2;
      }
      if !memory {
        return false;
      }
      Regrow(size);
      return true;
    }

    /** Move every window entry to its slot in arrays of the larger size. */
    method Regrow(size: nat)
      requires Valid() && PowerOfTwo(size) && slots.Length < size
      modifies this`slots, this`created
      ensures Valid() && View() == old(View()) && Births() == old(Births()) && slots.Length == size
      ensures fresh(slots) && fresh(created)
    {
      hide PowerOfTwo, Accounted, Live, Copied, EmptyAt, Times;
      ghost var s, c := slots[..], created[..];
      var bigger, times := CopyWindow(slots, created, head, Span(head, tail), size);
      CopyIndexed(s, c, bigger[..], times[..], head, tail);
      CopyLive(s, c, bigger[..], times[..], head, tail);
      CopyTimes(s, c, bigger[..], times[..], head, tail);
      slots, created := bigger, times;
    }

    /** Keep a copy of a sent packet under its id; refused for ids half the circle away,
        when memory is short, or when the id already has a packet. */
    method Retain(id: U16, retransmitCount: U8, sendTimestamp: U32, time: U32,
                  growMemory: bool, copyMemory: bool) returns (ok: bool)
      requires Valid()
      modifies this`slots, this`created, this`head, this`tail, this`cursor, this`initialized, this`issued, slots, created
      ensures Valid() && initialized
      ensures ok ==> id !in old(View())
                     && View() == old(View())[id := Packet(old(issued), id, retransmitCount, sendTimestamp)]
                     && Births() == old(Births())[id := time] && issued == old(issued) + 1
      ensures !ok ==> View() == old(View()) && Births() == old(Births()) && issued == old(issued)
      ensures growMemory && copyMemory && Wrap16(id - head) < MAX_SPAN ==> (ok <==> id !in old(View()))
      ensures head == if old(initialized) then old(head) else id
      ensures cursor == if old(initialized) then old(cursor) else id
      ensures var end := if old(initialized) then old(tail) else id;
              tail == if ok then TailAfter(head, end, id) else end
      ensures (slots == old(slots) || fresh(slots)) && (created == old(created) || fresh(created))
    {
      hide PowerOfTwo, Indexed, Accounted, Live, Times;
      if !initialized {
        StartWindow(slots[..], created[..], head, id);
        head, tail, cursor, initialized := id, id, id, true;
      }
      var distance := Wrap16(id - head);
      ok := distance < MAX_SPAN;
      if ok {
        ok := EnsureCapacity(distance + 1, growMemory);
      }
      if !ok || !copyMemory {
        return false;
      }
      ok := Store(id, retransmitCount, sendTimestamp, time);
    }

    /** Place the copy if its slot is free. */
    method Store(id: U16, retransmitCount: U8, sendTimestamp: U32, time: U32) returns (ok: bool)
      requires Valid() && initialized && Wrap16(id - head) < MAX_SPAN && Wrap16(id - head) < slots.Length
      modifies this`tail, this`issued, slots, created
      ensures Valid()
      ensures ok <==> id !in old(View())
      ensures ok ==> View() == old(View())[id := Packet(old(issued), id, retransmitCount, sendTimestamp)] && issued == old(issued) + 1
      ensures ok ==> Births() == old(Births())[id := time]
      ensures !ok ==> View() == old(View()) && Births() == old(Births()) && issued == old(issued)
      ensures tail == if ok then TailAfter(head, old(tail), id) else old(tail)
    {
      hide PowerOfTwo, Accounted, Live, Wrap16, Times;
      ghost var live, s, c := View(), slots[..], created[..];
      var k := id % slots.Length;
      if slots[k].Some? {
        OccupiedSlot(s, c, head, tail, id);
        return false;
      }
      var p := Packet(issued, id, retransmitCount, sendTimestamp);
      StoreLive(s, c, head, tail, id, p);
      StoreTimes(s, c, head, tail, id, p, time);
      StoreIndexed(s, c, head, tail, id, p, time);
      AccountRetain(live, issued, freed, id, p);
      slots[k] := Some(p);
      created[k] := time;
      assert slots[..] == s[k := Some(p)] && created[..] == c[k := time];
      issued := issued + 1;
      if Wrap16(tail - head) <= Wrap16(id - head) {
        tail := Wrap16(id + 1);
      }
      return true;
    }

    /** The packet at the head has outlived keep ticks. */
    predicate HeadExpired(keep: nat, now: U32)
      requires slots.Length == created.Length && slots.Length > 0
      reads this`slots, this`created, this`head, created
    {
      Expired(created[head % slots.Length], keep, now)
    }

    /**
     * Drop expired packets from the head of the window. On the unwrapped clock every packet dropped is older
     * than keep ticks, and the one left at the head is not.
     */
    method Expire(keep: nat, now: U32, ghost times: map<int, nat>, ghost clock: nat)
      requires Valid()
      modifies this`head, this`freed, slots, created
      ensures Valid() && Wrap16(head - old(head)) <= Span(old(head), tail)
      ensures View() == Kept(old(View()), old(head), Wrap16(head - old(head)))
      ensures Births() == Later(old(Births()), old(head), Wrap16(head - old(head)))
      ensures EarlierExpired(old(Births()), old(head), Wrap16(head - old(head)), keep, now)
      ensures head != tail ==> slots.Length == created.Length > 0 && !HeadExpired(keep, now)
      ensures now == Wrap32(clock) && keep < HALF_RANGE && Dated(old(Births()), times, clock) ==>
                && OldBefore(old(Births()), times, old(head), Wrap16(head - old(head)), keep, clock)
                && (head != tail && head in old(Births()) ==> head in times && clock - times[head] <= keep)
    {
      hide *;
      ghost var live, births, h, span := View(), Births(), head, Span(head, tail);
      ViewIds();
      BirthIds();
      WrapNext(head, 0);
      NonemptySlots();
      KeptNone(live, head);
      LaterNone(births, head, keep, now);
      ghost var n: nat := 0;
      while head != tail && HeadExpired(keep, now)
        invariant Valid() && View() == Kept(live, h, n) && slots.Length == created.Length
        invariant Births() == Later(births, h, n) && EarlierExpired(births, h, n, keep, now)
        invariant head != tail ==> slots.Length > 0
        invariant n <= span && Span(head, tail) == span - n && n == Wrap16(head - h)
        decreases Span(head, tail)
      {
        ExpireStep(h, head, tail, n, span);
        HeadBirth(keep, now);
        KeptStep(live, h, n);
        LaterStep(births, h, n, keep, now);
        DropHead();
        NonemptySlots();
        n := n + 1;
      }
      if now == Wrap32(clock) && keep < HALF_RANGE && Dated(births, times, clock) {
        ExpiredAreOld(births, times, h, n, keep, clock);
        if head != tail && head in births {
          LaterSame(births, h, n, head);
          FreshHead(keep, now);
          FreshIsYoung(births, times, head, keep, clock);
        }
      }
    }

    lemma FreshHead(keep: nat, now: U32)
      requires slots.Length == created.Length > 0 && !HeadExpired(keep, now) && head in Births()
      ensures !Expired(Births()[head], keep, now)
    {
      hide Live, Expired;
    }

    lemma BirthIds()
      ensures forall id | id in Births() :: 0 <= id < U16_SIZE
    {
    }

    lemma HeadBirth(keep: nat, now: U32)
      requires slots.Length == created.Length > 0 && HeadExpired(keep, now)
      ensures head in Births() ==> Expired(Births()[head], keep, now)
    {
      hide Live, Expired;
    }

    lemma ViewIds()
      ensures forall id | id in View() :: 0 <= id < U16_SIZE
    {
    }

    lemma NonemptySlots()
      requires Valid()
      ensures slots.Length == created.Length && (head != tail ==> slots.Length > 0)
    {
      hide PowerOfTwo;
    }

    /** Bring the send cursor back into the window. */
    method ClampCursor()
      requires Valid()
      modifies this`cursor
      ensures Valid() && Wrap16(cursor - head) <= Span(head, tail)
      ensures cursor == if Wrap16(old(cursor) - head) <= Span(head, tail) then old(cursor) else head
    {
      hide PowerOfTwo, Accounted, Indexed, Live;
      if Wrap16(cursor - head) > Wrap16(tail - head) {
        cursor := head;
      }
    }

    /** One attempt to send; unless the transport is detached it stamps the packet, whatever comes of it. */
    method Attempt(id: U16, t: Try)
      requires Valid() && id in View()
      modifies slots
      ensures Valid() && View() == old(View())[id := After(old(View())[id], t)]
    {
      hide PowerOfTwo, Indexed, Accounted, Live, InWindow, After;
      ghost var s := slots[..];
      ghost var c := created[..];
      var p := Get(id);
      AfterSame(p.value, t);
      MarkKeeps(s, c, head, tail, id, After(p.value, t), issued, freed);
      slots[id % slots.Length] := Some(After(p.value, t));
      assert slots[..] == s[id % |s| := Some(After(p.value, t))];
    }

    /** Sends what the cursor has not passed yet, up to the first failure, where the cursor stays. */
    method SendPending(outcome: nat -> Try) returns (result: int, tries: nat, ghost log: seq<Tried>)
      requires Valid() && Wrap16(cursor - head) <= Span(head, tail)
      modifies this`cursor, slots
      ensures Valid() && Wrap16(old(cursor) - head) <= Wrap16(cursor - head) <= Span(head, tail)
      ensures tries == |log| && Ends(log, result) && Follows(log, outcome, 0)
      ensures Ids(log) == Between(old(View()), head, Wrap16(old(cursor) - head), Stop(cursor, head, result), false)
      ensures View() == Applied(old(View()), log)
      ensures if result == 0 then cursor == tail else Wrap16(cursor - head) < Span(head, tail)
    {
      hide *;
      ghost var live, from := View(), Wrap16(cursor - head);
      SpanOffset(head, tail);
      LogStart(live, head, from, false, outcome, 0);
      StopAt(cursor, head);
      result, tries, log := 0, 0, [];
      while cursor != tail
        invariant Valid() && from <= Wrap16(cursor - head) <= Span(head, tail)
        invariant result == 0 && tries == |log| && Ends(log, 0) && Follows(log, outcome, 0)
        invariant Ids(log) == Between(live, head, from, Wrap16(cursor - head), false)
        invariant View() == Applied(live, log)
        decreases Span(head, tail) - Wrap16(cursor - head)
      {
        CursorStep(head, tail, cursor);
        TryStep(live, head, from, cursor, false, log, outcome(tries));
        var p := Get(cursor);
        if p.Some? {
          var t := outcome(tries);
          FollowsStep(log, outcome, 0, cursor);
          EndsStep(log, Tried(cursor, t));
          Attempt(cursor, t);
          log, tries, result := log + [Tried(cursor, t)], tries + 1, Result(t);
          if result != 0 {
            break;
          }
        }
        cursor := Wrap16(cursor + 1);
      }
      StopAt(cursor, head);
    }

    /** Sends again what is due again and lies before the cursor's start, up to the first failure. */
    method Resend(start: U16, outcome: nat -> Try, first: nat) returns (result: int, ghost log: seq<Tried>, ghost again: nat)
      requires Valid() && Wrap16(start - head) <= Span(head, tail)
      modifies slots
      ensures Valid() && again <= Wrap16(start - head)
      ensures Ends(log, result) && Follows(log, outcome, first)
      ensures Ids(log) == Between(old(View()), head, 0, again, true)
      ensures View() == Applied(old(View()), log)
      ensures result == 0 ==> again == Wrap16(start - head)
    {
      hide *;
      ghost var live := View();
      HeadOffset(head);
      LogStart(live, head, 0, true, outcome, first);
      result, log, again := 0, [], 0;
      var id: U16, tries := head, first;
      while id != start
        invariant Valid() && Wrap16(id - head) <= Wrap16(start - head) && again == Wrap16(id - head)
        invariant result == 0 && tries == first + |log| && Ends(log, 0) && Follows(log, outcome, first)
        invariant Ids(log) == Between(live, head, 0, Wrap16(id - head), true)
        invariant View() == Applied(live, log)
        decreases Wrap16(start - head) - Wrap16(id - head)
      {
        CursorStep(head, start, id);
        TryStep(live, head, 0, id, true, log, outcome(tries));
        again := again + 1;
        var p := Get(id);
        if p.Some? && p.value.sendTimestamp == 0 {
          var t := outcome(tries);
          FollowsStep(log, outcome, first, id);
          EndsStep(log, Tried(id, t));
          Attempt(id, t);
          log, tries, result := log + [Tried(id, t)], tries + 1, Result(t);
          if result != 0 {
            break;
          }
        }
        id := Wrap16(id + 1);
      }
    }

    /**
     * One sending pass: expired packets are dropped; then everything from the cursor on is attempted and, when
     * asked, everything before it that is due again, up to the first failure. No packet is attempted twice, and
     * the packets are exactly as their attempts left them.
     */
    method SendUnreliable(retry: bool, keep: nat, now: U32, outcome: nat -> Try,
                          ghost times: map<int, nat>, ghost clock: nat)
        returns (result: int, ghost log: seq<Tried>, ghost start: nat, ghost again: nat)
      requires Valid()
      modifies this`head, this`freed, this`cursor, slots, created
      ensures Valid() && Wrap16(cursor - head) <= Span(head, tail)
      ensures Wrap16(head - old(head)) <= Span(old(head), tail)
      ensures EarlierExpired(old(Births()), old(head), Wrap16(head - old(head)), keep, now)
      ensures head != tail ==> slots.Length == created.Length > 0 && !HeadExpired(keep, now)
      ensures now == Wrap32(clock) && keep < HALF_RANGE && Dated(old(Births()), times, clock) ==>
                && OldBefore(old(Births()), times, old(head), Wrap16(head - old(head)), keep, clock)
                && (head != tail && head in old(Births()) ==> head in times && clock - times[head] <= keep)
      ensures start == ClampedOffset(old(cursor), head, tail) && (!retry ==> again == 0)
      ensures var kept := Kept(old(View()), old(head), Wrap16(head - old(head)));
              && Passes(kept, head, log, start, Stop(cursor, head, if cursor == tail then 0 else 1), again)
              && View() == Applied(kept, log)
      ensures Distinct(log) && Follows(log, outcome, 0)
      ensures exists r :: Ends(log, r) && result == (if r == 1 then 0 else r)
                && (r == 0 ==> cursor == tail && (retry ==> again == start))
    {
      hide *;
      Expire(keep, now, times, clock);
      ghost var live := View();
      ClampCursor();
      ClampedAt(old(cursor), cursor, head, tail);
      var first := cursor;
      start, again := Wrap16(first - head), 0;
      var code, tries, sent := SendPending(outcome);
      StopBound(cursor, head, tail, code);
      NothingAgain(View(), head);
      PassJoin(live, head, sent, [], start, Stop(cursor, head, code), 0);
      assert sent + [] == sent;
      log := sent;
      if code == 0 && retry {
        ghost var more: seq<Tried>;
        code, more, again := Resend(first, outcome, tries);
        PassJoin(live, head, sent, more, start, Stop(cursor, head, 0), again);
        AppliedJoin(live, sent, more);
        EndsJoin(sent, more, code);
        FollowsJoin(sent, more, outcome);
        log := sent + more;
      }
      PassDistinct(live, head, log, start, Stop(cursor, head, if cursor == tail then 0 else 1), again);
      result := if code == 1 then 0 else code;
    }

    /** A packet reported missing and sent before the cutoff becomes due for another send. */
    method Mark(id: U16, cutoff: U32)
      requires Valid()
      modifies slots
      ensures Valid() && View().Keys == old(View()).Keys
      ensures forall i | i in View() :: View()[i] == if i == id then Marked(old(View())[i], cutoff) else old(View())[i]
    {
      hide PowerOfTwo, Indexed, Accounted, Live, Marked, InWindow;
      ghost var s, c, live := slots[..], created[..], View();
      var p := Get(id);
      if p.Some? {
        MarkKeeps(s, c, head, tail, id, Marked(p.value, cutoff), issued, freed);
        MarkedSame(p.value, cutoff);
        slots[id % slots.Length] := Some(Marked(p.value, cutoff));
        assert slots[..] == s[id % |s| := Some(Marked(p.value, cutoff))];
      }
    }

    /** Drop empty ids from the head; the content stays. */
    method SkipGaps()
      requires Valid()
      modifies this`head, this`freed, slots, created
      ensures Valid() && View() == old(View()) && (head == tail || head in View())
      ensures Wrap16(head - old(head)) + Span(head, tail) == Span(old(head), tail)
    {
      hide *;
      HeadOffset(head);
      while head != tail
        invariant Valid() && View() == old(View())
        invariant Wrap16(head - old(head)) + Span(head, tail) == Span(old(head), tail)
        decreases Span(head, tail)
      {
        var p := Get(head);
        if p.Some? {
          break;
        }
        SpanPositive(head, tail);
        SpanStep(old(head), head, tail);
        DropHead();
      }
    }

    /** One byte of the receive bitmap: set bits acknowledge, clear bits below the top one report a loss. */
    method NackByte(bits0: U8, start: int, cutoff: U32)
      requires Valid()
      modifies this`freed, slots
      ensures Valid() && Thinned(old(View()), View(), ByteVerdict(bits0, start, cursor), cutoff)
    {
      hide *;
      var bits: nat, bit := bits0, 0;
      ghost var all, done := ByteVerdict(bits0, start, cursor), NOTHING;
      ThinnedRefl(View(), cutoff);
      ByteStart(bits0, start, cursor);
      while bits != 0
        invariant Valid() && Thinned(old(View()), View(), done, cutoff)
        invariant all == Join(done, ByteVerdict(bits, start + bit, cursor))
        decreases bits
      {
        var id := Wrap16(start + bit);
        ghost var v := View();
        ghost var one := BitVerdict(bits % 2 == 1, id, cursor);
        ByteStep(bits, start + bit, cursor, done);
        if bits % 2 == 1 {
          var p := Get(id);
          if Signed16(Wrap16(cursor - id)) > 0 && p.Some? {
            ViewWindow(id);
            Release(id);
          }
          ReleaseVerdict(v, View(), id, cursor, cutoff);
        } else {
          Mark(id, cutoff);
          MarkVerdict(v, View(), id, cursor, cutoff);
        }
        ThinnedTrans(old(View()), v, View(), done, one, cutoff);
        done := Join(done, one);
        bits, bit := bits / 2, bit + 1;
      }
      ByteDone(start + bit, cursor, done);
    }

    lemma FirstInWindow(start: U16)
      requires head == tail || head in View()
      requires Wrap16(head - start) + Span(head, tail) <= Span(start, tail)
      ensures FirstRetained(View(), start, head, tail)
    {
      hide Wrap16;
      if head == tail {
        EmptyView(slots[..], head);
      }
      forall id: int | id in View()
        ensures Wrap16(head - start) <= Wrap16(id - start)
      {
        Farther(start, head, tail, id);
      }
    }

    lemma ViewWindow(id: U16)
      requires id in View()
      ensures InWindow(head, tail, id)
    {
    }

    /** The confirmed prefix, then the bitmap of a receiver report. */
    method ApplyReport(confirmed: U16, bitmap: seq<U8>, base: U16, cutoff: U32)
      requires Valid()
      modifies this`head, this`freed, slots, created
      ensures Valid()
      ensures var kept := Kept(old(View()), old(head), Confirmed(old(head), tail, confirmed));
              && Thinned(kept, View(), BitmapVerdict(bitmap, base, cursor), cutoff)
              && FirstRetained(kept, old(head), head, tail)
    {
      hide *;
      ConfirmedBound(head, tail, confirmed);
      var n: nat := Confirmed(head, tail, confirmed);
      Advance(n);
      SkipGaps();
      SpanJoin(old(head), Wrap16(old(head) + n), head, tail, n);
      FirstInWindow(old(head));
      ghost var v := View();
      ThinnedRefl(v, cutoff);
      ghost var all, done := BitmapVerdict(bitmap, base, cursor), NOTHING;
      BitmapStart(bitmap, base, cursor);
      ghost var h := head;
      for j := 0 to |bitmap|
        invariant head == h
        invariant Valid() && Thinned(v, View(), done, cutoff)
        invariant all == Join(done, BitmapVerdict(bitmap[j..], base + j * 8, cursor))
      {
        ghost var w := View();
        ghost var one := ByteVerdict(bitmap[j], base + j * 8, cursor);
        BitmapStep(bitmap, j, base, cursor, done);
        NackByte(bitmap[j], base + j * 8, cutoff);
        ThinnedTrans(v, w, View(), done, one, cutoff);
        done := Join(done, one);
      }
      BitmapDone(bitmap, base + |bitmap| * 8, cursor, done);
    }

    /** Mark what lies before the base of the report (a plain difference, as the source takes it). */
    method MarkBefore(base: U16, cutoff: U32)
      requires Valid()
      modifies slots
      ensures Valid() && Thinned(old(View()), View(), Verdict({}, Early(head, EarlyCount(base, head, tail))), cutoff)
    {
      hide *;
      EarlyBound(base, head, tail);
      ThinnedRefl(View(), cutoff);
      var count, span := base as int - head as int, Span(head, tail);
      var n := if count > span then span else count;
      var i := 0;
      EarlyNone(head);
      while i < n
        invariant 0 <= i && (i == 0 || i <= n)
        invariant Valid() && Thinned(old(View()), View(), Verdict({}, Early(head, i)), cutoff)
      {
        ghost var v := View();
        var id := Wrap16(head + i);
        Mark(id, cutoff);
        MarkVerdict(v, View(), id, cursor, cutoff);
        ThinnedTrans(old(View()), v, View(), Verdict({}, Early(head, i)), BitVerdict(false, id, cursor), cutoff);
        EarlyStep(head, i, cursor);
        i := i + 1;
      }
    }

    /** A negative acknowledgement. Reports older than the last one are ignored, truncated ones too. */
    method Nack(stamp: U32, base: U16, body: seq<U8>, now: U32, age: U32)
      requires Valid()
      modifies this`head, this`freed, this`lastFeedback, slots, created
      ensures Valid()
      ensures Heeded(old(lastFeedback), stamp, body) && |body| >= 6 ==>
                Thinned(Kept(old(View()), old(head), Confirmed(old(head), tail, Read16(body, 4))), View(),
                        Join(BitmapVerdict(body[6..], base, cursor), Verdict({}, Early(head, EarlyCount(base, head, tail)))),
                        Cutoff(body, now, age))
                && FirstRetained(Kept(old(View()), old(head), Confirmed(old(head), tail, Read16(body, 4))), old(head), head, tail)
      ensures !(Heeded(old(lastFeedback), stamp, body) && |body| >= 6) ==> head == old(head)
      ensures Heeded(old(lastFeedback), stamp, body) && body == [] ==>
                Thinned(old(View()), View(), Verdict({}, Early(head, EarlyCount(base, head, tail))), Cutoff(body, now, age))
      ensures !Heeded(old(lastFeedback), stamp, body) ==> View() == old(View())
      ensures lastFeedback == if Older(old(lastFeedback), stamp) then old(lastFeedback) else stamp
    {
      hide Valid, View, Thinned, Kept, BitmapVerdict, Confirmed, Early, EarlyCount, Join, FirstRetained;
      if Older(lastFeedback, stamp) {
        return;
      }
      SetFeedback(stamp);
      if 0 < |body| < 6 {
        return;
      }
      var cutoff := Wrap32(now - age);
      if |body| >= 6 {
        var echo := Read16(body, 0) + 65536 * Read16(body, 2);
        if Signed32(Wrap32(cutoff - echo)) < 0 {
          cutoff := echo;
        }
        ghost var kept := Kept(View(), head, Confirmed(head, tail, Read16(body, 4)));
        ApplyReport(Read16(body, 4), body[6..], base, cutoff);
        ghost var v := View();
        MarkBefore(base, cutoff);
        ThinnedTrans(kept, v, View(), BitmapVerdict(body[6..], base, cursor),
                     Verdict({}, Early(head, EarlyCount(base, head, tail))), cutoff);
      } else {
        MarkBefore(base, cutoff);
      }
    }

    method SetFeedback(stamp: U32)
      requires Valid()
      modifies this`lastFeedback
      ensures Valid() && View() == old(View()) && lastFeedback == stamp
    {
      hide PowerOfTwo, Indexed, Accounted, Live;
      lastFeedback := stamp;
    }

    /** Tear the window down: afterwards every packet ever retained has been freed. */
    method Deinit()
      requires Valid()
      modifies this`head, this`freed, slots, created
      ensures Valid() && View() == map[] && forall n: nat :: n < issued <==> n in freed
    {
      hide *;
      EmptyWindow();
      Advance(Span(head, tail));
      AllFreed();
    }

    lemma EmptyWindow()
      requires Valid()
      ensures Kept(View(), head, Span(head, tail)) == map[]
    {
    }

    lemma AllFreed()
      requires Valid() && View() == map[]
      ensures forall n: nat :: n < issued <==> n in freed
    {
      hide PowerOfTwo, Indexed;
      AccountEmpty(issued, freed);
    }
  }

  lemma ThinnedNothing(m: map<int, Packet>, m': map<int, Packet>, cutoff: U32)
    requires Thinned(m, m', NOTHING, cutoff)
    ensures m' == m
  {
    assert m'.Keys == m.Keys;
    assert forall id | id in m' :: m'[id] == m[id];
  }

  /** Before the id wraps around, a packet just behind the base of a report is not marked as lost. */
  method WrapLeavesUnmarked() returns (w: Window, p: Packet)
    ensures fresh(w) && w.Valid() && p.id == 65535 && 65535 in w.View() && w.View()[65535] == p
    ensures Signed16(Wrap16(1 - p.id)) > 0 && Marked(p, 20) != p
  {
    hide Thinned, Live, Indexed, Accounted, PowerOfTwo;
    w := new Window();
    var ok := w.Retain(65535, 1, 10, 10, true, true);
    p := Packet(0, 65535, 1, 10);
    assert w.View()[65535] == p;
    w.MarkBefore(1, 20);
    EarlyNone(65535);
    ThinnedNothing(map[65535 := p], w.View(), 20);
  }
}

/** Window sums over a history of timed samples, and what the 32-bit age test makes of it. */
module NetworkWindow {
  import opened Words
  import opened Modular
  import opened SampleQueue

  const WINDOW := 0x30000

  /** A sample of the history, at an unwrapped time. */
  datatype Entry = Entry(time: nat, weight: int, lost: bool)

  /** The total weight of the entries not before `since`, or of the lost ones among them. */
  ghost function Sum(es: seq<Entry>, since: int, lostOnly: bool): (r: int) {
    if es == [] then 0
    else
      var n := |es| - 1;
      Sum(es[..n], since, lostOnly) + if es[n].time >= since && (lostOnly ==> es[n].lost) then es[n].weight else 0
  }

  lemma SumAppend(es: seq<Entry>, e: Entry, since: int, lostOnly: bool)
    ensures Sum(es + [e], since, lostOnly)
         == Sum(es, since, lostOnly) + if e.time >= since && (lostOnly ==> e.lost) then e.weight else 0
  {
    assert (es + [e])[..|es|] == es;
  }

  lemma {:induction false} SumFirst(es: seq<Entry>, since: int, lostOnly: bool)
    requires |es| > 0
    ensures Sum(es, since, lostOnly)
         == Sum(es[1..], since, lostOnly) + if es[0].time >= since && (lostOnly ==> es[0].lost) then es[0].weight else 0
  {
    var n := |es| - 1;
    if n > 0 {
      SumFirst(es[..n], since, lostOnly);
      assert es[..n][1..] == es[1..][..n - 1] && es[1..][n - 1] == es[n];
    }
  }

  /** The newest entry with more weight. */
  function Amended(es: seq<Entry>, w: int): (r: seq<Entry>)
    requires |es| > 0
    ensures |r| == |es|
  {
    es[|es| - 1 := es[|es| - 1].(weight := es[|es| - 1].weight + w)]
  }

  lemma SumAmend(es: seq<Entry>, w: int, since: int, lostOnly: bool)
    requires |es| > 0
    ensures Sum(Amended(es, w), since, lostOnly) == Sum(es, since, lostOnly)
              + if es[|es| - 1].time >= since && (lostOnly ==> es[|es| - 1].lost) then w else 0
  {
    var n := |es| - 1;
    assert Amended(es, w)[..n] == es[..n];
  }

  lemma {:induction false} SumAll(es: seq<Entry>, since: int, lostOnly: bool)
    requires forall i | 0 <= i < |es| :: es[i].time >= since
    ensures Sum(es, since, lostOnly) == Sum(es, 0, lostOnly)
  {
    if es != [] {
      SumAll(es[..|es| - 1], since, lostOnly);
    }
  }

  lemma {:induction false} SumNone(es: seq<Entry>, since: int, lostOnly: bool)
    requires forall i | 0 <= i < |es| :: es[i].time < since
    ensures Sum(es, since, lostOnly) == 0
  {
    if es != [] {
      SumNone(es[..|es| - 1], since, lostOnly);
    }
  }

  /** The number of entries not before `since`. */
  ghost function Number(es: seq<Entry>, since: int): (n: nat) {
    if es == [] then 0
    else Number(es[..|es| - 1], since) + if es[|es| - 1].time >= since then 1 else 0
  }

  lemma {:induction false} NumberFirst(es: seq<Entry>, since: int)
    requires |es| > 0
    ensures Number(es, since) == Number(es[1..], since) + if es[0].time >= since then 1 else 0
  {
    var n := |es| - 1;
    if n > 0 {
      NumberFirst(es[..n], since);
      assert es[..n][1..] == es[1..][..n - 1] && es[1..][n - 1] == es[n];
    }
  }

  lemma {:induction false} NumberAll(es: seq<Entry>, since: int)
    requires forall i | 0 <= i < |es| :: es[i].time >= since
    ensures Number(es, since) == |es|
  {
    if es != [] {
      NumberAll(es[..|es| - 1], since);
    }
  }

  // ---- the queue and the entries it stands for ----

  /** The samples encode the entries, which are in order and not after `last`. */
  ghost predicate Held(q: seq<Sample>, es: seq<Entry>, last: nat) {
    && |q| == |es|
    && (forall i | 0 <= i < |es| ::
          q[i].timestamp == Wrap32(es[i].time) && q[i].value == Wrap32(es[i].weight) && q[i].lost == es[i].lost)
    && (forall i, j | 0 <= i < j < |es| :: es[i].time <= es[j].time)
    && (forall i | 0 <= i < |es| :: es[i].time <= last)
  }

  /** Everything retained lies within the window that ends at the last record. */
  ghost predicate Recent(es: seq<Entry>, last: nat) {
    forall i | 0 <= i < |es| :: last - WINDOW <= es[i].time
  }

  /** The retained entries weigh as much as the history, from any point in the window on. */
  ghost predicate Summarizes(es: seq<Entry>, history: seq<Entry>, last: nat) {
    forall since, lostOnly | since >= last - WINDOW :: Sum(es, since, lostOnly) == Sum(history, since, lostOnly)
  }

  /** The queue holds exactly the fresh part of the history. */
  ghost predicate Exact(es: seq<Entry>, history: seq<Entry>, last: nat) {
    Recent(es, last) && Summarizes(es, history, last)
  }

  /** All retained entries count, so the total over them is the total over the window. */
  lemma WindowTotal(es: seq<Entry>, history: seq<Entry>, last: nat, lostOnly: bool)
    requires Exact(es, history, last)
    ensures Sum(es, 0, lostOnly) == Sum(history, last - WINDOW, lostOnly)
  {
    SumAll(es, last - WINDOW, lostOnly);
  }

  // ---- the age test ----

  predicate Stale(s: Sample, now: U32) {
    Wrap32(now - s.timestamp) > WINDOW
  }

  /** The age has wrapped around into the window: the entry is old but looks fresh. */
  predicate Lapsed(e: Entry, time: nat) {
    time - e.time > WINDOW && (time - e.time) % U32_SIZE <= WINDOW
  }

  ghost predicate NoLapse(es: seq<Entry>, time: nat) {
    forall i | 0 <= i < |es| :: !Lapsed(es[i], time)
  }

  /** The wrapped age, for an entry of any age. */
  lemma AgeTest(e: Entry, time: nat)
    requires e.time <= time
    ensures Wrap32(Wrap32(time) - Wrap32(e.time)) == (time - e.time) % U32_SIZE <= time - e.time
    ensures (time - e.time) % U32_SIZE > WINDOW ==> e.time < time - WINDOW && !Lapsed(e, time)
    ensures (time - e.time) % U32_SIZE <= WINDOW && !Lapsed(e, time) ==> e.time >= time - WINDOW
    ensures Wrap32(e.time) == Wrap32(time) && !Lapsed(e, time) ==> e.time == time
  {
    WrapDifference(time, e.time);
    Remainder(time - e.time);
    if Wrap32(e.time) == Wrap32(time) {
      assert (time - e.time) % U32_SIZE == 0;
    }
  }

  lemma Remainder(d: nat)
    ensures d % U32_SIZE <= d && (d < U32_SIZE ==> d % U32_SIZE == d)
  {
  }

  /** Records that follow each other sooner than the clock wraps, less the window, never lapse. */
  lemma SoonerNoLapse(es: seq<Entry>, last: nat, time: nat)
    requires Recent(es, last) && last <= time < last + U32_SIZE - WINDOW
    ensures NoLapse(es, time)
  {
    forall i | 0 <= i < |es|
      ensures !Lapsed(es[i], time)
    {
      if time >= es[i].time {
        Remainder(time - es[i].time);
      }
    }
  }

  // ---- dropping ----

  /** What is left after dropping from the front entries that the age test finds stale. */
  ghost predicate Trimmed(before: seq<Entry>, es: seq<Entry>, time: nat) {
    && |es| <= |before| && es == before[|before| - |es|..]
    && forall i | 0 <= i < |before| - |es| :: before[i].time <= time && (time - before[i].time) % U32_SIZE > WINDOW
  }

  lemma TrimmedStart(es: seq<Entry>, time: nat)
    ensures Trimmed(es, es, time)
  {
  }

  lemma {:induction false} TrimStep(q: seq<Sample>, before: seq<Entry>, es: seq<Entry>, last: nat, time: nat)
    requires Held(q, es, last) && last <= time && |q| > 0 && Stale(q[0], Wrap32(time)) && Trimmed(before, es, time)
    ensures |es| > 0 && Held(q[1..], es[1..], last) && Trimmed(before, es[1..], time)
    ensures Sum(es[1..], 0, false) == Sum(es, 0, false) - es[0].weight
    ensures Sum(es[1..], 0, true) == Sum(es, 0, true) - if es[0].lost then es[0].weight else 0
    ensures q[0].value == Wrap32(es[0].weight) && q[0].lost == es[0].lost
  {
    hide Wrap32, Sum;
    AgeTest(es[0], time);
    SumFirst(es, 0, false);
    SumFirst(es, 0, true);
    var k := |before| - |es|;
    assert es[1..] == before[k + 1..] && before[k] == es[0];
  }

  /** Only truly old entries are dropped, so the sums over the window stay. */
  lemma {:induction false} TrimmedSums(before: seq<Entry>, es: seq<Entry>, time: nat, since: int, lostOnly: bool)
    requires Trimmed(before, es, time) && since >= time - WINDOW
    ensures Sum(es, since, lostOnly) == Sum(before, since, lostOnly) && Number(es, since) == Number(before, since)
    decreases |before|
  {
    hide Sum, Number;
    if |es| == |before| {
      assert es == before;
    } else {
      var rest := before[1..];
      Remainder(time - before[0].time);
      SumFirst(before, since, lostOnly);
      NumberFirst(before, since);
      assert es == rest[|rest| - |es|..];
      assert forall i | 0 <= i < |rest| - |es| :: rest[i] == before[i + 1];
      TrimmedSums(rest, es, time, since, lostOnly);
    }
  }

  /** With the front fresh by the test: all is fresh, unless some entry has lapsed. */
  lemma TrimmedRecent(q: seq<Sample>, before: seq<Entry>, es: seq<Entry>, last: nat, time: nat)
    requires Held(q, es, last) && last <= time && Trimmed(before, es, time) && (|q| > 0 ==> !Stale(q[0], Wrap32(time)))
    requires forall i | 0 <= i < |before| :: before[i].time <= time
    ensures Recent(es, time) <==> NoLapse(before, time)
  {
    hide Wrap32;
    var k := |before| - |es|;
    if NoLapse(before, time) {
      if |es| > 0 {
        AgeTest(es[0], time);
        assert !Lapsed(before[k], time);
      }
    } else {
      var i :| 0 <= i < |before| && Lapsed(before[i], time);
      assert i >= k;
      assert es[i - k] == before[i];
    }
  }

  lemma HeldTimes(q: seq<Sample>, es: seq<Entry>, last: nat, time: nat)
    requires Held(q, es, last) && last <= time
    ensures |q| == |es| && forall i | 0 <= i < |es| :: es[i].time <= time
  {
  }

  // ---- adding ----

  lemma HeldPush(q: seq<Sample>, es: seq<Entry>, last: nat, time: nat, s: Sample, e: Entry)
    requires Held(q, es, last) && last <= time && e.time == time && s == Sample(Wrap32(time), Wrap32(e.weight), e.lost)
    ensures Held(q + [s], es + [e], time)
    ensures Sum(es + [e], 0, false) == Sum(es, 0, false) + e.weight
    ensures Sum(es + [e], 0, true) == Sum(es, 0, true) + if e.lost then e.weight else 0
  {
    SumAppend(es, e, 0, false);
    SumAppend(es, e, 0, true);
  }

  /** A new entry completes the window exactly if nothing has lapsed. */
  lemma PushExact(q: seq<Sample>, before: seq<Entry>, es: seq<Entry>, history: seq<Entry>, last: nat, time: nat, e: Entry)
    requires Held(q, es, last) && last <= time && Trimmed(before, es, time) && (|q| > 0 ==> !Stale(q[0], Wrap32(time)))
    requires (forall i | 0 <= i < |before| :: before[i].time <= time) && e.time == time && Exact(before, history, last)
    ensures Exact(es + [e], history + [e], time) <==> NoLapse(before, time)
  {
    hide Sum;
    TrimmedRecent(q, before, es, last, time);
    forall since, lostOnly | since >= time - WINDOW
      ensures Sum(es + [e], since, lostOnly) == Sum(history + [e], since, lostOnly)
    {
      SumAppend(es, e, since, lostOnly);
      SumAppend(history, e, since, lostOnly);
      TrimmedSums(before, es, time, since, lostOnly);
    }
    assert forall i | 0 <= i < |es| :: (es + [e])[i] == es[i];
  }

  /** The retained entries are as many as those of the history, from any point in the window on. */
  ghost predicate Counts(es: seq<Entry>, history: seq<Entry>, last: nat) {
    forall since | since >= last - WINDOW :: Number(es, since) == Number(history, since)
  }

  lemma PushCounts(before: seq<Entry>, es: seq<Entry>, history: seq<Entry>, last: nat, e: Entry)
    requires Trimmed(before, es, e.time) && last <= e.time && Counts(before, history, last)
    ensures Counts(es + [e], history + [e], e.time)
  {
    hide Sum;
    forall since | since >= e.time - WINDOW
      ensures Number(es + [e], since) == Number(history + [e], since)
    {
      NumberAppend(es, e, since);
      NumberAppend(history, e, since);
      TrimmedSums(before, es, e.time, since, false);
    }
  }

  lemma NumberAppend(es: seq<Entry>, e: Entry, since: int)
    ensures Number(es + [e], since) == Number(es, since) + if e.time >= since then 1 else 0
  {
    assert (es + [e])[..|es|] == es;
  }

  /** When all that is retained is recent, its number is that of the window. */
  lemma WindowNumber(es: seq<Entry>, history: seq<Entry>, last: nat)
    requires Recent(es, last) && Counts(es, history, last)
    ensures |es| == Number(history, last - WINDOW)
  {
    NumberAll(es, last - WINDOW);
  }

  lemma HeldMerge(q: seq<Sample>, es: seq<Entry>, last: nat, time: nat, s: Sample, e: Entry)
    requires Held(q, es, last) && last <= time && |q| > 0 && e.lost == q[|q| - 1].lost
    requires s == q[|q| - 1].(value := Wrap32(q[|q| - 1].value + Wrap32(e.weight)))
    ensures |q| == |es| && Held(q[|q| - 1 := s], Amended(es, e.weight), time)
    ensures Sum(Amended(es, e.weight), 0, false) == Sum(es, 0, false) + e.weight
    ensures Sum(Amended(es, e.weight), 0, true) == Sum(es, 0, true) + if e.lost then e.weight else 0
  {
    hide Sum, Wrap32;
    WrapSum(es[|es| - 1].weight, e.weight);
    SumAmend(es, e.weight, 0, false);
    SumAmend(es, e.weight, 0, true);
  }

  /** Merging by the stamp is right exactly if nothing has lapsed. */
  lemma MergeExact(q: seq<Sample>, es: seq<Entry>, history: seq<Entry>, last: nat, time: nat, e: Entry)
    requires Held(q, es, last) && last <= time && |q| > 0 && e.time == time && e.lost == q[|q| - 1].lost
    requires q[|q| - 1].timestamp == Wrap32(time) && Exact(es, history, last)
    ensures |es| > 0 && (Exact(Amended(es, e.weight), history + [e], time) <==> NoLapse(es, time))
  {
    hide Sum, Wrap32;
    var n := |es| - 1;
    AgeTest(es[n], time);
    if NoLapse(es, time) {
      assert es[n].time == time == last;
      forall since, lostOnly | since >= time - WINDOW
        ensures Sum(Amended(es, e.weight), since, lostOnly) == Sum(history + [e], since, lostOnly)
      {
        SumAmend(es, e.weight, since, lostOnly);
        SumAppend(history, e, since, lostOnly);
      }
    } else {
      var i :| 0 <= i < |es| && Lapsed(es[i], time);
      assert Amended(es, e.weight)[i].time == es[i].time;
    }
  }

  /** What a record does to the retained entries: it joins the newest one, or follows those not found stale. */
  ghost predicate Advances(before: seq<Entry>, es: seq<Entry>, e: Entry) {
    || (before != [] && es == Amended(before, e.weight))
    || (es != [] && es[|es| - 1] == e && Trimmed(before, es[..|es| - 1], e.time))
  }

  lemma AdvancesMerge(before: seq<Entry>, e: Entry)
    requires before != []
    ensures Advances(before, Amended(before, e.weight), e)
  {
  }

  lemma AdvancesPush(before: seq<Entry>, es: seq<Entry>, e: Entry)
    requires Trimmed(before, es, e.time)
    ensures Advances(before, es + [e], e)
  {
    assert (es + [e])[..|es|] == es;
  }

  /** An entry one turn of the clock older than the record is not dropped. */
  lemma LapsedStays(a: Entry, es: seq<Entry>, e: Entry)
    requires a == Entry(0, 5, false) && e == Entry(U32_SIZE + 1, 1, false) && Advances([a], es, e)
    ensures Sum(es, 0, false) == 6
  {
    SumOne(a, 0);
    if es == Amended([a], 1) {
      SumAmend([a], 1, 0, false);
    } else {
      var kept := es[..|es| - 1];
      assert (e.time - a.time) % U32_SIZE == 1;
      assert kept == [a];
      assert es == [a] + [e];
      SumAppend([a], e, 0, false);
    }
  }

  lemma SumOne(a: Entry, since: int)
    ensures Sum([a], since, false) == if a.time >= since then a.weight else 0
  {
    assert [a][..0] == [];
    assert Sum([], since, false) == 0;
  }

  lemma SumTwo(a: Entry, b: Entry, since: int)
    ensures Sum([a, b], since, false) == (if a.time >= since then a.weight else 0) + if b.time >= since then b.weight else 0
  {
    SumOne(a, since);
    assert [a, b] == [a] + [b];
    SumAppend([a], b, since, false);
  }

  // ---- byte totals ----

  function Wrap64(x: int): (r: U64) { x % U64_SIZE }

  lemma Wrap64Sum(a: int, b: int)
    ensures Wrap64(Wrap64(a) + b) == Wrap64(a + b)
  {
    var x := a / U64_SIZE;
    assert Wrap64(a) == a - U64_SIZE * x;
    ModAdd(a + b, -x, U64_SIZE);
  }

  /** Words differ by a number exactly if that is not a multiple of their range. */
  lemma WordsApart(x: int, d: int)
    ensures Wrap64(x + d) == Wrap64(x) <==> Wrap64(d) == 0
  {
    Wrap64Sum(d, x);
    Wrap64Sum(x, d);
    Wrap64Sum(x + d, -x);
    Wrap64Sum(x, -x);
  }

  /** What an entry loses when it is stored in 32 bits and read back as an int32. */
  function Loss(weight: int): (r: int) {
    weight - Signed32(Wrap32(weight))
  }

  /** Taking back what was stored turns the loss into an error of the total. */
  lemma TakeBack(sum: int, error: int, weight: int)
    ensures Wrap64(Wrap64(sum + error) - Signed32(Wrap32(weight))) == Wrap64(sum - weight + (error + Loss(weight)))
  {
    hide Wrap64;
    Wrap64Sum(sum + error, -(Signed32(Wrap32(weight)) as int));
  }

  ghost function Losses(es: seq<Entry>): (r: int) {
    if es == [] then 0 else Losses(es[..|es| - 1]) + Loss(es[|es| - 1].weight)
  }

  lemma LossesAppend(es: seq<Entry>, e: Entry)
    ensures Losses(es + [e]) == Losses(es) + Loss(e.weight)
  {
    assert (es + [e])[..|es|] == es;
  }

  /** The entries at the front that the age test finds stale. */
  ghost function StaleFront(es: seq<Entry>, time: int): (r: seq<Entry>)
    ensures r <= es
  {
    if es == [] || (time - es[0].time) % U32_SIZE <= WINDOW then [] else [es[0]] + StaleFront(es[1..], time)
  }

  /** One step of dropping from the front, or its end. */
  lemma {:induction false} FrontStep(q: seq<Sample>, before: seq<Entry>, done: seq<Entry>, es: seq<Entry>, last: nat, time: nat)
    requires Held(q, es, last) && last <= time && |q| > 0 && StaleFront(before, time) == done + StaleFront(es, time)
    ensures |es| > 0
    ensures if Stale(q[0], Wrap32(time)) then StaleFront(before, time) == done + [es[0]] + StaleFront(es[1..], time)
            else StaleFront(before, time) == done
  {
    hide Wrap32;
    AgeTest(es[0], time);
  }

  lemma FrontEnd(q: seq<Sample>, es: seq<Entry>, last: nat, time: nat)
    requires Held(q, es, last)
    ensures |q| == 0 ==> es == [] && StaleFront(es, time) == []
  {
  }

  lemma LossesNone()
    ensures Losses([]) == 0
  {
  }

  /** No entry stands for lost packets. */
  ghost predicate Plain(es: seq<Entry>) {
    forall i | 0 <= i < |es| :: !es[i].lost
  }

  lemma PlainPop(es: seq<Entry>)
    requires Plain(es) && |es| > 0
    ensures Plain(es[1..])
  {
  }

  lemma PlainPush(es: seq<Entry>, e: Entry)
    requires Plain(es) && !e.lost
    ensures Plain(es + [e])
  {
  }

  lemma PlainMerge(es: seq<Entry>, w: int)
    requires Plain(es) && |es| > 0
    ensures Plain(Amended(es, w))
  {
  }

  lemma PlainNewest(q: seq<Sample>, es: seq<Entry>, last: nat)
    requires Held(q, es, last) && Plain(es) && |q| > 0
    ensures |es| == |q| && !q[|q| - 1].lost
  {
  }

  /** One entry per tick, each of a weight that fits 32 signed bits. */
  ghost predicate Narrow(es: seq<Entry>) {
    && (forall i | 0 <= i < |es| :: -HALF_RANGE <= es[i].weight < HALF_RANGE && !es[i].lost)
    && (forall i, j | 0 <= i < j < |es| :: es[i].time < es[j].time)
  }

  /** The bytes recorded so far at this very tick, together with the new ones, fit an int32. */
  ghost predicate TickFits(history: seq<Entry>, time: nat, bytes: int) {
    -HALF_RANGE <= Sum(history, time, false) + bytes < HALF_RANGE
  }

  /** Entries of small weight lose nothing. */
  lemma {:induction false} NarrowLosses(es: seq<Entry>)
    requires forall i | 0 <= i < |es| :: -HALF_RANGE <= es[i].weight < HALF_RANGE
    ensures Losses(es) == 0
  {
    if es != [] {
      var n := |es| - 1;
      NarrowLosses(es[..n]);
      SignedExact(es[n].weight);
    }
  }

  lemma NarrowFront(es: seq<Entry>, time: int)
    requires Narrow(es)
    ensures Losses(StaleFront(es, time)) == 0
  {
    hide StaleFront, Losses;
    NarrowLosses(StaleFront(es, time));
  }

  /** A merge keeps the weights small exactly if the bytes of the tick fit. */
  lemma NarrowMerge(q: seq<Sample>, es: seq<Entry>, history: seq<Entry>, last: nat, time: nat, bytes: int)
    requires Held(q, es, last) && last <= time && |q| > 0 && q[|q| - 1].timestamp == Wrap32(time)
    requires Exact(es, history, last) && Narrow(es) && NoLapse(es, time)
    ensures |es| > 0 && (Narrow(Amended(es, bytes)) <==> TickFits(history, time, bytes))
  {
    hide Wrap32;
    var n := |es| - 1;
    AgeTest(es[n], time);
    SumNone(es[..n], time, false);
    assert Sum(es, time, false) == es[n].weight;
    assert Amended(es, bytes)[n].weight == es[n].weight + bytes;
  }

  /** A new tick always fits. */
  lemma NarrowPush(q: seq<Sample>, before: seq<Entry>, es: seq<Entry>, history: seq<Entry>, last: nat, time: nat, bytes: S32)
    requires Held(q, before, last) && last <= time && (|q| > 0 ==> q[|q| - 1].timestamp != Wrap32(time))
    requires Exact(before, history, last) && Narrow(before) && Trimmed(before, es, time)
    ensures TickFits(history, time, bytes) && Narrow(es + [Entry(time, bytes, false)])
  {
    forall i | 0 <= i < |before|
      ensures before[i].time < time
    {
      assert before[|before| - 1].time < time;
    }
    SumNone(before, time, false);
    assert forall i | 0 <= i < |es| :: es[i] == before[|before| - |es| + i];
  }

  // ---- single entries ----

  lemma Nothing(time: nat)
    ensures NoLapse([], time) && StaleFront([], time) == [] && Losses([]) == 0
  {
  }

  lemma {:induction false} OneEntry(e: Entry, time: nat)
    requires e.time <= time < e.time + U32_SIZE
    ensures NoLapse([e], time)
    ensures StaleFront([e], time) == if time - e.time > WINDOW then [e] else []
    ensures Losses([e]) == Loss(e.weight) && Sum([e], 0, false) == e.weight
  {
    Remainder(time - e.time);
    assert [e][1..] == [] && [e][..0] == [];
    SumOne(e, 0);
    LossesNone();
  }

  lemma AmendedOne(e: Entry, w: int)
    ensures Amended([e], w) == [e.(weight := e.weight + w)]
  {
  }

  lemma {:induction false} OneHeld(q: seq<Sample>, e: Entry, last: nat)
    requires Held(q, [e], last)
    ensures |q| == 1 && q[0].timestamp == Wrap32(e.time)
  {
    assert [e][0] == e;
  }
}

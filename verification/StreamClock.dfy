/** The estimate of the peer's clock offset from echoed timestamps. All times are 16.16 seconds. */
module StreamClock {
  import opened Words
  import opened Modular

  const TEN_SECONDS := 10 * 65536

  datatype Sample = Sample(timestamp: U32, offset: S32)

  function OffsetSum(s: seq<Sample>): (r: int) {
    if s == [] then 0 else OffsetSum(s[1..]) + s[0].offset
  }

  lemma {:induction false} OffsetSumAppend(s: seq<Sample>, x: Sample)
    ensures OffsetSum(s + [x]) == OffsetSum(s) + x.offset
  {
    if s == [] {
      assert (s + [x])[1..] == [];
    } else {
      assert (s + [x])[1..] == s[1..] + [x];
      OffsetSumAppend(s[1..], x);
    }
  }

  lemma RatioBetween(b: nat, n: int, lo: int, hi: int)
    requires n > 0 && n * lo <= b <= n * hi
    ensures lo <= b / n <= hi
  {
    var q := b / n;
    assert n * q <= b < n * (q + 1);
    if q > hi {
      MulMonotone(n, hi + 1, q);
    }
    if q < lo {
      MulMonotone(n, q + 1, lo);
    }
  }

  lemma QuotientBetween(a: int, n: int, lo: int, hi: int)
    requires n > 0 && n * lo <= a <= n * hi
    ensures lo <= TruncDiv(a, n) <= hi
  {
    if a >= 0 {
      RatioBetween(a, n, lo, hi);
    } else {
      assert n * -hi == -(n * hi) && n * -lo == -(n * lo);
      RatioBetween(-a, n, -hi, -lo);
    }
  }

  // ---- what a feedback really measures ----

  /** A round trip: received at local time `time`, after `out` ticks to the peer and `back` from it. */
  datatype Trip = Trip(time: int, out: nat, back: nat) {
    function Rtt(): (r: nat) { out + back }

    /** The local time at which the echoed stamp was sent. */
    function Sent(): (r: int) { time - Rtt() }

    /** The peer's clock when it replied, for a peer that is `theta` ahead. */
    function Peer(theta: int): (r: int) { Sent() + out + theta }

    /** What halving the round trip estimates. */
    function Estimate(theta: int): (r: int) { theta + out - Rtt() / 2 }
  }

  /** The trip is short enough, and the offset small enough, for 32-bit signed arithmetic. */
  predicate Fits(t: Trip, theta: int) {
    t.Rtt() < HALF_RANGE && -HALF_RANGE <= t.Estimate(theta) < HALF_RANGE
  }

  function WireOffset(echo: U32, peer: U32, rtt: S32): (r: S32) {
    Signed32(Wrap32(peer - echo - Wrap32(TruncDiv(rtt, 2))))
  }

  /** The words of a trip give back its round-trip time ... */
  lemma WireRtt(t: Trip, theta: int)
    requires Fits(t, theta)
    ensures Signed32(Wrap32(Wrap32(t.time) - Wrap32(t.Sent()))) == t.Rtt()
  {
    hide Wrap32, Signed32;
    WrapDifference(t.time, t.Sent());
    SignedExact(t.Rtt());
  }

  /** ... and its estimate. */
  lemma WireEstimate(t: Trip, theta: int)
    requires Fits(t, theta)
    ensures WireOffset(Wrap32(t.Sent()), Wrap32(t.Peer(theta)), t.Rtt()) == t.Estimate(theta)
  {
    hide Wrap32, Signed32;
    var p, e, h := t.Peer(theta), t.Sent(), t.Rtt() / 2;
    SmallWord(h);
    WordDifference(p, e, h);
    SignedExact(t.Estimate(theta));
  }

  lemma SmallWord(x: nat)
    requires x < U32_SIZE
    ensures Wrap32(x) == x
  {
  }

  lemma WordDifference(a: int, b: int, c: int)
    ensures Wrap32(Wrap32(a) - Wrap32(b) - c) == Wrap32(a - b - c)
  {
    hide Wrap32;
    WrapDifference(a, b);
    WrapDifference(a - b, -c);
    WrapDifference(Wrap32(a) - Wrap32(b), -c);
  }

  /** The samples are the estimates of the trips. */
  ghost predicate Measures(s: seq<Sample>, trips: seq<Trip>, theta: int) {
    && |s| == |trips|
    && forall i | 0 <= i < |s| ::
         Fits(trips[i], theta) && s[i].timestamp == Wrap32(trips[i].time) && s[i].offset == trips[i].Estimate(theta)
  }

  ghost predicate Slower(trips: seq<Trip>, limit: nat) {
    forall i | 0 <= i < |trips| :: trips[i].Rtt() <= limit
  }

  lemma {:induction false} SumError(s: seq<Sample>, trips: seq<Trip>, theta: int, limit: nat)
    requires Measures(s, trips, theta) && Slower(trips, limit)
    ensures |s| * (theta - limit / 2) <= OffsetSum(s) <= |s| * (theta + (limit + 1) / 2)
  {
    if s != [] {
      SumError(s[1..], trips[1..], theta, limit);
      var e := s[0].offset;
      assert theta - limit / 2 <= e <= theta + (limit + 1) / 2;
      Unroll(|s|, theta - limit / 2);
      Unroll(|s|, theta + (limit + 1) / 2);
    }
  }

  lemma Unroll(n: int, x: int)
    ensures n * x == (n - 1) * x + x
  {
  }

  /** The mean errs by at most half of the longest round trip. */
  lemma MeanError(s: seq<Sample>, trips: seq<Trip>, theta: int, limit: nat)
    requires Measures(s, trips, theta) && Slower(trips, limit) && |s| > 0
    ensures -(limit / 2) <= TruncDiv(OffsetSum(s), |s|) - theta <= (limit + 1) / 2
  {
    hide OffsetSum, Measures, Slower, TruncDiv;
    SumError(s, trips, theta, limit);
    QuotientBetween(OffsetSum(s), |s|, theta - limit / 2, theta + (limit + 1) / 2);
  }

  lemma {:induction false} MeanFits(s: seq<Sample>)
    ensures -HALF_RANGE * |s| <= OffsetSum(s) <= (HALF_RANGE - 1) * |s|
  {
    if s != [] {
      MeanFits(s[1..]);
    }
  }

  /** The published mean needs no more than 32 bits. */
  lemma MeanExact(s: seq<Sample>)
    requires |s| > 0
    ensures Signed32(Wrap32(TruncDiv(OffsetSum(s), |s|))) == TruncDiv(OffsetSum(s), |s|)
  {
    MeanFits(s);
    QuotientBetween(OffsetSum(s), |s|, -HALF_RANGE, HALF_RANGE - 1);
    SignedExact(TruncDiv(OffsetSum(s), |s|));
  }

  // ---- which trips are retained ----

  /** The trips of the last ten seconds up to `last`, of all that were admitted. */
  ghost predicate Retained(trips: seq<Trip>, admitted: seq<Trip>, last: int) {
    && |trips| <= |admitted| && trips == admitted[|admitted| - |trips|..]
    && (forall i | 0 <= i < |admitted| - |trips| :: admitted[i].time < last - TEN_SECONDS)
    && (forall i, j | 0 <= i < j < |trips| :: trips[i].time <= trips[j].time)
    && forall i | 0 <= i < |trips| :: trips[i].time <= last
  }

  ghost predicate Fresh(trips: seq<Trip>, last: int) {
    forall i | 0 <= i < |trips| :: last - TEN_SECONDS <= trips[i].time
  }

  predicate Stale(s: Sample, now: U32) {
    Wrap32(now - s.timestamp) > TEN_SECONDS
  }

  /** The age has wrapped around into the ten seconds: the trip is old but looks fresh. */
  predicate Lapsed(t: Trip, now: int) {
    now - t.time > TEN_SECONDS && (now - t.time) % U32_SIZE <= TEN_SECONDS
  }

  ghost predicate NoLapse(trips: seq<Trip>, now: int) {
    forall i | 0 <= i < |trips| :: !Lapsed(trips[i], now)
  }

  /** The 32-bit age test finds only old trips stale, and all of them unless they have lapsed. */
  lemma StaleAge(t: Trip, now: int)
    requires t.time <= now
    ensures var stale := Wrap32(Wrap32(now) - Wrap32(t.time)) > TEN_SECONDS;
            && (stale ==> t.time < now - TEN_SECONDS && !Lapsed(t, now))
            && (!stale && !Lapsed(t, now) ==> now - TEN_SECONDS <= t.time)
  {
    WrapDifference(now, t.time);
    SmallRemainder(now - t.time);
  }

  lemma SmallRemainder(d: nat)
    ensures d % U32_SIZE <= d
  {
  }

  /** Admissions that follow one another sooner than the clock wraps, less ten seconds, never lapse. */
  lemma SoonerNoLapse(trips: seq<Trip>, last: int, now: int)
    requires Fresh(trips, last) && last <= now < last + U32_SIZE - TEN_SECONDS
    requires forall i | 0 <= i < |trips| :: trips[i].time <= last
    ensures NoLapse(trips, now)
  {
  }

  /** While stale samples are dropped for an admission at `now`. */
  ghost predicate Dropping(s: seq<Sample>, before: seq<Trip>, trips: seq<Trip>, admitted: seq<Trip>, theta: int, now: int) {
    && Measures(s, trips, theta) && Retained(trips, admitted, now) && Trimmed(before, trips, now)
  }

  /** What is left after dropping, from the front, trips that have not lapsed. */
  ghost predicate Trimmed(before: seq<Trip>, trips: seq<Trip>, now: int) {
    && |trips| <= |before| && trips == before[|before| - |trips|..]
    && forall i | 0 <= i < |before| - |trips| :: !Lapsed(before[i], now)
  }

  lemma DroppingStart(s: seq<Sample>, trips: seq<Trip>, admitted: seq<Trip>, theta: int, last: int, now: int)
    requires Measures(s, trips, theta) && Retained(trips, admitted, last)
    requires if s == [] then admitted == [] else last <= now
    ensures Dropping(s, trips, trips, admitted, theta, now)
  {
    hide Fits;
  }

  lemma {:induction false} DroppingPop(s: seq<Sample>, before: seq<Trip>, trips: seq<Trip>, admitted: seq<Trip>, theta: int, now: int)
    requires Dropping(s, before, trips, admitted, theta, now) && s != [] && Stale(s[0], Wrap32(now))
    ensures |s| == |trips| && Dropping(s[1..], before, trips[1..], admitted, theta, now)
  {
    hide Fits, Wrap32, Lapsed;
    StaleAge(trips[0], now);
    var k, j := |admitted| - |trips|, |before| - |trips|;
    assert admitted[k] == trips[0] && before[j] == trips[0];
    assert trips[1..] == admitted[k + 1..] && trips[1..] == before[j + 1..];
  }

  lemma {:induction false} DroppingParts(s: seq<Sample>, before: seq<Trip>, trips: seq<Trip>, admitted: seq<Trip>, theta: int, now: int)
    requires Dropping(s, before, trips, admitted, theta, now)
    ensures Measures(s, trips, theta) && Retained(trips, admitted, now)
  {
    hide Measures, Retained;
  }

  /** With the front fresh by the test: everything is fresh, unless some trip has lapsed. */
  lemma {:induction false} FreshIff(s: seq<Sample>, before: seq<Trip>, trips: seq<Trip>, admitted: seq<Trip>, theta: int, now: int)
    requires Dropping(s, before, trips, admitted, theta, now) && (s != [] ==> !Stale(s[0], Wrap32(now)))
    ensures Fresh(trips, now) <==> NoLapse(before, now)
  {
    hide Fits, Wrap32;
    var j := |before| - |trips|;
    if NoLapse(before, now) {
      if s != [] {
        StaleAge(trips[0], now);
        assert !Lapsed(before[j], now);
      }
    } else {
      var i :| 0 <= i < |before| && Lapsed(before[i], now);
      assert i >= j && trips[i - j] == before[i];
    }
  }

  lemma Admit(s: seq<Sample>, trips: seq<Trip>, admitted: seq<Trip>, theta: int, x: Sample, t: Trip)
    requires Measures(s, trips, theta) && Retained(trips, admitted, t.time)
    requires Fits(t, theta) && x == Sample(Wrap32(t.time), t.Estimate(theta))
    ensures Measures(s + [x], trips + [t], theta)
    ensures Retained(trips + [t], admitted + [t], t.time) && (Fresh(trips + [t], t.time) <==> Fresh(trips, t.time))
  {
    var all, kept := admitted + [t], trips + [t];
    assert kept == all[|all| - |kept|..];
    assert forall i | 0 <= i < |trips| :: kept[i] == trips[i];
  }

  lemma SumPop(s: seq<Sample>)
    requires s != []
    ensures OffsetSum(s) == OffsetSum(s[1..]) + s[0].offset
  {
  }

  /** The mean of the old value and the sample, or the first sample. */
  function Smoothed(before: U32, rtt: U32): (r: U32)
    ensures before <= rtt ==> before <= r <= rtt
    ensures rtt <= before ==> r <= before && (rtt > 0 ==> rtt <= r)
    ensures before == 0 ==> r == rtt
    ensures before > 0 ==> 2 * r <= before + rtt < 2 * r + 2
  {
    if before != 0 then (before + rtt) / 2 else rtt
  }

  /** A round trip becomes the minimum if there is none yet, or if it is smaller. */
  predicate Lowers(minimum: U32, rtt: U32) {
    rtt > 0 && (minimum == 0 || rtt < minimum)
  }

  /** Otherwise the minimum is raised a little once its update time has passed. */
  predicate Creeps(minimum: U32, update: U32, rtt: U32, now: U32) {
    !Lowers(minimum, rtt) && minimum != 0 && Signed32(Wrap32(now - update)) > 0
  }

  function NextMinimum(minimum: U32, update: U32, rtt: U32, now: U32): (r: U32) {
    if Lowers(minimum, rtt) then rtt else if Creeps(minimum, update, rtt, now) then Wrap32(minimum + 65) else minimum
  }

  /** On unwrapped clocks: the minimum is raised when its update time has passed and no trip lowers it. */
  lemma CreepsExact(minimum: U32, update: int, rtt: U32, now: int)
    requires -HALF_RANGE < now - update < HALF_RANGE
    ensures Creeps(minimum, Wrap32(update), rtt, Wrap32(now)) <==> minimum != 0 && (rtt == 0 || rtt >= minimum) && now > update
  {
    hide Wrap32, Signed32;
    WrapDifference(now, update);
    SignedExact(now - update);
  }

  // ---- the minimum over a whole run ----

  /** A round trip that was looked at, and whether it raised the minimum. */
  datatype Echoed = Echoed(rtt: nat, raised: bool)

  /** How often the minimum was raised from the i-th round trip on. */
  ghost function Raises(h: seq<Echoed>, i: nat): (n: nat) {
    if |h| <= i then 0 else Raises(h[..|h| - 1], i) + if h[|h| - 1].raised then 1 else 0
  }

  lemma {:induction false} RaisesFewer(h: seq<Echoed>, i: nat)
    ensures Raises(h, i) <= Raises(h, 0)
  {
    if |h| > i {
      RaisesFewer(h[..|h| - 1], i);
    }
  }

  /** The minimum is no less than the smallest round trip, and no more than any, but for the raises since. */
  ghost predicate Tracks(h: seq<Echoed>, m: nat) {
    if forall i | 0 <= i < |h| :: h[i].rtt == 0 then m == 0
    else
      && (exists i | 0 <= i < |h| :: 0 < h[i].rtt <= m)
      && forall i | 0 <= i < |h| && h[i].rtt > 0 :: m <= h[i].rtt + 65 * Raises(h, i)
  }

  /** The raises alone cannot take the minimum round the clock. */
  ghost predicate Bounded(h: seq<Echoed>) {
    HALF_RANGE + 65 * Raises(h, 0) <= U32_SIZE
  }

  lemma RaisesAppend(h: seq<Echoed>, x: Echoed, i: nat)
    requires i <= |h|
    ensures Raises(h + [x], i) == Raises(h, i) + if x.raised then 1 else 0
  {
    assert (h + [x])[..|h|] == h;
  }

  lemma TracksBelow(h: seq<Echoed>, m: nat)
    requires Tracks(h, m) && forall i | 0 <= i < |h| :: h[i].rtt < HALF_RANGE
    ensures m < HALF_RANGE + 65 * Raises(h, 0)
  {
    if i :| 0 <= i < |h| && 0 < h[i].rtt <= m {
      RaisesFewer(h, i);
    }
  }

  lemma TracksStep(h: seq<Echoed>, m: U32, m': nat, x: Echoed)
    requires Tracks(h, m) && (x.raised ==> m > 0 && (x.rtt == 0 || x.rtt >= m) && m' == m + 65)
    requires !x.raised ==> m' == if x.rtt > 0 && (m == 0 || x.rtt < m) then x.rtt else m
    ensures Tracks(h + [x], m')
  {
    hide Raises;
    var more := h + [x];
    assert more[|h|] == x;
    assert forall i | 0 <= i < |h| :: more[i] == h[i];
    forall i | 0 <= i < |more| && more[i].rtt > 0
      ensures m' <= more[i].rtt + 65 * Raises(more, i)
    {
      RaisesAppend(h, x, i);
    }
    if i :| 0 <= i < |h| && 0 < h[i].rtt <= m {
      assert more[i].rtt <= m;
    }
  }

  class Clock {
    /** The sample list, oldest first. */
    var list: seq<Sample>
    var offsetSum: int
    var samples: U32
    var smoothedRtt: U32
    var lastEcho: U32
    var minRtt: U32
    var minRttUpdate: U32
    var offset: S32
    var haveEcho: bool

    ghost var theta: int
    ghost var trips: seq<Trip>
    ghost var admitted: seq<Trip>
    ghost var last: int
    /** Every round trip that was not reordered. */
    ghost var echoes: seq<Echoed>

    /** The minimum is that of all round trips, but for its slow rise. */
    ghost predicate Tracked()
      reads this`echoes, this`minRtt
    {
      && (forall i | 0 <= i < |echoes| :: echoes[i].rtt < HALF_RANGE)
      && (Bounded(echoes) ==> Tracks(echoes, minRtt))
    }

    /** The sums match the list, and the published offset is its mean. */
    ghost predicate Valid()
      reads this
    {
      && |list| < U32_SIZE - 1 && samples == |list| && offsetSum == OffsetSum(list)
      && (list != [] ==> offset == TruncDiv(OffsetSum(list), |list|))
    }

    /** The list holds all trips admitted in the ten seconds before the last admission, and the newest in any case. */
    ghost predicate Truthful()
      reads this
    {
      Measures(list, trips, theta) && Retained(trips, admitted, last) && (list == [] ==> admitted == [])
    }

    /** It holds no others. */
    ghost predicate Recent()
      reads this
    {
      Fresh(trips, last)
    }

    constructor (ghost truth: int)
      ensures Valid() && Truthful() && Recent() && theta == truth && admitted == [] && list == []
      ensures !haveEcho && minRtt == 0 && minRttUpdate == 0 && Tracked() && echoes == [] && smoothedRtt == 0 && offset == 0
    {
      list, offsetSum, samples, smoothedRtt := [], 0, 0, 0;
      lastEcho, minRtt, minRttUpdate, offset, haveEcho := 0, 0, 0, 0, false;
      theta, trips, admitted, last, echoes := truth, [], [], 0, [];
    }

    /** The echo is older than the previous one by more than two update intervals. */
    predicate Reordered(echo: U32)
      reads this
    {
      haveEcho && Signed32(Wrap32(echo - lastEcho)) < -130
    }

    /** On unwrapped clocks: the echo was sent more than 130 ticks before the last one. */
    lemma ReorderedExact(echo: int, before: int)
      requires lastEcho == Wrap32(before) && -HALF_RANGE <= echo - before < HALF_RANGE
      ensures Reordered(Wrap32(echo)) <==> haveEcho && echo < before - 130
    {
      hide Wrap32, Signed32;
      WrapDifference(echo, before);
      SignedExact(echo - before);
    }

    /**
     * One timestamp feedback, as the trip `t` of a peer that is `theta` ahead, not before the last admission. After
     * an admission the list holds only the last ten seconds if and only if no retained trip has lapsed.
     */
    method Feedback(echo: U32, peer: U32, now: U32, memory: bool, ghost t: Trip)
      requires Valid() && Truthful() && Tracked() && |list| < U32_SIZE - 2
      requires echo == Wrap32(t.Sent()) && peer == Wrap32(t.Peer(theta)) && now == Wrap32(t.time)
      requires Fits(t, theta) && (list != [] ==> last <= t.time)
      modifies this
      ensures Valid() && Truthful() && Tracked() && theta == old(theta)
      ensures old(Reordered(echo)) ==> unchanged(this)
      ensures !old(Reordered(echo)) ==> haveEcho && lastEcho == echo && smoothedRtt == Smoothed(old(smoothedRtt), t.Rtt())
      ensures !old(Reordered(echo)) ==>
                && minRtt == NextMinimum(old(minRtt), old(minRttUpdate), t.Rtt(), now)
                && echoes == old(echoes) + [Echoed(t.Rtt(), Creeps(old(minRtt), old(minRttUpdate), t.Rtt(), now))]
      ensures if !old(Reordered(echo)) && memory && t.Rtt() <= Wrap32(minRtt + 65)
              then admitted == old(admitted) + [t] && last == t.time && list != []
                   && (Recent() <==> NoLapse(old(trips), t.time))
              else trips == old(trips) && admitted == old(admitted) && list == old(list) && offset == old(offset) && last == old(last)
    {
      hide Wrap32, Signed32, TruncDiv, OffsetSum, Measures, Retained, Fresh, NoLapse, Fits;
      if Reordered(echo) {
        return;
      }
      haveEcho, lastEcho := true, echo;
      var rtt := Signed32(Wrap32(now - echo));
      WireRtt(t, theta);
      WireEstimate(t, theta);
      var nonnegative := if rtt > 0 then rtt else 0;
      smoothedRtt := Smoothed(smoothedRtt, nonnegative);
      TrackMinimum(rtt, nonnegative, now);
      if nonnegative > Wrap32(minRtt + 65) || !memory {
        return;
      }
      Publish(Sample(now, WireOffset(echo, peer, rtt)), now, t);
    }

    /** The smallest round trip, which creeps up by a millisecond every quarter second. */
    method TrackMinimum(rtt: S32, nonnegative: U32, now: U32)
      requires nonnegative == (if rtt > 0 then rtt else 0) && Tracked()
      modifies this`minRtt, this`minRttUpdate, this`echoes
      ensures Tracked()
      ensures echoes == old(echoes) + [Echoed(nonnegative, Creeps(old(minRtt), old(minRttUpdate), nonnegative, now))]
      ensures minRtt == NextMinimum(old(minRtt), old(minRttUpdate), nonnegative, now)
      ensures minRttUpdate == if Creeps(old(minRtt), old(minRttUpdate), nonnegative, now) then Wrap32(now + 16384) else old(minRttUpdate)
    {
      hide Tracks, Raises;
      NoteEcho(nonnegative, now);
      echoes := echoes + [Echoed(nonnegative, Creeps(minRtt, minRttUpdate, nonnegative, now))];
      if rtt > 0 && (minRtt == 0 || nonnegative < minRtt) {
        minRtt := nonnegative;
      } else if minRtt != 0 && Signed32(Wrap32(now - minRttUpdate)) > 0 {
        minRtt := Wrap32(minRtt + 65);
        minRttUpdate := Wrap32(now + 65536 / 4);
      }
    }

    lemma NoteEcho(rtt: U32, now: U32)
      requires Tracked() && rtt < HALF_RANGE
      ensures var more := echoes + [Echoed(rtt, Creeps(minRtt, minRttUpdate, rtt, now))];
              Bounded(more) ==> Tracks(more, NextMinimum(minRtt, minRttUpdate, rtt, now))
    {
      hide Tracks, Raises;
      var x := Echoed(rtt, Creeps(minRtt, minRttUpdate, rtt, now));
      RaisesAppend(echoes, x, 0);
      if Bounded(echoes + [x]) {
        TracksBelow(echoes, minRtt);
        TracksStep(echoes, minRtt, NextMinimum(minRtt, minRttUpdate, rtt, now), x);
      }
    }

    /** Drops the stale samples, appends the new one and publishes the mean. */
    method Publish(sample: Sample, now: U32, ghost t: Trip)
      requires Valid() && Truthful() && |list| < U32_SIZE - 2 && now == Wrap32(t.time)
      requires Fits(t, theta) && sample == Sample(now, t.Estimate(theta)) && (list != [] ==> last <= t.time)
      modifies this`list, this`offsetSum, this`samples, this`offset, this`trips, this`admitted, this`last
      ensures Valid() && Truthful() && admitted == old(admitted) + [t] && last == t.time && list != []
      ensures Recent() <==> NoLapse(old(trips), t.time)
    {
      hide TruncDiv, OffsetSum, Measures, Retained, Fresh, NoLapse, Fits, Wrap32, Signed32, Dropping;
      DroppingStart(list, trips, admitted, theta, last, t.time);
      DropStale(now, t);
      AppendSample(sample, t);
      PublishMean();
    }

    method AppendSample(sample: Sample, ghost t: Trip)
      requires samples == |list| < U32_SIZE - 2 && offsetSum == OffsetSum(list)
      requires Measures(list, trips, theta) && Retained(trips, admitted, t.time)
      requires Fits(t, theta) && sample == Sample(Wrap32(t.time), t.Estimate(theta))
      modifies this`list, this`offsetSum, this`samples, this`trips, this`admitted, this`last
      ensures samples == |list| < U32_SIZE - 1 && offsetSum == OffsetSum(list) && list != []
      ensures Truthful() && admitted == old(admitted) + [t] && last == t.time
      ensures Recent() <==> Fresh(old(trips), t.time)
    {
      hide OffsetSum, Measures, Retained, Fresh, Fits, Wrap32;
      Admit(list, trips, admitted, theta, sample, t);
      OffsetSumAppend(list, sample);
      list, trips, admitted, last := list + [sample], trips + [t], admitted + [t], t.time;
      offsetSum, samples := offsetSum + sample.offset, samples + 1;
    }

    method PublishMean()
      requires samples == |list| < U32_SIZE - 1 && offsetSum == OffsetSum(list) && list != []
      modifies this`offset
      ensures Valid()
    {
      hide TruncDiv, OffsetSum, Wrap32, Signed32;
      MeanExact(list);
      offset := Signed32(Wrap32(TruncDiv(offsetSum, samples)));
    }

    method DropStale(now: U32, ghost t: Trip)
      requires samples == |list| && offsetSum == OffsetSum(list)
      requires Dropping(list, trips, trips, admitted, theta, t.time) && now == Wrap32(t.time)
      modifies this`list, this`offsetSum, this`samples, this`trips
      ensures samples == |list| <= |old(list)| && offsetSum == OffsetSum(list)
      ensures Measures(list, trips, theta) && Retained(trips, admitted, t.time)
      ensures Fresh(trips, t.time) <==> NoLapse(old(trips), t.time)
    {
      hide OffsetSum, Stale, Wrap32, Dropping, Fresh, NoLapse;
      while list != [] && Stale(list[0], now)
        invariant samples == |list| <= |old(list)| && offsetSum == OffsetSum(list)
        invariant Dropping(list, old(trips), trips, admitted, theta, t.time)
        decreases |list|
      {
        SumPop(list);
        DroppingPop(list, old(trips), trips, admitted, theta, t.time);
        offsetSum := offsetSum - list[0].offset;
        samples := samples - 1;
        list, trips := list[1..], trips[1..];
      }
      FreshIff(list, old(trips), trips, admitted, theta, t.time);
      DroppingParts(list, old(trips), trips, admitted, theta, t.time);
    }

    /** The published offset is off by at most half of the longest retained round trip, rounded up. */
    lemma OffsetError(limit: nat)
      requires Valid() && Truthful() && list != [] && Slower(trips, limit)
      ensures -(limit / 2) <= offset - theta <= (limit + 1) / 2
    {
      MeanError(list, trips, theta, limit);
    }

    /** How long to wait before a retransmission: five quarters of a clamped round trip. */
    function RetryTicks(): (r: U32)
      reads this
      ensures (smoothedRtt <= 65 ==> r == 81) && (smoothedRtt >= 3276 ==> r == 4095)
      ensures 81 <= r <= 4095 && (65 <= smoothedRtt <= 3276 ==> 4 * r <= 5 * smoothedRtt < 4 * (r + 1))
    {
      var low := if smoothedRtt < 65 then 65 else smoothedRtt;
      var ticks := if low > 3276 then 3276 else low;
      ticks + ticks / 4
    }

    function FeedbackTicks(): (r: U32)
      reads this
      ensures (smoothedRtt <= 263 ==> r == 65) && (smoothedRtt >= 3276 ==> r == 819)
      ensures 65 <= r <= 819 && (260 <= smoothedRtt <= 3276 ==> 4 * r <= smoothedRtt < 4 * (r + 1))
    {
      var ticks := (if smoothedRtt > 3276 then 3276 else smoothedRtt) / 4;
      if ticks < 65 then 65 else ticks
    }
  }

  /** A trip of ten ticks each way, as its words read at any turn of the clock. */
  lemma ShortTrip(turn: nat)
    ensures var t := Trip(U32_SIZE * turn + 100, 10, 10);
            && Fits(t, 0) && Wrap32(t.Sent()) == 80 && Wrap32(t.Peer(0)) == 90 && Wrap32(t.time) == 100
  {
    ModAdd(80, turn, U32_SIZE);
    ModAdd(90, turn, U32_SIZE);
    ModAdd(100, turn, U32_SIZE);
  }

  lemma OnlyTrip(s: seq<Sample>, trips: seq<Trip>, t: Trip, theta: int, last: int)
    requires Measures(s, trips, theta) && Retained(trips, [t], last) && s != []
    ensures trips == [t] && |s| == 1
  {
  }

  lemma LapsedTurn(t: Trip)
    ensures !NoLapse([t], t.time + U32_SIZE)
  {
    assert Lapsed([t][0], t.time + U32_SIZE);
  }

  /** A feedback one turn of the clock after another leaves the old trip in the mean. */
  method LapsedTripStays() returns (c: Clock)
    ensures fresh(c) && c.Valid() && c.Truthful() && c.last == U32_SIZE + 100
    ensures c.admitted == [Trip(100, 10, 10), Trip(U32_SIZE + 100, 10, 10)] && !c.Recent()
  {
    hide OffsetSum, TruncDiv, Measures, Retained, Fresh, NoLapse, Fits, Clock.Tracked;
    c := new Clock(0);
    var a, b := Trip(100, 10, 10), Trip(U32_SIZE + 100, 10, 10);
    ShortTrip(0);
    c.Feedback(80, 90, 100, true, a);
    assert c.admitted == [a] && c.minRtt == 20;
    OnlyTrip(c.list, c.trips, a, 0, c.last);
    ShortTrip(1);
    LapsedTurn(a);
    c.Feedback(80, 90, 100, true, b);
    assert c.minRtt >= 20;
  }
}

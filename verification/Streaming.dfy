/**
 * Launching a stream: retired request ids, the authorization exchange inside a launch, and how a launch
 * ends. Cryptography and sending are given by their results; every visitor is one step.
 */
module Streaming {
  import opened Words
  import opened Wrappers
  import opened Modular

  type Bytes = seq<U8>

  /** How a launch can end, as its owner is told. */
  datatype Notice = Succeeded | Failed | AuthorizationFailed

  datatype Outcome = Waiting | Accepted | Exhausted | ResourceFailure

  /** A host's answer to a streaming request. */
  datatype Reply = InProgress | Unauthorized | Success(decrypted: bool) | Refused

  /** A host's answer to an authorization request. */
  datatype Verdict = Granted(hasKey: bool, key: Bytes, hasToken: bool, derived: Option<Bytes>) | Pending | Denied

  /** What goes wrong, if anything, while a launch is set up. */
  datatype Setup = Fine | NoState | NoResource | NoPin

  /** What the client shares between a launch and everything else it does. */
  datatype Shared = Shared(launchId: U32, host: nat, authorizing: bool, hasTicket: bool,
                           cacheKey: Bytes, cacheOk: bool, secret: Bytes)

  /** One attempt to send: when, what, whether it worked, and whether a timer made it. */
  datatype Sending = Sending(now: int, authorizing: bool, ok: bool, timer: bool)

  /** Seconds until the same may be sent again. */
  function Delay(authorizing: bool): (r: int) { if authorizing then 3 else 1 }

  /** Only the last send can have failed, and a timer sends no sooner than the delay after the one before. */
  ghost predicate Paced(sends: seq<Sending>) {
    forall k | 0 <= k < |sends| - 1 :: May(sends[k], sends[k + 1])
  }

  predicate May(before: Sending, after: Sending) {
    before.ok && (after.timer ==> after.now >= before.now + Delay(before.authorizing))
  }

  predicate LastFailed(sends: seq<Sending>) {
    sends != [] && !sends[|sends| - 1].ok
  }

  /** The timer's memory agrees with what was sent. */
  ghost predicate Remembers(sends: seq<Sending>, hasSent: bool, nextSend: int) {
    && Paced(sends) && (hasSent <==> exists k | 0 <= k < |sends| :: sends[k].ok)
    && if sends == [] then nextSend == 0
       else var last := sends[|sends| - 1]; last.ok ==> nextSend == last.now + Delay(last.authorizing)
  }

  lemma RemembersStep(sends: seq<Sending>, hasSent: bool, nextSend: int, x: Sending)
    requires Remembers(sends, hasSent, nextSend) && !LastFailed(sends) && (x.timer ==> x.now >= nextSend)
    ensures if x.ok then Remembers(sends + [x], true, x.now + Delay(x.authorizing))
            else Remembers(sends + [x], hasSent, nextSend)
    ensures LastFailed(sends + [x]) <==> !x.ok
  {
    var more := sends + [x];
    assert more[|sends|] == x;
    if hasSent {
      var k :| 0 <= k < |sends| && sends[k].ok;
      assert more[k].ok;
    }
  }

  datatype Requested = Kept | Started(launch: Launch) | Rejected

  const RETIRED := 8

  // ---- retired request ids ----

  /** The ring holds the most recent retired ids, and zeros before there were as many. */
  ghost predicate RingOk(ring: seq<U32>, next: U32, retired: seq<U32>) {
    && |ring| == RETIRED && next == Wrap32(|retired|)
    && (forall k | |retired| <= k < RETIRED :: ring[k] == 0)
    && forall k | 0 <= k < |retired| && |retired| - RETIRED <= k :: ring[k % RETIRED] == retired[k]
  }

  /** One of the eight ids retired last. */
  ghost predicate Recent(retired: seq<U32>, id: U32) {
    exists k | 0 <= k < |retired| && |retired| - RETIRED <= k :: retired[k] == id
  }

  /** The ring knows exactly the recent ids, besides zero. */
  lemma RingKnows(ring: seq<U32>, next: U32, retired: seq<U32>, id: U32)
    requires RingOk(ring, next, retired) && id != 0
    ensures id in ring <==> Recent(retired, id)
  {
    if id in ring {
      var j :| 0 <= j < RETIRED && ring[j] == id;
      var n := |retired|;
      if n < RETIRED {
        assert retired[j] == ring[j % RETIRED];
      } else {
        var d := SlotOffset(n - RETIRED, j, RETIRED);
        assert retired[n - RETIRED + d] == ring[j];
      }
    }
  }

  lemma RingSlot(n: nat)
    ensures Wrap32(n) % RETIRED == n % RETIRED
  {
    var q := n / U32_SIZE;
    assert n == Wrap32(n) + RETIRED * (U32_SIZE / RETIRED * q);
    ModAdd(Wrap32(n), U32_SIZE / RETIRED * q, RETIRED);
  }

  lemma RingPush(ring: seq<U32>, next: U32, retired: seq<U32>, id: U32)
    requires RingOk(ring, next, retired)
    ensures RingOk(ring[next % RETIRED := id], Wrap32(next + 1), retired + [id])
  {
    var n, r := |retired|, retired + [id];
    RingSlot(n);
    WrapDifference(n, 1);
    var ring' := ring[next % RETIRED := id];
    forall k | 0 <= k < |r| && |r| - RETIRED <= k
      ensures ring'[k % RETIRED] == r[k]
    {
      if k < n {
        SlotDistinct(k, n);
      }
    }
  }

  lemma SlotDistinct(k: nat, n: nat)
    requires n - RETIRED < k < n
    ensures k % RETIRED != n % RETIRED
  {
    if k % RETIRED == n % RETIRED {
      var a, b := k / RETIRED, n / RETIRED;
      assert RETIRED * (b - a) == n - k;
      MulBetween(RETIRED, b - a, n - k);
    }
  }

  lemma RememberedPaced(sends: seq<Sending>, hasSent: bool, nextSend: int)
    requires Remembers(sends, hasSent, nextSend)
    ensures Paced(sends)
  {
  }

  /** Zero, or retired recently. */
  ghost predicate Taken(retired: seq<U32>, id: U32) {
    id == 0 || Recent(retired, id)
  }

  function Retiring(retired: seq<U32>, id: U32): (r: seq<U32>) {
    retired + if id == 0 then [] else [id]
  }

  /** The id is the first draw that is not taken. */
  ghost predicate FirstFree(draws: seq<U32>, retired: seq<U32>, id: U32) {
    exists i | 0 <= i < |draws| ::
      draws[i] == id && !Taken(retired, id) && forall j | 0 <= j < i :: Taken(retired, draws[j])
  }

  class Client {
    var lastLaunchId: U32
    var lastLaunchHost: nat
    var lastLaunchAuthorizing: bool
    var lastLaunchHasTicket: bool
    const canceled: array<U32>
    var canceledNext: U32
    /** The most recent authorization key and what came of it. */
    var cacheKey: Bytes
    var cacheOk: bool
    var secret: Bytes

    ghost var retired: seq<U32>

    ghost predicate Valid()
      reads this, canceled
    {
      canceled.Length == RETIRED && RingOk(canceled[..], canceledNext, retired)
    }

    constructor (key: Bytes)
      ensures Valid() && lastLaunchId == 0 && retired == [] && secret == key && fresh(canceled)
      ensures !lastLaunchAuthorizing && !lastLaunchHasTicket && cacheKey == [] && !cacheOk
    {
      lastLaunchId, lastLaunchHost, lastLaunchAuthorizing, lastLaunchHasTicket := 0, 0, false, false;
      canceled := new U32[RETIRED](_ => 0);
      canceledNext, cacheKey, cacheOk, secret, retired := 0, [], false, key, [];
    }

    /** Gives up the current launch, if any, and remembers its id. */
    method Retire() returns (id: U32)
      requires Valid()
      modifies this`lastLaunchId, this`lastLaunchAuthorizing, this`lastLaunchHasTicket, this`canceledNext, this`retired, canceled
      ensures Valid() && lastLaunchId == 0 && !lastLaunchAuthorizing && !lastLaunchHasTicket && id == old(lastLaunchId)
      ensures retired == old(retired) + if id == 0 then [] else [id]
    {
      hide RingOk, Wrap32;
      id := lastLaunchId;
      if id != 0 {
        ghost var ring := canceled[..];
        RingPush(ring, canceledNext, retired, id);
        canceled[canceledNext % RETIRED] := id;
        assert canceled[..] == ring[canceledNext % RETIRED := id];
        canceledNext := Wrap32(canceledNext + 1);
        retired := retired + [id];
      }
      lastLaunchId := 0;
      lastLaunchHasTicket, lastLaunchAuthorizing := false, false;
    }

    /** Whether a drawn id is zero or was retired recently. */
    method Collides(id: U32) returns (r: bool)
      requires Valid()
      ensures r <==> id == 0 || Recent(retired, id)
    {
      hide RingOk, Recent;
      r := id == 0;
      for i := 0 to RETIRED
        invariant r <==> id == 0 || id in canceled[..i]
      {
        r := r || canceled[i] == id;
        assert canceled[..i + 1] == canceled[..i] + [canceled[i]];
      }
      assert canceled[..RETIRED] == canceled[..];
      if id != 0 {
        RingKnows(canceled[..], canceledNext, retired, id);
      }
    }

    method ClearLaunch(id: U32)
      modifies this`lastLaunchId, this`lastLaunchAuthorizing, this`lastLaunchHasTicket
      ensures lastLaunchId == (if old(lastLaunchId) == id then 0 else old(lastLaunchId))
      ensures old(lastLaunchId) == id ==> !lastLaunchAuthorizing && !lastLaunchHasTicket
      ensures old(lastLaunchId) != id ==> lastLaunchAuthorizing == old(lastLaunchAuthorizing) && lastLaunchHasTicket == old(lastLaunchHasTicket)
    {
      if lastLaunchId == id {
        lastLaunchId := 0;
        lastLaunchHasTicket, lastLaunchAuthorizing := false, false;
      }
    }

    /** Other requests, cancels and authorizations leave the shared fields as they please. */
    method Overwrite(to: Shared)
      modifies this`lastLaunchId, this`lastLaunchHost, this`lastLaunchAuthorizing, this`lastLaunchHasTicket,
               this`cacheKey, this`cacheOk, this`secret
      ensures Shared(lastLaunchId, lastLaunchHost, lastLaunchAuthorizing, lastLaunchHasTicket, cacheKey, cacheOk, secret) == to
    {
      lastLaunchId, lastLaunchHost := to.launchId, to.host;
      lastLaunchAuthorizing, lastLaunchHasTicket := to.authorizing, to.hasTicket;
      cacheKey, cacheOk, secret := to.cacheKey, to.cacheOk, to.secret;
    }

    /** A repeated request to a host that is already asked keeps the launch; anything else replaces it. */
    predicate SameWaitingHost(host: nat)
      reads this
    {
      lastLaunchId != 0 && !lastLaunchHasTicket && !lastLaunchAuthorizing && lastLaunchHost == host
    }

    /**
     * Starts a launch with the first drawn id that does not collide: it is not zero and differs from the
     * eight ids retired last. It is rejected when a resource is missing or every draw collided; without memory
     * for a state the old launch stays, otherwise there is none.
     */
    method Request(host: nat, draws: seq<U32>, setup: Setup, generation: nat) returns (r: Requested)
      requires Valid()
      modifies this, canceled
      ensures Valid() && secret == old(secret) && cacheKey == old(cacheKey)
      ensures r.Kept? <==>
                old(lastLaunchId != 0 && lastLaunchHost == host && !(lastLaunchHasTicket || lastLaunchAuthorizing))
      ensures r.Kept? ==> unchanged(this) && unchanged(canceled)
      ensures !r.Kept? && setup == NoState ==> r.Rejected? && unchanged(this) && unchanged(canceled)
      ensures !r.Kept? ==> old(retired) <= retired && |retired| <= |old(retired)| + 2
      ensures !r.Kept? && setup != NoState && old(lastLaunchId) != 0 ==>
                |retired| > |old(retired)| && retired[|old(retired)|] == old(lastLaunchId)
      ensures r.Started? ==>
                && fresh(r.launch) && r.launch.Valid() && r.launch.notices == [] && !r.launch.cleaned
                && r.launch.requestId == lastLaunchId && lastLaunchHost == host && !lastLaunchHasTicket && !lastLaunchAuthorizing
                && retired == Retiring(old(retired), old(lastLaunchId)) && FirstFree(draws, retired, lastLaunchId)
                && setup == Fine
      ensures !r.Kept? && setup == Fine ==>
                (r.Started? <==> exists i | 0 <= i < |draws| :: !Taken(Retiring(old(retired), old(lastLaunchId)), draws[i]))
      ensures r.Rejected? && setup != NoState ==> lastLaunchId == 0
    {
      hide RingOk, Recent;
      if SameWaitingHost(host) {
        return Kept;
      }
      if setup == NoState {
        return Rejected;
      }
      var before := Retire();
      ghost var known := retired;
      for i := 0 to |draws|
        invariant Valid() && lastLaunchId == 0 && retired == known
        invariant forall j | 0 <= j < i :: Taken(known, draws[j])
        invariant secret == old(secret) && cacheKey == old(cacheKey)
      {
        var collision := Collides(draws[i]);
        if !collision {
          lastLaunchId, lastLaunchHost := draws[i], host;
          lastLaunchHasTicket, lastLaunchAuthorizing := false, false;
          if setup == NoResource {
            ClearLaunch(draws[i]);
            return Rejected;
          }
          if setup == NoPin {
            var dropped := Retire();
            return Rejected;
          }
          var launch := new Launch(draws[i], generation);
          return Started(launch);
        }
      }
      return Rejected;
    }
  }

  class Launch {
    const requestId: U32
    var authorizing: bool
    var ticket: bool
    var proofUpdated: bool
    var hasSent: bool
    var terminal: bool
    var timerFailed: bool
    var attempts: nat
    var nextSend: int
    var generation: nat

    /** What the owner was told, and how often a key was derived and the secret rotated. */
    ghost var notices: seq<Notice>
    ghost var derivations: nat
    ghost var rotations: nat
    ghost var cleaned: bool
    ghost var sends: seq<Sending>

    /** The launch ended, and its owner knows. */
    ghost predicate Told()
      reads this
    {
      ticket || (terminal && (timerFailed ==> cleaned))
    }

    ghost predicate Valid()
      reads this
    {
      && !(ticket && terminal) && (timerFailed ==> terminal)
      && |notices| == (if Told() then 1 else 0) && (Told() ==> (ticket <==> notices[0] == Succeeded))
      && attempts <= 4 && (attempts == 4 ==> terminal) && derivations <= attempts && derivations <= 3
      && rotations == (if proofUpdated then 1 else 0)
      && Remembers(sends, hasSent, nextSend) && (LastFailed(sends) ==> terminal)
    }

    constructor (id: U32, gen: nat)
      ensures Valid() && requestId == id && notices == [] && !ticket && !terminal && !cleaned
      ensures sends == [] && !hasSent && nextSend == 0 && generation == gen && !authorizing && attempts == 0
    {
      requestId, generation := id, gen;
      authorizing, ticket, proofUpdated, hasSent, terminal, timerFailed := false, false, false, false, false, false;
      attempts, nextSend := 0, 0;
      notices, derivations, rotations, cleaned, sends := [], 0, 0, false, [];
    }

    /** Sends what the launch is at; a failure ends it, and the owner is told when the task is cleaned up. */
    method SendCurrentRequest(client: Client, sent: bool, now: int, ghost timer: bool) returns (ok: bool)
      requires Valid() && !terminal && !ticket && !cleaned && (timer ==> now >= nextSend)
      modifies this`terminal, this`timerFailed, this`hasSent, this`nextSend, this`sends,
               client`lastLaunchId, client`lastLaunchAuthorizing, client`lastLaunchHasTicket
      ensures Valid() && ok == sent && terminal == !sent && timerFailed == !sent
      ensures sends == old(sends) + [Sending(now, authorizing, sent, timer)]
      ensures sent ==> hasSent && nextSend == now + if authorizing then 3 else 1
      ensures client.lastLaunchId == (if !sent && old(client.lastLaunchId) == requestId then 0 else old(client.lastLaunchId))
    {
      hide Remembers, LastFailed;
      RemembersStep(sends, hasSent, nextSend, Sending(now, authorizing, sent, timer));
      sends := sends + [Sending(now, authorizing, sent, timer)];
      if !sent {
        terminal, timerFailed := true, true;
        client.ClearLaunch(requestId);
        return false;
      }
      hasSent := true;
      nextSend := now + if authorizing then 3 else 1;
      return true;
    }

    method SetAuthorizing(client: Client, value: bool)
      requires Valid()
      modifies this`authorizing, client`lastLaunchAuthorizing
      ensures Valid() && authorizing == value && client.lastLaunchAuthorizing == value
    {
      hide Remembers, LastFailed;
      authorizing := value;
      client.lastLaunchAuthorizing := value;
    }

    /** The launch ends now, and the owner is told at once. */
    method Finish(client: Client, notice: Notice)
      requires Valid() && !terminal && !ticket && notice != Succeeded
      modifies this`terminal, this`notices, client`lastLaunchId, client`lastLaunchAuthorizing, client`lastLaunchHasTicket
      ensures Valid() && terminal && notices == old(notices) + [notice]
      ensures client.lastLaunchId == if old(client.lastLaunchId) == requestId then 0 else old(client.lastLaunchId)
    {
      hide Remembers, LastFailed;
      terminal := true;
      client.ClearLaunch(requestId);
      notices := notices + [notice];
    }

    /** A streaming reply; `matches` says that it is from this host and about this request. */
    method Response(client: Client, matches: bool, reply: Reply, sent: bool, now: int)
      requires Valid() && !cleaned
      modifies this`terminal, this`timerFailed, this`hasSent, this`nextSend, this`sends, this`authorizing, this`ticket,
               this`notices, client`lastLaunchId, client`lastLaunchAuthorizing, client`lastLaunchHasTicket
      ensures Valid()
      ensures old(terminal || ticket) || !matches || reply.InProgress? ==> unchanged(this) && unchanged(client)
      ensures !old(terminal || ticket) && matches ==>
                match reply
                case InProgress => true
                case Unauthorized => authorizing && terminal == timerFailed == !sent && notices == old(notices)
                case Success(decrypted) =>
                  && ticket == decrypted && terminal == !decrypted
                  && notices == old(notices) + [if decrypted then Succeeded else Failed]
                  && (decrypted ==> !authorizing && client.lastLaunchHasTicket && !client.lastLaunchAuthorizing)
                case Refused => terminal && !timerFailed && notices == old(notices) + [Failed]
      ensures client.lastLaunchId ==
                if terminal && !old(terminal) && old(client.lastLaunchId) == requestId then 0 else old(client.lastLaunchId)
      ensures sends == old(sends) + if !old(terminal || ticket) && matches && reply.Unauthorized?
                                    then [Sending(now, true, sent, false)] else []
    {
      hide Remembers, LastFailed;
      if terminal || !matches || ticket {
        return;
      }
      match reply
      case InProgress =>
      case Unauthorized =>
        SetAuthorizing(client, true);
        var ok := SendCurrentRequest(client, sent, now, false);
      case Success(decrypted) =>
        if !decrypted {
          Finish(client, Failed);
        } else {
          SetAuthorizing(client, false);
          ticket := true;
          client.lastLaunchHasTicket := true;
          notices := notices + [Succeeded];
        }
      case Refused => Finish(client, Failed);
    }

    /**
     * One key exchange: a repeated key never derives again, and the fourth new key ends the exchange
     * without deriving.
     */
    method Exchange(client: Client, key: Bytes, hasToken: bool, memory: bool, derived: Option<Bytes>) returns (r: Outcome)
      requires Valid() && !terminal && !ticket && !cleaned
      modifies this`attempts, this`derivations, client`cacheKey, client`cacheOk, client`secret
      ensures attempts <= 4 && derivations <= 3 && derivations <= attempts && (attempts == 4 ==> r == Exhausted)
      ensures r == ResourceFailure ==> key != [] && !memory
      ensures r != Exhausted ==> Valid()
      ensures old(client.cacheKey) == key ==> r == Waiting && unchanged(this) && unchanged(client)
      ensures old(client.cacheKey) != key && (key == [] || memory) ==>
                && client.cacheKey == key && attempts == old(attempts) + 1
                && (r == Exhausted <==> old(attempts) == 3)
                && (r == Accepted <==> old(attempts) < 3 && hasToken && derived.Some?)
                && client.cacheOk == (r == Accepted)
                && derivations == old(derivations) + (if old(attempts) < 3 && hasToken then 1 else 0)
                && client.secret == (if r == Accepted then derived.value else old(client.secret))
      ensures old(client.cacheKey) != key && key != [] && !memory ==> r == ResourceFailure && unchanged(this) && unchanged(client)
    {
      hide Remembers, LastFailed;
      if key == client.cacheKey {
        return Waiting;
      }
      if key != [] && !memory {
        return ResourceFailure;
      }
      var exhausted := attempts >= 3;
      attempts := attempts + 1;
      var ok := !exhausted && hasToken && derived.Some?;
      if !exhausted && hasToken {
        derivations := derivations + 1;
      }
      client.cacheKey, client.cacheOk := key, ok;
      if exhausted {
        return Exhausted;
      }
      if ok {
        client.secret := derived.value;
      }
      return if ok then Accepted else Waiting;
    }

    /** An authorization response; a grant resumes the launch, a refusal ends it. */
    method Authorization(client: Client, matches: bool, verdict: Verdict, memory: bool, sent: bool, now: int)
      requires Valid() && !cleaned
      modifies this`terminal, this`timerFailed, this`hasSent, this`nextSend, this`sends, this`authorizing, this`notices,
               this`attempts, this`derivations, client
      ensures Valid()
      ensures !matches || old(terminal || ticket || !authorizing) ==> unchanged(this) && unchanged(client)
      ensures matches && !old(terminal || ticket || !authorizing) && verdict.Denied? ==>
                terminal && notices == old(notices) + [AuthorizationFailed]
      ensures matches && !old(terminal || ticket || !authorizing) && verdict.Granted? ==>
                && (!verdict.hasKey ==> !authorizing && terminal == timerFailed == !sent && notices == old(notices))
                && (verdict.hasKey && verdict.key == old(client.cacheKey) ==> unchanged(this) && unchanged(client))
                && (verdict.hasKey && verdict.key != old(client.cacheKey) && memory && old(attempts) == 3 ==>
                      terminal && notices == old(notices) + [AuthorizationFailed] && derivations == old(derivations))
                && (verdict.hasKey && verdict.key != old(client.cacheKey) && verdict.key != [] && !memory ==>
                      terminal && notices == old(notices) + [AuthorizationFailed])
                && (verdict.hasKey && NewKey(verdict, old(client.cacheKey), memory, old(attempts)) ==>
                      if verdict.hasToken && verdict.derived.Some?
                      then !authorizing && terminal == timerFailed == !sent && client.secret == verdict.derived.value
                      else authorizing && !terminal && client.secret == old(client.secret))
      ensures sends == old(sends) + if matches && !old(terminal || ticket || !authorizing)
                                       && Resumes(verdict, old(client.cacheKey), memory, old(attempts))
                                    then [Sending(now, false, sent, false)] else []
      ensures notices == old(notices) || notices == old(notices) + [AuthorizationFailed]
      ensures client.retired == old(client.retired) && client.canceledNext == old(client.canceledNext)
    {
      hide Remembers, LastFailed;
      if !matches || terminal || ticket || !authorizing || verdict.Pending? {
        return;
      }
      var outcome := Accepted;
      if verdict.Granted? && verdict.hasKey {
        outcome := Exchange(client, verdict.key, verdict.hasToken, memory, verdict.derived);
      }
      if outcome == Waiting {
        return;
      }
      if verdict.Denied? || outcome == Exhausted || outcome == ResourceFailure {
        terminal := true;
        client.ClearLaunch(requestId);
        notices := notices + [AuthorizationFailed];
        return;
      }
      Resume(client, sent, now);
    }

    /** Authorized now: the request itself is sent again. */
    method Resume(client: Client, sent: bool, now: int)
      requires Valid() && !terminal && !ticket && !cleaned
      modifies this`terminal, this`timerFailed, this`hasSent, this`nextSend, this`sends, this`authorizing,
               client`lastLaunchId, client`lastLaunchAuthorizing, client`lastLaunchHasTicket
      ensures Valid() && !authorizing && terminal == timerFailed == !sent
      ensures sends == old(sends) + [Sending(now, false, sent, false)]
      ensures sent ==> hasSent && nextSend == now + 1
    {
      hide Remembers, LastFailed;
      SetAuthorizing(client, false);
      var ok := SendCurrentRequest(client, sent, now, false);
    }

    /** A proof request; the secret is replaced at most once per launch, by the hash with the challenge. */
    method Proof(client: Client, sameClient: bool, sameRequest: bool, update: bool, hashed: Option<Bytes>)
      requires Valid() && !cleaned
      modifies this`proofUpdated, this`rotations, client`secret
      ensures Valid()
      ensures rotations == old(rotations) + if proofUpdated == old(proofUpdated) then 0 else 1
      ensures proofUpdated <==> old(proofUpdated) || (!terminal && sameClient && sameRequest && update && hashed.Some?)
      ensures client.secret == if proofUpdated && !old(proofUpdated) then hashed.value else old(client.secret)
    {
      hide Remembers, LastFailed;
      if terminal || !sameClient || !sameRequest {
        return;
      }
      if update && !proofUpdated && hashed.Some? {
        client.secret := hashed.value;
        proofUpdated := true;
        rotations := rotations + 1;
      }
    }

    /** A due send, from the timer (the first one only) or from an update (once per receive generation). */
    method Advance(client: Client, initialOnly: bool, ready: bool, received: nat, now: int, sent: bool) returns (ok: bool)
      requires Valid() && !cleaned
      modifies this`terminal, this`timerFailed, this`hasSent, this`nextSend, this`sends, this`generation,
               client`lastLaunchId, client`lastLaunchAuthorizing, client`lastLaunchHasTicket
      ensures Valid() && (!ok ==> terminal && timerFailed)
      ensures old(terminal || ticket || (initialOnly && hasSent)) || !ready ==> ok && unchanged(this) && unchanged(client)
      ensures old(hasSent) && old(generation) == received ==> ok && unchanged(this) && unchanged(client)
      ensures now < old(nextSend) ==> ok && nextSend == old(nextSend) && terminal == old(terminal) && sends == old(sends)
      ensures !old(terminal || ticket) && ready && (!old(hasSent) || (!initialOnly && old(generation) != received)) ==>
                && generation == received
                && (now >= old(nextSend) ==>
                      && ok == sent && sends == old(sends) + [Sending(now, authorizing, sent, true)]
                      && (sent ==> hasSent && nextSend == now + if authorizing then 3 else 1))
    {
      hide Remembers, LastFailed;
      ok := true;
      if terminal || ticket || (initialOnly && hasSent) {
        return;
      }
      if ready && (!hasSent || generation != received) {
        generation := received;
        if now >= nextSend {
          ok := SendCurrentRequest(client, sent, now, true);
        }
      }
    }

    /** The task is destroyed, once; a send failure is reported here. */
    method Cleanup()
      requires Valid() && !cleaned
      modifies this`cleaned, this`notices
      ensures Valid() && cleaned
      ensures notices == old(notices) + if timerFailed then [Failed] else []
      ensures terminal || ticket ==> |notices| == 1
    {
      hide Remembers, LastFailed;
      cleaned := true;
      if timerFailed {
        notices := notices + [Failed];
      }
    }
  }

  // ---- whole launches ----

  /** The key of a grant is new, can be remembered, and is not one too many. */
  predicate NewKey(verdict: Verdict, cacheKey: Bytes, memory: bool, attempts: nat) {
    verdict.Granted? && verdict.key != cacheKey && (verdict.key == [] || memory) && attempts < 3
  }

  /** The verdict lets the launch go on: no key to exchange, or a new one from which a secret is derived. */
  predicate Resumes(verdict: Verdict, cacheKey: Bytes, memory: bool, attempts: nat) {
    && verdict.Granted?
    && (verdict.hasKey ==> NewKey(verdict, cacheKey, memory, attempts) && verdict.hasToken && verdict.derived.Some?)
  }

  datatype Event =
    | Replied(matches: bool, reply: Reply, sent: bool, now: int)
    | Authorized(matches: bool, verdict: Verdict, memory: bool, sent: bool, now: int)
    | Challenged(sameClient: bool, sameRequest: bool, update: bool, hashed: Option<Bytes>)
    | Ticked(initialOnly: bool, ready: bool, received: nat, now: int, sent: bool)
    | Elsewhere(to: Shared)

  /** What decides whether an event sends. */
  datatype Moment = Moment(over: bool, authorizing: bool, hasSent: bool, nextSend: int, generation: nat, attempts: nat,
                           cacheKey: Bytes, sends: seq<Sending>)

  ghost function View(launch: Launch, client: Client): (m: Moment)
    reads launch, client
  {
    Moment(launch.terminal || launch.ticket, launch.authorizing, launch.hasSent, launch.nextSend, launch.generation,
           launch.attempts, client.cacheKey, launch.sends)
  }

  /**
   * What an event sends: a reply that asks for authorization sends for it, a verdict that lets the launch go on
   * sends the request again, and a tick sends what is due: at first, and then once per receive generation.
   */
  ghost function SentBy(m: Moment, e: Event): (r: seq<Sending>) {
    if m.over then []
    else match e
         case Replied(matches, reply, sent, now) =>
           if matches && reply.Unauthorized? then [Sending(now, true, sent, false)] else []
         case Authorized(matches, verdict, memory, sent, now) =>
           if matches && m.authorizing && Resumes(verdict, m.cacheKey, memory, m.attempts)
           then [Sending(now, false, sent, false)] else []
         case Ticked(initialOnly, ready, received, now, sent) =>
           if ready && (!m.hasSent || (!initialOnly && m.generation != received)) && now >= m.nextSend
           then [Sending(now, m.authorizing, sent, true)] else []
         case _ => []
  }

  method Handle(launch: Launch, client: Client, e: Event)
    requires launch.Valid() && !launch.cleaned
    modifies launch, client
    ensures launch.Valid() && !launch.cleaned
    ensures old(launch.notices) <= launch.notices
    ensures launch.sends == old(launch.sends) + SentBy(old(View(launch, client)), e)
  {
    hide Remembers, LastFailed;
    match e
    case Replied(matches, reply, sent, now) => launch.Response(client, matches, reply, sent, now);
    case Authorized(matches, verdict, memory, sent, now) => launch.Authorization(client, matches, verdict, memory, sent, now);
    case Challenged(sameClient, sameRequest, update, hashed) => launch.Proof(client, sameClient, sameRequest, update, hashed);
    case Ticked(initialOnly, ready, received, now, sent) =>
      var ok := launch.Advance(client, initialOnly, ready, received, now, sent);
    case Elsewhere(to) => client.Overwrite(to);
  }

  /** Each event sent exactly what was due at its moment. */
  ghost predicate Sends(moments: seq<Moment>, events: seq<Event>) {
    && |moments| == |events| + 1 && moments[0].sends == []
    && forall i | 0 <= i < |events| :: moments[i + 1].sends == moments[i].sends + SentBy(moments[i], events[i])
  }

  /**
   * Whatever the host sends, whenever the timers fire and whatever else the client does in between, a launch tells
   * its owner about its end at most once, derives a key at most three times and rotates the secret by proof at most once.
   * It sends exactly what is due at each event, never after a failed send, and from a timer never too soon.
   */
  method Run(client: Client, id: U32, generation: nat, events: seq<Event>) returns (launch: Launch, ghost moments: seq<Moment>)
    modifies client
    ensures fresh(launch) && launch.cleaned
    ensures |launch.notices| <= 1 && launch.derivations <= 3 && launch.rotations <= 1
    ensures launch.terminal || launch.ticket ==> |launch.notices| == 1
    ensures launch.notices == [Succeeded] <==> launch.ticket
    ensures Sends(moments, events) && moments[|events|].sends == launch.sends && Paced(launch.sends)
  {
    hide Remembers, SentBy;
    launch := new Launch(id, generation);
    moments := [View(launch, client)];
    for i := 0 to |events|
      invariant fresh(launch) && launch.Valid() && !launch.cleaned
      invariant Sends(moments, events[..i]) && moments[i] == View(launch, client)
    {
      Handle(launch, client, events[i]);
      assert events[..i + 1][..i] == events[..i];
      moments := moments + [View(launch, client)];
    }
    assert events[..|events|] == events;
    RememberedPaced(launch.sends, launch.hasSent, launch.nextSend);
    launch.Cleanup();
  }
}

/**
 * The frame ticket tracker as interleaved atomic steps. Producers retain, release, claim and publish
 * tickets without the lock, between any two steps of the one operation that holds it.
 */
module FrameTracker {
  import opened Words
  import opened Wrappers

  const BLOCK := 256

  datatype Publication = Open | Claimed | Ready | Expired | Closed

  /** One record; `submitted` says that decoding has begun, `consumed` that statistics took the completion. */
  datatype Rec = Rec(refs: nat, pub: Publication, occupied: bool, settled: bool, input: bool, submitted: bool,
                     epoch: nat, version: nat, wire: nat, first: nat, consumed: bool, reusable: bool)

  const BLANK := Rec(0, Closed, false, false, false, false, 0, 0, 0, 0, false, false)

  datatype Cursor = Load | Swap | Decide(seen: Publication)

  datatype CloseJob = CloseJob(i: nat, next: Option<nat>, last: bool)
  datatype BeginJob = BeginJob(input: bool, wire: nat, first: nat)
  datatype ScanJob = ScanJob(i: nat, want: BeginJob, free: Option<nat>, collected: Option<nat>)
  datatype CopyJob = CopyJob(i: nat, out: seq<nat>, capacity: nat, loaded: bool, goal: set<nat>)
  datatype SettleJob = SettleJob(i: nat, out: seq<nat>, capacity: nat, now: nat, timeout: nat, cursor: Cursor, goal: set<nat>)

  /** What the lock holder is doing. `out` lists the records written to the caller's
      array; a `goal` only records what a copy or a settle found when it began. */
  datatype Phase =
    | Idle
    | Closing(close: CloseJob)
    | Scanning(scan: ScanJob)
    | Joining(at: nat, want: BeginJob)
    | JoiningHeld(at: nat, want: BeginJob)
    | Taking(at: nat, want: BeginJob)
    | TakingHeld(at: nat, want: BeginJob)
    | Copying(copy: CopyJob)
    | Settling(settle: SettleJob)

  /** `transit` counts endpoint references of threads in the middle of a retain or a release. */
  datatype State = State(recs: seq<Rec>, endpoint: nat, owned: bool, transit: nat,
                         epoch: nat, accepting: bool, tracking: bool, phase: Phase)

  function Blanks(n: nat): (r: seq<Rec>)
    ensures |r| == n && forall i | 0 <= i < n :: r[i] == BLANK
  {
    seq(n, _ => BLANK)
  }

  function Initial(): (s: State) {
    State(Blanks(BLOCK), 1, true, 0, 0, false, false, Idle)
  }

  function Put(s: State, r: nat, rec: Rec): (t: State)
    requires r < |s.recs|
  {
    s.(recs := s.recs[r := rec])
  }

  predicate Retainable(n: nat) { n != 0 && n != U32_SIZE - 1 }

  // ---- steps without the lock ----

  datatype TicketStep =
    | RetainEndpoint
    | RetainTicket(r: nat)
    | DropEndpoint
    | ReleaseTicket(r: nat)
    | Claim(r: nat)
    | Publish(r: nat)

  /** Callers hold what they release, and a claimant publishes before it releases. */
  predicate CanTicket(s: State, step: TicketStep) {
    match step
    case RetainEndpoint => Retainable(s.endpoint)
    case DropEndpoint => s.transit > 0 && s.endpoint > 0
    case RetainTicket(r) => r < |s.recs| && s.transit > 0 && Retainable(s.recs[r].refs)
    case ReleaseTicket(r) => r < |s.recs| && s.recs[r].refs > if s.recs[r].pub == Claimed then 1 else 0
    case Claim(r) => r < |s.recs| && s.recs[r].refs > 0 && s.recs[r].pub == Open
    case Publish(r) => r < |s.recs| && s.recs[r].refs > 0 && s.recs[r].pub == Claimed
  }

  function DoTicket(s: State, step: TicketStep): (t: State)
    requires CanTicket(s, step)
  {
    match step
    case RetainEndpoint => s.(endpoint := s.endpoint + 1, transit := s.transit + 1)
    case DropEndpoint => s.(endpoint := s.endpoint - 1, transit := s.transit - 1)
    case RetainTicket(r) => Put(s, r, s.recs[r].(refs := s.recs[r].refs + 1)).(transit := s.transit - 1)
    case ReleaseTicket(r) => Put(s, r, s.recs[r].(refs := s.recs[r].refs - 1)).(transit := s.transit + 1)
    case Claim(r) => Put(s, r, s.recs[r].(pub := Claimed))
    case Publish(r) => Put(s, r, s.recs[r].(pub := Ready))
  }

  // ---- closing an epoch, abandoning input, decode stages ----

  datatype CloseStep =
    | OpenEpoch(epoch: nat)
    | CloseEpoch(epoch: nat)
    | CloseTracker
    | CloseRecord
    | CloseDone
    | AbandonInput(r: nat)
    | BeginDecode(r: nat)

  /** Tracker calls need the owner reference, ticket calls a live ticket. */
  predicate CanClose(s: State, step: CloseStep) {
    match step
    case OpenEpoch(epoch) => s.phase.Idle? && s.owned && epoch > s.epoch
    case CloseEpoch(epoch) => s.phase.Idle? && s.owned && epoch == s.epoch
    case CloseTracker => s.phase.Idle? && s.owned
    case CloseRecord => s.phase.Closing? && s.phase.close.i < |s.recs|
    case CloseDone => s.phase.Closing? && s.phase.close.i >= |s.recs|
    case AbandonInput(r) => s.phase.Idle? && r < |s.recs| && s.recs[r].refs > 0
    case BeginDecode(r) => s.phase.Idle? && r < |s.recs| && s.recs[r].refs > 0
  }

  function ClosedRec(a: Rec): (b: Rec) {
    if a.occupied then a.(pub := if a.pub == Open then Closed else a.pub, settled := true) else a
  }

  function DoClose(s: State, step: CloseStep): (t: State)
    requires CanClose(s, step)
  {
    match step
    case OpenEpoch(epoch) => s.(accepting := false, phase := Closing(CloseJob(0, Some(epoch), false)))
    case CloseEpoch(_) => s.(accepting := false, phase := Closing(CloseJob(0, None, false)))
    case CloseTracker => s.(accepting := false, phase := Closing(CloseJob(0, None, true)))
    case CloseRecord =>
      var job := s.phase.close;
      Put(s, job.i, ClosedRec(s.recs[job.i])).(phase := Closing(job.(i := job.i + 1)))
    case CloseDone =>
      var job := s.phase.close;
      if job.last then s.(phase := Idle, owned := false, transit := s.transit + 1)
      else if job.next.Some? then s.(phase := Idle, epoch := job.next.value, accepting := true)
      else s.(phase := Idle)
    case AbandonInput(r) =>
      var a := s.recs[r];
      if a.input && !a.settled && !a.submitted && a.pub == Open
      then Put(s, r, a.(pub := Closed, settled := true)) else s
    case BeginDecode(r) =>
      var a := s.recs[r];
      if s.accepting && a.epoch == s.epoch && !a.settled then Put(s, r, a.(submitted := true)) else s
  }

  // ---- beginning a frame ----

  /** The choices `seen`, `memory` and `exhausted` come from the sequence history and the allocator. */
  datatype BeginStep =
    | StartBegin(epoch: nat, want: BeginJob)
    | ScanRecord
    | ScanDone(seen: bool, memory: bool)
    | JoinEndpoint
    | JoinTicket
    | TakeEndpoint(exhausted: bool)
    | Take

  predicate CanBegin(s: State, step: BeginStep) {
    match step
    case StartBegin(epoch, _) => s.phase.Idle? && s.owned && s.accepting && epoch == s.epoch
    case ScanRecord => s.phase.Scanning? && s.phase.scan.i < |s.recs|
    case ScanDone(_, _) => s.phase.Scanning? && s.phase.scan.i >= |s.recs|
    case JoinEndpoint => s.phase.Joining?
    case JoinTicket => s.phase.JoiningHeld? && s.phase.at < |s.recs| && s.endpoint > 0
    case TakeEndpoint(_) => s.phase.Taking?
    case Take => s.phase.TakingHeld? && s.phase.at < |s.recs|
  }

  /** An unused or settled record that nobody holds. */
  predicate Free(a: Rec) {
    (!a.occupied || a.settled) && a.refs == 0 && a.version != U64_SIZE - 1
  }

  /** A completed record that nobody holds and that statistics no longer need. */
  predicate Collected(a: Rec, tracking: bool) {
    && a.occupied && !a.settled && a.refs == 0 && a.version != U64_SIZE - 1
    && a.pub == Ready && (!tracking || (a.consumed && a.reusable))
  }

  /** The record already stands for the wanted sequence. */
  predicate Matches(a: Rec, epoch: nat, want: BeginJob) {
    !want.input && !a.input && a.occupied && a.epoch == epoch && a.wire == want.wire
  }

  function ScanOne(s: State): (p: Phase)
    requires CanBegin(s, ScanRecord)
  {
    var job := s.phase.scan;
    var a := s.recs[job.i];
    if Matches(a, s.epoch, job.want) then
      if a.settled || a.pub != Open then Idle else Joining(job.i, job.want)
    else
      Scanning(ScanJob(job.i + 1, job.want,
                       if job.free.None? && Free(a) then Some(job.i) else job.free,
                       if job.collected.None? && Collected(a, s.tracking) then Some(job.i) else job.collected))
  }

  function Choose(s: State, seen: bool, memory: bool): (t: State)
    requires CanBegin(s, ScanDone(seen, memory))
  {
    var job := s.phase.scan;
    if seen then s.(phase := Idle)
    else if job.free.Some? then s.(phase := Taking(job.free.value, job.want))
    else if job.collected.Some? then s.(phase := Taking(job.collected.value, job.want))
    else if memory then s.(recs := s.recs + Blanks(BLOCK), phase := Taking(|s.recs|, job.want))
    else s.(phase := Idle)
  }

  function NewRec(a: Rec, epoch: nat, want: BeginJob): (b: Rec) {
    Rec(1, Open, true, false, want.input, false, epoch, a.version + 1, want.wire, want.first, false, false)
  }

  function DoBegin(s: State, step: BeginStep): (t: State)
    requires CanBegin(s, step)
  {
    match step
    case StartBegin(_, want) => s.(phase := Scanning(ScanJob(0, want, None, None)))
    case ScanRecord => s.(phase := ScanOne(s))
    case ScanDone(seen, memory) => Choose(s, seen, memory)
    case JoinEndpoint =>
      if Retainable(s.endpoint) then s.(endpoint := s.endpoint + 1, phase := JoiningHeld(s.phase.at, s.phase.want))
      else s.(phase := Idle)
    case JoinTicket =>
      var a := s.recs[s.phase.at];
      if a.refs == U32_SIZE - 1 then s.(endpoint := s.endpoint - 1, phase := Idle)
      else Put(s, s.phase.at, a.(refs := a.refs + 1)).(phase := Idle)
    case TakeEndpoint(exhausted) =>
      if !exhausted && Retainable(s.endpoint)
      then s.(endpoint := s.endpoint + 1, phase := TakingHeld(s.phase.at, s.phase.want))
      else s.(phase := Idle)
    case Take => Put(s, s.phase.at, NewRec(s.recs[s.phase.at], s.epoch, s.phase.want)).(phase := Idle)
  }

  // ---- copying statistics ----

  datatype CopyStep = StartCopy(capacity: nat) | CopyLoad | CopyReuse | CopyDone

  predicate CanCopy(s: State, step: CopyStep) {
    if step.StartCopy? then s.phase.Idle? && s.owned
    else
      s.phase.Copying? &&
      var job := s.phase.copy;
      match step
      case CopyLoad => !job.loaded && |job.out| < job.capacity && job.i < |s.recs|
      case CopyReuse => job.loaded && job.i < |s.recs|
      case CopyDone => !job.loaded && (|job.out| >= job.capacity || job.i >= |s.recs|)
  }

  /** A completion that statistics still have to take. */
  predicate Due(a: Rec, epoch: nat) {
    a.occupied && !a.settled && a.epoch == epoch && a.pub == Ready && !a.consumed
  }

  function DueAt(s: State): (r: set<nat>) {
    set i: nat | i < |s.recs| && Due(s.recs[i], s.epoch)
  }

  function DoCopy(s: State, step: CopyStep): (t: State)
    requires CanCopy(s, step)
  {
    match step
    case StartCopy(capacity) =>
      s.(tracking := true, phase := if s.accepting then Copying(CopyJob(0, [], capacity, false, DueAt(s))) else Idle)
    case CopyLoad =>
      var job := s.phase.copy;
      var a := s.recs[job.i];
      if !a.occupied || a.settled || a.epoch != s.epoch then s.(phase := Copying(job.(i := job.i + 1)))
      else Put(s, job.i, a.(consumed := a.consumed || a.pub == Ready)).(phase := Copying(job.(loaded := true)))
    case CopyReuse =>
      var job := s.phase.copy;
      var a := s.recs[job.i];
      Put(s, job.i, a.(reusable := a.reusable || (a.pub == Ready && a.refs == 0)))
        .(phase := Copying(job.(i := job.i + 1, out := job.out + [job.i], loaded := false)))
    case CopyDone => s.(phase := Idle)
  }

  // ---- settling ----

  datatype SettleStep = StartSettle(now: nat, timeout: nat, capacity: nat) | SettleLoad | SettleSwap | SettleDecide | SettleDone

  predicate CanSettle(s: State, step: SettleStep) {
    if step.StartSettle? then s.phase.Idle? && s.owned
    else
      s.phase.Settling? &&
      var job := s.phase.settle;
      match step
      case SettleLoad => job.cursor.Load? && |job.out| < job.capacity && job.i < |s.recs|
      case SettleSwap => job.cursor.Swap? && job.i < |s.recs|
      case SettleDecide => job.cursor.Decide? && job.i < |s.recs|
      case SettleDone => job.cursor.Load? && (|job.out| >= job.capacity || job.i >= |s.recs|)
  }

  /** Completions that can be settled at once. */
  function FinishedAt(s: State): (r: set<nat>) {
    set i: nat | i < |s.recs| && s.recs[i].occupied && !s.recs[i].settled && s.recs[i].pub == Ready
                 && (s.tracking ==> s.recs[i].consumed)
  }

  predicate TimedOut(a: Rec, now: nat, timeout: nat) {
    now >= a.first && now - a.first >= timeout
  }

  function DoSettle(s: State, step: SettleStep): (t: State)
    requires CanSettle(s, step)
  {
    match step
    case StartSettle(now, timeout, capacity) => s.(phase := Settling(SettleJob(0, [], capacity, now, timeout, Load, FinishedAt(s))))
    case SettleLoad =>
      var job := s.phase.settle;
      var a := s.recs[job.i];
      if !a.occupied || a.settled then s.(phase := Settling(job.(i := job.i + 1)))
      else if a.pub == Open && TimedOut(a, job.now, job.timeout) then s.(phase := Settling(job.(cursor := Swap)))
      else s.(phase := Settling(job.(cursor := Decide(a.pub))))
    case SettleSwap =>
      var job := s.phase.settle;
      var a := s.recs[job.i];
      if a.pub == Open then Put(s, job.i, a.(pub := Expired)).(phase := Settling(job.(cursor := Decide(Expired))))
      else s.(phase := Settling(job.(cursor := Decide(a.pub))))
    case SettleDecide =>
      var job := s.phase.settle;
      var a := s.recs[job.i];
      var next := job.(i := job.i + 1, cursor := Load);
      if Settles(job.cursor.seen, a, s.tracking)
      then Put(s, job.i, a.(settled := true)).(phase := Settling(next.(out := job.out + [job.i])))
      else s.(phase := Settling(next))
    case SettleDone => s.(phase := Idle)
  }

  /** A completion that statistics have not taken yet has to wait. */
  predicate Settles(seen: Publication, a: Rec, tracking: bool) {
    (seen == Ready || seen == Expired) && !(seen == Ready && tracking && !a.consumed)
  }

  // ---- all steps ----

  datatype Step =
    | Ticket(ticket: TicketStep)
    | Close(close: CloseStep)
    | Begin(begin: BeginStep)
    | Copy(copy: CopyStep)
    | Settle(settle: SettleStep)

  predicate Can(s: State, step: Step) {
    match step
    case Ticket(x) => CanTicket(s, x)
    case Close(x) => CanClose(s, x)
    case Begin(x) => CanBegin(s, x)
    case Copy(x) => CanCopy(s, x)
    case Settle(x) => CanSettle(s, x)
  }

  function Do(s: State, step: Step): (t: State)
    requires Can(s, step)
  {
    match step
    case Ticket(x) => DoTicket(s, x)
    case Close(x) => DoClose(s, x)
    case Begin(x) => DoBegin(s, x)
    case Copy(x) => DoCopy(s, x)
    case Settle(x) => DoSettle(s, x)
  }
}

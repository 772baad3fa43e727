/**
 The receive side of the event loop in production mode: exact AIO, diagnostic limit zero. One `Tick` carries
 everything the loop cannot decide: the host, the clock, the kernel and the outcome of framebuffer work.
 */
module ReceiveLoop {
  import opened Wire
  import opened UsbLifecycle
  import opened Endpoint
  import Exact = ExactAio
  import Session = Receiver
  import Own = Ownership

  datatype HostEvent =
    | Lifecycle(reason: Reason)               // Enable, Bind, Suspend, Resume, Disable or Unbind
    | ProtocolError(reason: Reason)           // a rejected STATE_CHECK, or a COMMIT without one
    | GetStatus(status: u8)
    | SetBufferRequest(info: SetBuffer, valid: bool)
    | OtherRequest(parsed: bool)              // any request that does not concern the bulk endpoint
    | FatalCommit                             // a STATE_COMMIT whose handling leaves the loop with an error
  {
    predicate WellFormed() {
      && (Lifecycle? ==> reason !in {InvalidStateCheck, CommitWithoutPending})
      && (ProtocolError? ==> reason in {InvalidStateCheck, CommitWithoutPending})
    }
  }

  datatype Ep0 = ReadFailed | Quiet | Arrived(event: HostEvent)

  datatype Tick = Tick(
    shutdown: bool,          // a shutdown was requested
    poll: Poll,              // the AIO completion queue
    late: bool,              // the receive deadline has passed
    running: bool,
    ep0: Ep0,                // the control endpoint
    submission: Submission,  // the outcome of io_submit, if it is called
    presented: bool)         // whether payload processing succeeds, if it runs

  datatype Pending = Pending(info: SetBuffer, sequence: u64)

  datatype Boundary = Boundary(reason: Reason, newEpoch: Option<u64>)

  datatype Fault = RetireFailed | EpochNotIncreasing | AdmissionOutsideIdle | FinishFailed | CommitFailed

  datatype Outcome = Proceed | Leave | Fault(fault: Fault)

  datatype LoopLaw = LockstepOwnership | CurrentGenerations

  /** The two machines are in the same state. */
  predicate SameState(s: Session.State, x: Exact.State) {
    match s
    case Idle => x == Exact.Idle
    case Arming => x == Exact.Arming
    case InFlight => x == Exact.InFlight
    case Processing => x == Exact.Processing
    case Poisoned => x == Exact.Poisoned
    case AbortedBySessionDestruction => x == Exact.AbortedBySessionDestruction
    case ShuttingDown => false
  }

  function StateOf(p: Own.Phase): Session.State {
    match p
    case Free => Session.Idle
    case Gone => Session.AbortedBySessionDestruction
    case Receiving(_, _) => Session.InFlight
    case Delivering(_) => Session.Processing
    case Contained(_) => Session.Poisoned
    case Fenced(_, _) => Session.Poisoned
  }

  /** What a poll of the completion queue makes of the phase; `exhausted` if no payload number is left. */
  function AfterPoll(p: Own.Phase, poll: Poll, late: bool, exhausted: bool): Own.Phase {
    if !p.Receiving? then p
    else
      match poll
      case NothingYet => if late then Own.Contained(p.txn) else p
      case Unreadable | CompletedWithError => Own.Contained(p.txn)
      case CompletedWith(n) =>
        if p.statusOk && n == p.txn.bytes && !exhausted && !late then Own.Delivering(p.txn) else Own.Contained(p.txn)
  }

  /** What a lifecycle event or protocol error makes of the phase; `activation` counts the event itself. */
  function AfterLifecycle(p: Own.Phase, epoch: nat, reason: Reason, activation: u64): Own.Phase {
    if !p.Owned() then (if reason == Enable && activation > epoch then Own.Free else p)
    else if EndsSession(reason) then Own.Fenced(p.txn, if reason == Enable then Some(activation) else None)
    else if reason in {Suspend, Resume} then p
    else Own.Contained(p.txn)
  }

  /** The first status decides a receive in flight. */
  function AfterStatus(p: Own.Phase, status: u8): Own.Phase {
    if !p.Receiving? || p.statusOk then p
    else if status == GUD_STATUS_OK then Own.Receiving(p.txn, true)
    else Own.Contained(p.txn)
  }

  /** A failure of the control endpoint ends a receive in flight. */
  function AfterLoss(p: Own.Phase): Own.Phase {
    if p.Receiving? then Own.Contained(p.txn) else p
  }

  /** Whether a valid SET_BUFFER gets its read queued when nobody owns the endpoint; `used` numbers are gone. */
  predicate Armable(info: SetBuffer, used: u64, submission: Submission) {
    && 0 < WireLength(info) <= Exact.MAX_EXACT_AIO_PAYLOAD_SIZE && used + 1 < TWO_TO_THE_64
    && submission == Submitted
  }

  /** The counters that new names are taken from: the epoch, the sequence number of the last transaction, the next operation
      and the activations of the host. */
  datatype Counts = Counts(epoch: nat, sequence: u64, op: nat, activation: u64)

  function AfterBuffer(p: Own.Phase, c: Counts, info: SetBuffer, valid: bool, submission: Submission): Own.Phase {
    if p.Free? && valid && Armable(info, c.sequence, submission)
    then Own.Receiving(Own.Txn(c.sequence + 1, c.op, WireLength(info)), false)
    else p
  }

  /** What an event makes of the phase; one that ends the loop with an error does not matter. */
  function AfterEvent(p: Own.Phase, c: Counts, ev: HostEvent, submission: Submission): Own.Phase {
    match ev
    case Lifecycle(reason) => AfterLifecycle(p, c.epoch, reason, ActivationAfter(c.activation, reason))
    case ProtocolError(reason) => AfterLifecycle(p, c.epoch, reason, ActivationAfter(c.activation, reason))
    case GetStatus(status) => AfterStatus(p, status)
    case SetBufferRequest(info, valid) => AfterBuffer(p, c, info, valid, submission)
    case OtherRequest(parsed) => if parsed then p else AfterLoss(p)
    case FatalCommit => p
  }

  /** An Enable is counted when it is observed. */
  function ActivationAfter(activation: u64, reason: Reason): u64 {
    if reason == Enable then Exact.NextGeneration(activation) else activation
  }

  /** What serving the control endpoint makes of the phase. While the endpoint is contained, only a lifecycle event has an
      effect. */
  function AfterEp0(p: Own.Phase, c: Counts, t: Tick): Own.Phase {
    match t.ep0
    case ReadFailed => AfterLoss(p)
    case Quiet => if !p.Delivering? then p else if t.presented then Own.Free else Own.Contained(p.txn)
    case Arrived(ev) => if p.Contained? && !ev.Lifecycle? then p else AfterEvent(p, c, ev, t.submission)
  }

  /** The errors that serving the control endpoint can leave the loop with; `held` if a payload is ready. */
  predicate Fatal(p: Own.Phase, t: Tick, held: bool) {
    match t.ep0
    case ReadFailed => false
    case Quiet => held && t.presented && p.Contained?
    case Arrived(ev) =>
      && (p.Contained? ==> ev.Lifecycle?)
      && (ev == FatalCommit || (ev.SetBufferRequest? && ev.valid && p.Gone?))
  }

  /** Whether the pass goes on after the poll: it does unless the poll ended a receive, or drained the read of a
      poisoned one that is still on record. */
  predicate GoesOn(p: Own.Phase, recorded: bool, t: Tick, exhausted: bool) {
    if p.Receiving? then !AfterPoll(p, t.poll, t.late, exhausted).Contained?
    else !recorded || t.poll.NothingYet?
  }

  /** Serving the control endpoint leaves the loop without an error: it cannot be read, with nothing on record any more
      and the loop told to stop, or the gadget was unbound while nothing was owned. */
  predicate Leaves(p: Own.Phase, recorded: bool, t: Tick) {
    match t.ep0
    case ReadFailed => !recorded && !t.running
    case Quiet => false
    case Arrived(ev) => ev == Lifecycle(Unbind) && !p.Owned()
  }

  /** The pass gets as far as the control endpoint. */
  predicate Reaches(p: Own.Phase, recorded: bool, t: Tick, exhausted: bool) {
    !p.Fenced? && GoesOn(p, recorded, t, exhausted)
  }

  /** What a pass makes of the phase that neither retires an epoch nor shuts down. */
  function AfterTick(p: Own.Phase, c: Counts, recorded: bool, t: Tick, exhausted: bool): Own.Phase {
    var polled := AfterPoll(p, t.poll, t.late, exhausted);
    if Reaches(p, recorded, t, exhausted) then AfterEp0(polled, c, t) else polled
  }

  // ---------- what a pass means, without the functions above ----------

  /** Why a label comes into the history in a pass over `t`; `retiring` if the pass retires a destroyed epoch. */
  predicate Explains(t: Tick, retiring: bool, l: Own.Label) {
    match l
    case Armed(x) =>
      && !retiring && t.ep0.Arrived? && t.ep0.event.SetBufferRequest? && t.ep0.event.valid && t.submission == Submitted
      && x.bytes == (if t.ep0.event.info.compression == 0 then t.ep0.event.info.length
                     else t.ep0.event.info.compressedLength)
      && 0 < x.bytes <= 67_108_864
    case Acknowledged(x) => !retiring && t.ep0 == Arrived(GetStatus(0))
    case Delivered(x) => !retiring && t.poll == CompletedWith(x.bytes) && !t.late
    case Finished(x) => !retiring && t.ep0 == Quiet && t.presented
    case Poisoned(x) =>
      && !retiring
      && (t.late || !t.poll.NothingYet? || t.ep0.ReadFailed? || (t.ep0 == Quiet && !t.presented)
          || (t.ep0.Arrived? && (t.ep0.event.ProtocolError? || t.ep0.event == OtherRequest(false)
                                 || (t.ep0.event.GetStatus? && t.ep0.event.status != 0))))
    case Ended(x, next) =>
      && !retiring && t.ep0.Arrived? && t.ep0.event.Lifecycle?
      && t.ep0.event.reason in {Disconnected, Enable, Unbind, Bind} && (next.Some? <==> t.ep0.event.reason == Enable)
    case Retired(x) => retiring
    case EpochBegan(e) => retiring || t.ep0 == Arrived(Lifecycle(Enable))
  }

  ghost predicate AllExplained(t: Tick, retiring: bool, h: Own.History, from: nat) {
    forall k :: from <= k < |h| ==> Explains(t, retiring, h[k])
  }

  lemma PollExplains(o: Own.Owner, l: Own.Label, t: Tick, exhausted: bool)
    requires Own.Enabled(o, l) && Own.Apply(o, l).phase == AfterPoll(o.phase, t.poll, t.late, exhausted)
    requires Own.Apply(o, l).epoch == o.epoch
    ensures Explains(t, false, l)
  {}

  lemma Ep0Explains(o: Own.Owner, l: Own.Label, c: Counts, t: Tick)
    requires Own.Enabled(o, l) && Own.Apply(o, l).phase == AfterEp0(o.phase, c, t) && !o.phase.Fenced?
    requires t.ep0 == Arrived(Lifecycle(Enable)) || Own.Apply(o, l).epoch == o.epoch
    requires t.ep0.Arrived? ==> t.ep0.event.WellFormed()
    ensures Explains(t, false, l)
  {}

  /** A deadline that has passed, or a completion that does not count, contains a receive. */
  predicate Harvests(p: Own.Phase, t: Tick, exhausted: bool, q: Own.Phase) {
    p.Receiving? ==>
      && (t.poll.NothingYet? && t.late ==> q == Own.Contained(p.txn))
      && (t.poll.Unreadable? || t.poll.CompletedWithError? ==> q == Own.Contained(p.txn))
      && (t.poll.CompletedWith? && (t.poll.bytes != p.txn.bytes || !p.statusOk || t.late || exhausted) ==>
            q == Own.Contained(p.txn))
  }

  /** The pass gets as far as the control endpoint in the phase `now`: what it was, or the payload has just come. */
  predicate Serving(p: Own.Phase, recorded: bool, t: Tick, exhausted: bool, now: Own.Phase) {
    if p.Receiving? then
      || (t.poll.NothingYet? && !t.late && now == p)
      || (t.poll == CompletedWith(p.txn.bytes) && p.statusOk && !t.late && !exhausted && now == Own.Delivering(p.txn))
    else !p.Fenced? && (!recorded || t.poll.NothingYet?) && now == p
  }

  /** What each thing that the control endpoint may bring makes of the phase `now`. */
  predicate Answers(now: Own.Phase, c: Counts, t: Tick, q: Own.Phase) {
    match t.ep0
    case ReadFailed => q == if now.Receiving? then Own.Contained(now.txn) else now
    case Quiet =>
      if now.Delivering? then q == if t.presented then Own.Free else Own.Contained(now.txn)
      else q == now
    case Arrived(GetStatus(status)) =>
      if now.Receiving? && !now.statusOk
      then q == if status == 0 then Own.Receiving(now.txn, true) else Own.Contained(now.txn)
      else q == now
    case Arrived(Lifecycle(reason)) =>
      if now.Owned() then
        if reason in {Disconnected, Enable, Unbind, Bind}
        then q == Own.Fenced(now.txn, if reason == Enable then Some((c.activation + 1) % 0x1_0000_0000_0000_0000) else None)
        else q == now
      else if reason == Enable && (c.activation + 1) % 0x1_0000_0000_0000_0000 > c.epoch then q == Own.Free
      else q == now
    case Arrived(ProtocolError(_)) => q == if now.Owned() then Own.Contained(now.txn) else now
    case Arrived(OtherRequest(parsed)) => q == if now.Receiving? && !parsed then Own.Contained(now.txn) else now
    case Arrived(SetBufferRequest(info, valid)) =>
      var size := if info.compression == 0 then info.length else info.compressedLength;
      if && now.Free? && valid && 0 < size <= 67_108_864 && t.submission == Submitted
         && c.sequence + 1 < 0x1_0000_0000_0000_0000
      then q == Own.Receiving(Own.Txn(c.sequence + 1, c.op, size), false)
      else q == now
    case Arrived(FatalCommit) => true
  }

  /** A pass that neither retires an epoch nor stops: a deadline or a bad completion contains the receive; otherwise the
      control endpoint is served, and each thing it may bring has its effect. */
  ghost predicate PassMeans(p: Own.Phase, c: Counts, recorded: bool, t: Tick, exhausted: bool, q: Own.Phase) {
    && Harvests(p, t, exhausted, q)
    && (forall now: Own.Phase ::
          Serving(p, recorded, t, exhausted, now) && (t.ep0.Arrived? && now.Contained? ==> t.ep0.event.Lifecycle?) ==>
            Answers(now, c, t, q))
  }

  lemma AfterTickMeans(p: Own.Phase, c: Counts, recorded: bool, t: Tick, exhausted: bool)
    requires t.ep0.Arrived? ==> t.ep0.event.WellFormed()
    requires p.Receiving? ==> recorded
    ensures PassMeans(p, c, recorded, t, exhausted, AfterTick(p, c, recorded, t, exhausted))
  {}

  // ---------- what a pass adds to the history ----------

  /** A receive ends in containment, and the pass with it, if its deadline has passed, its completion cannot be read or
      has failed, or it completes with another length or before its OK status. */
  ghost predicate PollLaw(t: Tick, h: Own.History, m: nat, n: nat)
    requires m <= n <= |h|
  {
    var p := Own.At(h, m).phase;
    p.Receiving?
    && (t.late || t.poll.Unreadable? || t.poll.CompletedWithError?
        || (t.poll.CompletedWith? && (t.poll.bytes != p.txn.bytes || !p.statusOk)))
    ==> n == m + 1 && h[m] == Own.Poisoned(p.txn)
  }

  /** A status that goes out while a receive is in flight and has none yet decides it: 0 acknowledges it, any other
      contains it. */
  ghost predicate StatusLaw(t: Tick, h: Own.History, m: nat, n: nat)
    requires m <= n <= |h|
  {
    var p := Own.At(h, m).phase;
    p.Receiving? && !p.statusOk && t.poll.NothingYet? && !t.late && t.ep0.Arrived? && t.ep0.event.GetStatus?
    ==> n == m + 1 && h[m] == if t.ep0.event.status == 0 then Own.Acknowledged(p.txn) else Own.Poisoned(p.txn)
  }

  /** Labels `m` to `n` are what a pass over `t` adds to the history. */
  ghost predicate PassLaw(t: Tick, h: Own.History, m: nat, n: nat) {
    && m <= n <= |h|
    && (forall k :: m <= k < n ==> Explains(t, Own.At(h, m).phase.Fenced?, h[k]))
    && PollLaw(t, h, m, n) && StatusLaw(t, h, m, n)
  }

  /** The passes of a run: pass `k` found `marks[k]` labels in the history and left `marks[k + 1]`. */
  ghost predicate Recorded(ticks: seq<Tick>, h: Own.History, marks: seq<nat>) {
    && 1 <= |marks| <= |ticks| + 1 && marks[|marks| - 1] == |h|
    && forall k :: 0 <= k < |marks| - 1 ==> PassLaw(ticks[k], h, marks[k], marks[k + 1])
  }

  lemma {:induction false} PassesInOrder(ticks: seq<Tick>, h: Own.History, marks: seq<nat>, i: nat, k: nat)
    requires Recorded(ticks, h, marks) && i <= k < |marks|
    ensures marks[i] <= marks[k]
    decreases k - i
  {
    if i < k {
      assert PassLaw(ticks[i], h, marks[i], marks[i + 1]);
      PassesInOrder(ticks, h, marks, i + 1, k);
    }
  }

  lemma PassLawStays(t: Tick, h: Own.History, later: Own.History, m: nat, n: nat)
    requires PassLaw(t, h, m, n) && h <= later
    ensures PassLaw(t, later, m, n)
  {
    assert later == h + later[|h|..];
    Own.PrefixOwner(h, later[|h|..], m);
  }

  /** One pass more. */
  lemma RecordedGrows(ticks: seq<Tick>, h: Own.History, marks: seq<nat>, later: Own.History)
    requires Recorded(ticks, h, marks) && |marks| <= |ticks| && h <= later
    requires PassLaw(ticks[|marks| - 1], later, |h|, |later|)
    ensures Recorded(ticks, later, marks + [|later|])
  {
    var all := marks + [|later|];
    forall k | 0 <= k < |all| - 1 ensures PassLaw(ticks[k], later, all[k], all[k + 1]) {
      if k < |marks| - 1 { PassLawStays(ticks[k], h, later, marks[k], marks[k + 1]); }
    }
  }

  /** Which label changed the phase of a receive. */
  lemma OneMove(h: Own.History, o: Own.Owner, later: Own.History, o': Own.Owner)
    requires Own.LeadsTo(h, o) && Own.LeadsTo(later, o') && Own.Grows(h, later, 1) && o.phase.Receiving?
    ensures o'.phase == o.phase ==> later == h
    ensures o'.phase == Own.Contained(o.phase.txn) ==> later == h + [Own.Poisoned(o.phase.txn)]
    ensures o'.phase == Own.Receiving(o.phase.txn, true) && !o.phase.statusOk ==>
      later == h + [Own.Acknowledged(o.phase.txn)]
  {
    Own.OneLabel(h, o, later, o');
  }

  /** A pass that does not get as far as the control endpoint. */
  lemma PolledLaw(t: Tick, h: Own.History, o: Own.Owner, later: Own.History, o': Own.Owner, exhausted: bool)
    requires Own.LeadsTo(h, o) && Own.LeadsTo(later, o') && h <= later
    requires AllExplained(t, o.phase.Fenced?, later, |h|)
    requires o.phase.Receiving? ==>
      && Own.Grows(h, later, 1) && o'.phase == AfterPoll(o.phase, t.poll, t.late, exhausted) && o'.phase.Contained?
    ensures PassLaw(t, later, |h|, |later|)
  {
    StartsAt(h, o, later);
    if o.phase.Receiving? { OneMove(h, o, later, o'); }
  }

  lemma StartsAt(h: Own.History, o: Own.Owner, later: Own.History)
    requires Own.LeadsTo(h, o) && h <= later
    ensures Own.At(later, |h|) == o
  {
    assert later == h + later[|h|..];
    Own.PrefixOwner(h, later[|h|..], |h|);
  }

  /** What serving the control endpoint adds. */
  lemma ServedExplained(t: Tick, h: Own.History, o: Own.Owner, later: Own.History, o': Own.Owner, c: Counts, from: nat)
    requires Own.LeadsTo(h, o) && Own.LeadsTo(later, o') && Own.Grows(h, later, 1)
    requires AllExplained(t, false, h, from) && !o.phase.Fenced?
    requires later == h || o'.phase == AfterEp0(o.phase, c, t)
    requires t.ep0 == Arrived(Lifecycle(Enable)) || o'.epoch == o.epoch
    requires t.ep0.Arrived? ==> t.ep0.event.WellFormed()
    ensures AllExplained(t, false, later, from)
  {
    Own.OneLabel(h, o, later, o');
    if later != h { Ep0Explains(o, later[|h|], c, t); }
  }

  /** A pass that gets as far as the control endpoint: `m` is the history after the poll. */
  lemma ServedLaw(t: Tick, h: Own.History, o: Own.Owner, m: Own.History, o': Own.Owner, later: Own.History, o'': Own.Owner,
      c: Counts, exhausted: bool)
    requires Own.LeadsTo(h, o) && Own.LeadsTo(m, o') && Own.LeadsTo(later, o'')
    requires Own.Grows(h, m, 1) && Own.Grows(m, later, 1) && !o.phase.Fenced?
    requires o'.phase == AfterPoll(o.phase, t.poll, t.late, exhausted) && (o.phase.Receiving? ==> !o'.phase.Contained?)
    requires t.ep0.Arrived? && t.ep0.event.GetStatus? ==> o''.phase == AfterEp0(o'.phase, c, t)
    requires AllExplained(t, false, later, |h|)
    ensures PassLaw(t, later, |h|, |later|)
  {
    StartsAt(h, o, later);
    if o.phase.Receiving? {
      OneMove(h, o, m, o');
      if o'.phase.Receiving? { OneMove(m, o', later, o''); }
    }
  }

  class EventLoop {
    const session: Session.BulkReceiveSession
    const endpoint: PixelDataEndpoint
    const guard: Session.AdmissionGuard
    var activation: u64               // USB_ACTIVATION_GENERATION
    var usb: UsbSessionState
    var pending: Option<Pending>
    var ready: Option<SetBuffer>
    var boundary: Option<Boundary>
    ghost var history: Own.History    // what the ownership automaton saw so far
    ghost var owner: Own.Owner        // the state it is in
    ghost var enables: nat            // Enable events so far

    /** What holds of an owner whatever its phase. */
    ghost predicate Attributed()
      reads this, session, endpoint, endpoint.aio, guard
    {
      var a, o := endpoint.aio.View(), owner;
      && session.epochId == a.epochId == o.epoch
      && guard.transactionLimit == 0 && guard.active == o.phase.Owned()
      && (boundary.Some? <==> o.phase.Fenced?)
      && (boundary.Some? ==> boundary.value.newEpoch == o.phase.next)
      && (usb == UsbLifecycle.Contained ==> o.phase.Contained?)
      && a.sequence >= o.lastSeq && endpoint.nextOp >= o.nextOp
      && (o.phase.Owned() ==> a.sequence == o.phase.txn.seqNo && a.operation == Some(o.phase.txn.op))
    }

    /** Lockstep ownership: every record the loop keeps is determined by one state of the ownership automaton. */
    ghost predicate Lockstep()
      reads this, session, endpoint, endpoint.aio, guard
    {
      var a := endpoint.aio.View();
      && SameState(session.state, a.state) && session.state == StateOf(owner.phase)
      && Attributed()
      && match owner.phase
         case Free => NothingHeld()
         case Gone => NothingHeld()
         case Receiving(t, ok) =>
           && endpoint.queue == Some(QueuedRead(t.op, t.bytes))
           && pending.Some? && pending.value.sequence == t.seqNo && ready.None?
           && a.metadata == Some(pending.value.info) && WireLength(pending.value.info) == a.expectedBytes == t.bytes
           && a.statusReady == ok
         case Delivering(t) =>
           && endpoint.queue.None? && pending.None?
           && ready.Some? && a.metadata == ready && WireLength(ready.value) == t.bytes
         case Contained(t) => Leftover(t)
         case Fenced(t, next) => Leftover(t)
    }

    /** Nothing is queued, pending or ready, and no operation is recorded. */
    ghost predicate NothingHeld()
      reads this, endpoint, endpoint.aio
    {
      endpoint.aio.operation.None? && endpoint.queue.None? && pending.None? && ready.None?
    }

    /** What may survive of a poisoned transaction: its queued read, its pending record or its ready payload. */
    ghost predicate Leftover(t: Own.Txn)
      reads this, endpoint
    {
      && (endpoint.queue.Some? ==> endpoint.queue.value.op == t.op && ready.None?)
      && (pending.Some? ==> endpoint.queue.Some?)
    }

    /** A read in flight was armed in the current activation; and until the 64-bit activation counter wraps,
        the epoch is the number of Enables. */
    ghost predicate GenerationsCurrent()
      reads this, endpoint, endpoint.aio
    {
      && (owner.phase.Receiving? ==> endpoint.aio.activation == Some(activation))
      && (enables < TWO_TO_THE_64 ==>
            && activation == enables
            && if owner.phase.Fenced? && owner.phase.next.Some?
               then owner.phase.next.value == activation == owner.epoch + 1
               else owner.epoch == activation)
    }

    ghost predicate Holds(law: LoopLaw)
      reads this, session, endpoint, endpoint.aio, guard
    {
      match law
      case LockstepOwnership => Lockstep()
      case CurrentGenerations => GenerationsCurrent()
    }

    ghost predicate Inv()
      reads this, session, endpoint, endpoint.aio, guard
    {
      Own.LeadsTo(history, owner) && forall law: LoopLaw :: Holds(law)
    }

    lemma InvMeans()
      requires Inv()
      ensures Own.LeadsTo(history, owner) && Lockstep() && GenerationsCurrent()
    {
      assert Holds(LockstepOwnership) && Holds(CurrentGenerations);
    }

    lemma ReceivingMeans()
      requires Inv()
      ensures owner.phase.Receiving? ==> boundary.None? && pending.Some?
    {
      InvMeans();
    }

    lemma InvFrom()
      requires Own.LeadsTo(history, owner) && Lockstep() && GenerationsCurrent()
      ensures Inv()
    {}

    constructor ()
      ensures Inv() && fresh(session) && fresh(endpoint) && fresh(endpoint.aio) && fresh(guard)
      ensures history == [] && enables == 0
    {
      session := new Session.BulkReceiveSession();
      endpoint := new PixelDataEndpoint();
      guard := new Session.AdmissionGuard(0);
      activation, usb, pending, ready, boundary := 0, WaitingForHost, None, None, None;
      history, owner, enables := [], Own.INITIAL, 0;
    }

    ghost method Record(l: Own.Label)
      requires Own.LeadsTo(history, owner) && Own.Enabled(owner, l)
      modifies this`history, this`owner
      ensures history == old(history) + [l]
      ensures owner == Own.Apply(old(owner), l) && Own.LeadsTo(history, owner)
    {
      Own.Extend(history, owner, l);
      history, owner := history + [l], Own.Apply(owner, l);
    }

    /** The nine conjuncts of the gate together say exactly that the automaton is unowned. */
    method Gate() returns (g: ProvenIdleGate)
      requires Lockstep()
      ensures g.IsProvenIdle() <==> !owner.phase.Owned()
    {
      g := ProvenIdleGate(
        session.state in {Session.Idle, Session.AbortedBySessionDestruction},
        endpoint.aio.state in {Exact.Idle, Exact.AbortedBySessionDestruction},
        endpoint.aio.operation.None?,
        endpoint.queue.None?,
        pending.None?,
        ready.None?,
        true,                // the cleanup drain exists only in diagnostic mode
        !guard.active,
        true);               // so does the prearmed read
    }

    /** Both machines have just been poisoned: records it, unless they were before. */
    ghost method NotePoisoned()
      requires Own.LeadsTo(history, owner) && Attributed() && GenerationsCurrent() && owner.phase.Owned()
      requires session.state == Session.Poisoned && endpoint.aio.state == Exact.Poisoned
      requires Leftover(owner.phase.txn)
      modifies this`history, this`owner
      ensures Inv() && Own.Grows(old(history), history, 1) && owner.epoch == old(owner.epoch)
      ensures owner.phase == if old(owner.phase).Fenced? then old(owner.phase) else Own.Contained(old(owner.phase).txn)
    {
      var p := owner.phase;
      if p.Receiving? || p.Delivering? { Record(Own.Poisoned(p.txn)); }
    }

    // ---------- one iteration ----------

    /** Both machines have left the destroyed epoch; the boundary is still on record. */
    ghost predicate Retired()
      reads this, session, endpoint, endpoint.aio, guard
    {
      var a := endpoint.aio.View();
      && boundary.Some? && owner.phase.Gone? && NothingHeld() && usb != UsbLifecycle.Contained
      && session.state == Session.AbortedBySessionDestruction && a.state == Exact.AbortedBySessionDestruction
      && session.epochId == a.epochId == owner.epoch
      && guard.transactionLimit == 0 && !guard.active
      && a.sequence >= owner.lastSeq && endpoint.nextOp >= owner.nextOp
      && (enables < TWO_TO_THE_64 ==>
            activation == enables
            && if boundary.value.newEpoch.Some? then boundary.value.newEpoch.value == activation == owner.epoch + 1
               else owner.epoch == activation)
    }

    /** Neither retirement can fail. */
    method RetireOwner()
      requires Inv() && Retiring()
      modifies this`ready, this`history, this`owner, session`state, endpoint.aio, guard`active
      ensures old(owner.phase).Fenced? && history == old(history) + [Own.Retired(old(owner.phase).txn)]
      ensures Own.LeadsTo(history, owner)
      ensures Retired() && owner.epoch == old(owner.epoch)
    {
      InvMeans();
      var ok := endpoint.RetireExactAio();
      assert ok;
      ok := session.RetireAfterSessionDestruction();
      assert ok;
      guard.active := false;
      ready := None;
      Record(Own.Retired(owner.phase.txn));
    }

    /** Begins the epoch of the Enable that destroyed the old one. */
    method BeginPendingEpoch(newEpoch: u64) returns (ok: bool)
      requires Own.LeadsTo(history, owner) && Retired() && boundary.value.newEpoch == Some(newEpoch)
      modifies this, session, endpoint.aio
      ensures ok == (newEpoch > old(owner.epoch))
      ensures ok ==> Inv() && owner.phase.Free? && boundary.None?
      ensures history == (if ok then old(history) + [Own.EpochBegan(newEpoch)] else old(history))
      ensures Own.LeadsTo(history, owner) && enables == old(enables)
    {
      ok := endpoint.BeginUsbEpoch(newEpoch);
      if ok {
        ok := session.BeginUsbEpoch(newEpoch);
        assert ok;
        usb := Active;
        Record(Own.EpochBegan(newEpoch));
        boundary := None;
      }
    }

    /** Retires the destroyed epoch once its completion has been harvested. A new epoch can fail to begin only after
        the activation counter has wrapped. */
    method RetireBoundary() returns (out: Outcome)
      requires Inv() && Retiring()
      modifies this, session, endpoint.aio, guard`active
      ensures out == Proceed || out == Fault(EpochNotIncreasing)
      ensures out.Fault? <==> var e := old(boundary).value.newEpoch; e.Some? && e.value <= old(owner.epoch)
      ensures out.Fault? ==> enables >= TWO_TO_THE_64
      ensures out == Proceed ==> Inv() && boundary.None?
      ensures out == Proceed ==> owner.phase == if old(boundary).value.newEpoch.Some? then Own.Free else Own.Gone
      ensures Own.LeadsTo(history, owner) && enables == old(enables) && old(owner.phase).Fenced?
      ensures history ==
        old(history) + [Own.Retired(old(owner.phase).txn)]
        + (if out == Proceed && old(boundary).value.newEpoch.Some?
           then [Own.EpochBegan(old(boundary).value.newEpoch.value)] else [])
    {
      InvMeans();
      RetireOwner();
      var newEpoch := boundary.value.newEpoch;
      if newEpoch.Some? {
        var ok := BeginPendingEpoch(newEpoch.value);
        return if ok then Proceed else Fault(EpochNotIncreasing);
      }
      boundary := None;
      InvFrom();
      return Proceed;
    }

    /** An exact completion was harvested: hands the payload over, or contains it if it came too late. */
    method Deliver(late: bool) returns (ok: bool)
      requires Own.LeadsTo(history, owner) && Attributed() && GenerationsCurrent()
      requires owner.phase.Receiving? && owner.phase.statusOk
      requires session.state == Session.InFlight && endpoint.aio.state == Exact.Processing && endpoint.queue.None?
      requires pending.Some? && ready.None? && endpoint.aio.metadata == Some(pending.value.info)
      requires WireLength(pending.value.info) == owner.phase.txn.bytes
      modifies this`pending, this`ready, this`history, this`owner, session`state, endpoint.aio
      ensures Inv() && Own.Grows(old(history), history, 1) && ok == !late && pending.None?
      ensures endpoint.aio.sequence == old(endpoint.aio.sequence) && owner.epoch == old(owner.epoch)
      ensures ok ==> ready == Some(old(pending).value.info) && owner.phase == Own.Delivering(old(owner.phase).txn)
      ensures !ok ==> ready.None? && owner.phase == Own.Contained(old(owner.phase).txn)
    {
      var info := pending.value.info;
      pending := None;
      ok := session.FinishReceive(true, late);
      if ok {
        ready := Some(info);
        Record(Own.Delivered(owner.phase.txn));
      } else {
        endpoint.aio.PoisonTransaction();
        NotePoisoned();
      }
    }

    /** The completion is missing after the deadline, or was invalid. */
    method FailReceive(late: bool)
      requires Own.LeadsTo(history, owner) && Attributed() && GenerationsCurrent()
      requires owner.phase.Owned() && Leftover(owner.phase.txn)
      modifies this`history, this`owner, session`state, endpoint.aio
      ensures Inv() && Own.Grows(old(history), history, 1)
      ensures endpoint.aio.sequence == old(endpoint.aio.sequence) && owner.epoch == old(owner.epoch)
      ensures owner.phase == if old(owner.phase).Fenced? then old(owner.phase) else Own.Contained(old(owner.phase).txn)
      ensures session.state == Session.Poisoned && endpoint.aio.state == Exact.Poisoned
    {
      endpoint.aio.PoisonTransaction();
      var ok := session.FinishReceive(false, late);
      NotePoisoned();
    }

    /** Polls for the completion of a read on record: the first one ends it, and only an exact one counts. */
    method PollRecorded(poll: Poll) returns (h: Harvest)
      requires Inv() && pending.Some?
      modifies endpoint`queue, endpoint`payloadSeq, endpoint.aio
      ensures h == NotYet <==> poll.NothingYet?
      ensures h == Harvest.Exact <==>
        && owner.phase.Receiving? && owner.phase.statusOk && poll.CompletedWith?
        && poll.bytes == owner.phase.txn.bytes && old(endpoint.payloadSeq) + 1 < TWO_TO_THE_64
      ensures h == NotYet ==> Inv()
      ensures h != NotYet ==> Attributed() && GenerationsCurrent()
      ensures h != NotYet ==> endpoint.queue == if poll.Unreadable? then old(endpoint.queue) else None
      ensures h == Harvest.Exact ==> endpoint.aio.state == Exact.Processing
      ensures endpoint.aio.sequence == old(endpoint.aio.sequence) && endpoint.aio.metadata == old(endpoint.aio.metadata)
    {
      InvMeans();
      h := endpoint.TryCompleteExactPayload(activation, poll);
    }

    /** Polls for the completion of a read on record, and settles the receive it belongs to. */
    method SettleRecorded(t: Tick) returns (goOn: bool)
      requires Inv() && pending.Some?
      modifies this`pending, this`ready, this`history, this`owner, session`state
      modifies endpoint`queue, endpoint`payloadSeq, endpoint.aio
      ensures Inv() && Own.Grows(old(history), history, 1)
      ensures owner.phase == AfterPoll(old(owner.phase), t.poll, t.late, old(Exhausted()))
      ensures goOn <==> GoesOn(old(owner.phase), true, t, old(Exhausted()))
      ensures !old(owner.phase).Receiving? ==> ready == old(ready)
      ensures goOn ==> (pending.Some? <==> t.poll.NothingYet?)
      ensures endpoint.aio.sequence == old(endpoint.aio.sequence) && owner.epoch == old(owner.epoch)
    {
      InvMeans();
      var h := PollRecorded(t.poll);
      match h {
        case Exact =>
          goOn := Deliver(t.late);
        case NotYet =>
          if session.state == Session.Poisoned || !t.late { return true; }
          InvMeans();
          FailReceive(t.late);
          return false;
        case Invalid =>
          pending := None;
          FailReceive(t.late);
          return false;
      }
    }

    /** Polls for the completion of the pending read, if there is one. Returns whether the iteration goes on. */
    method HarvestPending(t: Tick) returns (goOn: bool)
      requires Inv()
      modifies this`pending, this`ready, this`history, this`owner, session`state
      modifies endpoint`queue, endpoint`payloadSeq, endpoint.aio
      ensures Inv() && Own.Grows(old(history), history, 1)
      ensures owner.phase == AfterPoll(old(owner.phase), t.poll, t.late, old(Exhausted()))
      ensures goOn <==> GoesOn(old(owner.phase), old(pending).Some?, t, old(Exhausted()))
      ensures !old(owner.phase).Receiving? ==> ready == old(ready)
      ensures goOn ==> (pending.Some? <==> old(pending).Some? && t.poll.NothingYet?)
      ensures endpoint.aio.sequence == old(endpoint.aio.sequence) && owner.epoch == old(owner.epoch)
      ensures var p := old(owner.phase);
        p.Receiving? && (t.late || t.poll.Unreadable? || t.poll.CompletedWithError?
                         || (t.poll.CompletedWith? && (t.poll.bytes != p.txn.bytes || !p.statusOk)))
        ==> owner.phase == Own.Contained(p.txn) && history == old(history) + [Own.Poisoned(p.txn)] && !goOn
      ensures var p := old(owner.phase);
        && p.Receiving? && p.statusOk && t.poll == CompletedWith(p.txn.bytes) && !t.late
        && old(endpoint.payloadSeq) + 1 < TWO_TO_THE_64
        ==> owner.phase == Own.Delivering(p.txn) && history == old(history) + [Own.Delivered(p.txn)] && goOn
      ensures !old(owner.phase).Receiving? || (t.poll.NothingYet? && !t.late) ==> history == old(history)
    {
      ghost var h, o := history, owner;
      ReceivingMeans();
      if pending.None? { return true; }
      goOn := SettleRecorded(t);
      Own.OneLabel(h, o, history, owner);
    }

    /** An Enable seen from proven idle starts the next epoch in both machines. */
    method BeginActivation()
      requires Own.LeadsTo(history, owner) && Lockstep() && !owner.phase.Owned() && activation > session.epochId
      requires enables < TWO_TO_THE_64 ==> activation == enables
      modifies this`history, this`owner, session, endpoint.aio
      ensures Inv() && Own.Grows(old(history), history, 1) && owner.phase.Free?
    {
      var ok := endpoint.BeginUsbEpoch(activation);
      assert ok;
      ok := session.BeginUsbEpoch(activation);
      assert ok;
      Record(Own.EpochBegan(activation));
    }

    /** Both machines of an owned transaction are poisoned. */
    method PoisonOwned()
      requires Lockstep() && owner.phase.Owned()
      modifies session`state, endpoint.aio
      ensures session.state == Session.Poisoned && endpoint.aio.View() == Exact.Poison(old(endpoint.aio.View()))
      ensures Attributed() && Leftover(owner.phase.txn)
    {
      if session.CurrentlyOwned() {
        session.Poison();
        endpoint.aio.PoisonTransaction();
      }
    }

    /** The session ends while a transaction is owned: both machines are poisoned until it can be retired. */
    method EndSession(reason: Reason, next: UsbSessionState)
      requires Own.LeadsTo(history, owner) && Lockstep() && boundary.None? && owner.phase.Owned()
      requires next != UsbLifecycle.Contained
      requires enables < TWO_TO_THE_64 ==>
        activation == enables && owner.epoch + (if reason == Enable then 1 else 0) == activation
      modifies this`usb, this`boundary, this`history, this`owner, session`state, endpoint.aio
      ensures Inv() && Own.Grows(old(history), history, 1)
      ensures owner.phase == Own.Fenced(old(owner.phase).txn, if reason == Enable then Some(activation) else None)
      ensures usb == next && boundary == Some(Boundary(reason, if reason == Enable then Some(activation) else None))
      ensures owner.epoch == old(owner.epoch)
    {
      PoisonOwned();
      usb := next;
      var newEpoch := if reason == Enable then Some(activation) else None;
      boundary := Some(Boundary(reason, newEpoch));
      Record(Own.Ended(owner.phase.txn, newEpoch));
      assert Lockstep();
      assert GenerationsCurrent();
      InvFrom();
    }

    /** Counts an Enable and classifies the event; releases nothing. */
    method ObserveLifecycle(reason: Reason) returns (v: Verdict)
      requires Inv() && boundary.None?
      modifies this`activation, this`enables
      ensures Lockstep() && Fits(v, reason, owner.phase.Owned())
      ensures v.Continue? ==> v.next != UsbLifecycle.Contained
      ensures reason in {InvalidStateCheck, CommitWithoutPending} && !owner.phase.Owned() ==> v == Continue(usb)
      ensures enables == old(enables) + if reason == Enable then 1 else 0
      ensures activation == if reason == Enable then Exact.NextGeneration(old(activation)) else old(activation)
    {
      InvMeans();
      if reason == Enable {
        activation := Exact.NextGeneration(activation);
        enables := enables + 1;
      }
      var g := Gate();
      v := Classify(usb, InputOf(reason), g.IsProvenIdle());
      ClassifyFits(usb, reason, owner.phase.Owned());
    }

    /** Nothing is owned: the session goes on, in a new epoch if the event was an Enable. */
    method ContinueSession(reason: Reason, next: UsbSessionState)
      requires Own.LeadsTo(history, owner) && Lockstep() && boundary.None? && !owner.phase.Owned()
      requires next != UsbLifecycle.Contained
      requires enables < TWO_TO_THE_64 ==>
        activation == enables && owner.epoch + (if reason == Enable then 1 else 0) == activation
      modifies this`usb, this`history, this`owner, session, endpoint.aio
      ensures Inv() && Own.Grows(old(history), history, 1)
      ensures owner.phase ==
        if reason == Enable && activation > old(owner.epoch) then Own.Free else old(owner.phase)
      ensures usb == next && (reason != Enable ==> owner.epoch == old(owner.epoch))
    {
      var idle := session.ObserveLifecycle();
      assert idle;
      usb := next;
      if reason == Enable && activation > session.epochId {
        BeginActivation();
      }
    }

    /** A protocol error hit an owned transaction: both machines are poisoned. */
    method ContainOwner()
      requires Inv() && boundary.None? && owner.phase.Owned()
      modifies this`usb, this`history, this`owner, session`state, endpoint.aio
      ensures Inv() && Own.Grows(old(history), history, 1) && owner.phase == Own.Contained(old(owner.phase).txn)
      ensures usb == UsbLifecycle.Contained && owner.epoch == old(owner.epoch)
    {
      InvMeans();
      var idle := session.ObserveLifecycle();
      assert !idle;
      session.Poison();
      endpoint.aio.PoisonTransaction();
      NotePoisoned();
      InvMeans();
      usb := UsbLifecycle.Contained;
      InvFrom();
    }

    /** Classifies a lifecycle event or protocol error and applies the verdict. */
    method HandleLifecycle(reason: Reason) returns (v: Verdict)
      requires Inv() && boundary.None?
      modifies this, session, endpoint.aio
      ensures Inv() && Own.Grows(old(history), history, 1)
      ensures enables == old(enables) + if reason == Enable then 1 else 0
      ensures Fits(v, reason, old(owner.phase).Owned())
      ensures activation == ActivationAfter(old(activation), reason)
      ensures reason != Enable ==> owner.epoch == old(owner.epoch)
      ensures owner.phase == AfterLifecycle(old(owner.phase), old(owner.epoch), reason, activation)
      ensures usb ==
        match reason
        case Enable => Active
        case Resume => Active
        case Suspend => Suspended
        case Bind => WaitingForHost
        case Disconnected => WaitingForHost
        case Unbind => if old(owner.phase).Owned() then WaitingForHost else old(usb)
        case InvalidStateCheck => if old(owner.phase).Owned() then UsbLifecycle.Contained else old(usb)
        case CommitWithoutPending => if old(owner.phase).Owned() then UsbLifecycle.Contained else old(usb)
    {
      InvMeans();
      v := ObserveLifecycle(reason);
      match v {
        case Continue(next) => ContinueSession(reason, next);
        case PreserveOwned(next) =>
          usb := next;
          InvFrom();
        case SessionBoundary(next) => EndSession(reason, next);
        case Contain => ContainOwner();
        case FatalUnbind =>
      }
    }

    /** Both machines have armed and their read is queued: puts the new transaction on record. */
    method NoteArmed(info: SetBuffer, sequence: u64)
      requires Own.LeadsTo(history, owner) && owner.phase.Free? && boundary.None? && usb != UsbLifecycle.Contained
      requires pending.None? && ready.None? && session.state == Session.InFlight && WireLength(info) > 0
      requires guard.SetBufferPermitted() && guard.transactionLimit == 0
      requires session.epochId == endpoint.aio.epochId == owner.epoch && sequence == endpoint.aio.sequence > owner.lastSeq
      requires endpoint.queue.Some? && endpoint.queue.value.op + 1 == endpoint.nextOp && endpoint.queue.value.op >= owner.nextOp
      requires endpoint.queue.value.size == WireLength(info) == endpoint.aio.expectedBytes
      requires endpoint.aio.state == Exact.InFlight && endpoint.aio.operation == Some(endpoint.queue.value.op)
      requires endpoint.aio.metadata == Some(info) && !endpoint.aio.statusReady && endpoint.aio.activation == Some(activation)
      requires enables < TWO_TO_THE_64 ==> activation == enables == owner.epoch
      modifies this`pending, this`history, this`owner, guard
      ensures Inv() && Own.Grows(old(history), history, 1)
      ensures owner.phase == Own.Receiving(Own.Txn(sequence, endpoint.queue.value.op, WireLength(info)), false)
      ensures owner.epoch == old(owner.epoch)
    {
      var ok := guard.BeginAfterAioAcceptance();
      assert ok;
      pending := Some(Pending(info, sequence));
      Record(Own.Armed(Own.Txn(sequence, endpoint.queue.value.op, endpoint.queue.value.size)));
      InvFrom();
    }

    /** Admits a validated SET_BUFFER. Both machines arm together; admission leaves the loop with an error exactly
        when the endpoint was retired and no Enable has followed. */
    method AdmitBuffer(info: SetBuffer, submission: Submission) returns (out: Outcome)
      requires Inv() && guard.SetBufferPermitted()
      modifies this`pending, this`history, this`owner, session`state
      modifies endpoint`queue, endpoint`nextOp, endpoint.aio, guard
      ensures out == Proceed || out == Fault(AdmissionOutsideIdle)
      ensures out.Fault? <==> old(owner.phase).Gone?
      ensures out == Proceed ==> Inv()
      ensures Own.LeadsTo(history, owner) && Own.Grows(old(history), history, 1)
      ensures owner.phase == AfterBuffer(old(owner.phase), old(Count()), info, true, submission)
      ensures owner.epoch == old(owner.epoch) && (out.Fault? ==> history == old(history))
    {
      InvMeans();
      var ok := session.BeginReceive();
      if !ok { return Fault(AdmissionOutsideIdle); }
      var sequence := endpoint.ArmExactPayload(info, activation, submission);
      if sequence.None? {
        ok := session.CancelReceiveBeforeIo();
        assert ok;
        InvFrom();
        return Proceed;
      }
      ok := session.SubmissionAccepted();
      assert ok;
      NoteArmed(info, sequence.value);
      return Proceed;
    }

    /** Presents the ready payload. A payload that survived containment is still presented, and then the loop
        leaves with an error because the transaction cannot be finished any more. */
    method ProcessReady(presented: bool) returns (out: Outcome)
      requires Inv() && boundary.None? && ready.Some?
      modifies this`ready, this`history, this`owner, session`state, endpoint.aio, guard`active
      ensures out == Proceed || out == Fault(FinishFailed)
      ensures out.Fault? <==> presented && old(owner.phase).Contained?
      ensures out == Proceed ==> Inv()
      ensures owner.epoch == old(owner.epoch) && (out.Fault? ==> history == old(history))
      ensures out == Proceed ==>
        if presented then owner.phase.Free?
        else old(owner.phase).Owned() && owner.phase == Own.Contained(old(owner.phase).txn)
      ensures Own.LeadsTo(history, owner) && Own.Grows(old(history), history, 1)
    {
      InvMeans();
      ready := None;
      if !presented {
        endpoint.aio.PoisonTransaction();
        session.Poison();
        NotePoisoned();
        return Proceed;
      }
      var ok := endpoint.aio.FinishProcessing();
      if !ok { return Fault(FinishFailed); }
      ok := session.FinishProcessing();
      assert ok;
      ok := guard.ReleaseAfterCleanup();
      assert ok;
      Record(Own.Finished(owner.phase.txn));
      InvFrom();
      return Proceed;
    }

    /** A status reply went out on the control endpoint. */
    method HandleStatus(status: u8)
      requires Inv() && boundary.None?
      modifies this`pending, this`history, this`owner, session`state, endpoint.aio
      ensures Inv() && Own.Grows(old(history), history, 1)
      ensures owner.phase == AfterStatus(old(owner.phase), status) && owner.epoch == old(owner.epoch)
      ensures var p := old(owner.phase);
        if p.Receiving? && !p.statusOk then
          if status == 0
          then history == old(history) + [Own.Acknowledged(p.txn)] && endpoint.aio.statusReady && pending == old(pending)
          else
            && history == old(history) + [Own.Poisoned(p.txn)] && pending.None?
            && session.state == Session.Poisoned && endpoint.aio.state == Exact.Poisoned
        else history == old(history) && pending == old(pending) && session.state == old(session.state)
    {
      ghost var h, o := history, owner;
      InvMeans();
      var verdict := endpoint.aio.StatusSent(status);
      match verdict {
        case Unrelated =>
        case ForAcceptedBuffer =>
          Record(Own.Acknowledged(owner.phase.txn));
        case NotOk =>
          if pending.Some? {
            pending := None;
            FailReceive(false);
            OneMove(h, o, history, owner);
          }
      }
    }

    method Dispatch(ev: HostEvent, submission: Submission) returns (out: Outcome)
      requires Inv() && boundary.None? && ev.WellFormed()
      modifies this, session, endpoint, endpoint.aio, guard
      ensures out == Proceed ==> Inv()
      ensures Own.LeadsTo(history, owner) && Own.Grows(old(history), history, 1)
      ensures old(enables) <= enables <= old(enables) + 1
      ensures out == Leave <==> ev == Lifecycle(Unbind) && !old(owner.phase).Owned()
      ensures out.Fault? <==>
        || ev == FatalCommit
        || (ev.SetBufferRequest? && ev.valid && old(owner.phase).Gone?)
      ensures out.Fault? ==> out == Fault(if ev == FatalCommit then CommitFailed else AdmissionOutsideIdle)
      ensures out == Leave ==> Inv()
      ensures !out.Fault? ==>
        owner.phase == AfterEvent(old(owner.phase), old(Count()), ev, submission)
      ensures ev != Lifecycle(Enable) ==> owner.epoch == old(owner.epoch)
      ensures out.Fault? ==> history == old(history)
    {
      InvMeans();
      match ev {
        case Lifecycle(reason) =>
          var v := HandleLifecycle(reason);
          return if v.FatalUnbind? then Leave else Proceed;
        case ProtocolError(reason) =>
          var v := HandleLifecycle(reason);
          return Proceed;
        case GetStatus(status) =>
          HandleStatus(status);
          return Proceed;
        case SetBufferRequest(info, valid) =>
          if !guard.SetBufferPermitted() || !valid { return Proceed; }
          // An admitted Buffer never meets a pending receive: the overlapping-Buffer arm is dead.
          assert pending.None?;
          out := AdmitBuffer(info, submission);
        case OtherRequest(parsed) =>
          if !parsed && pending.Some? { FailReceive(false); }
          return Proceed;
        case FatalCommit =>
          return Fault(CommitFailed);
      }
    }

    /** The control endpoint is read; when it is quiet a ready payload is presented. */
    method ServeEp0(t: Tick) returns (out: Outcome)
      requires Inv() && boundary.None? && (t.ep0.Arrived? ==> t.ep0.event.WellFormed())
      modifies this, session, endpoint, endpoint.aio, guard
      ensures !out.Fault? ==> Inv()
      ensures Own.LeadsTo(history, owner) && Own.Grows(old(history), history, 1)
      ensures old(enables) <= enables <= old(enables) + 1
      ensures out !in {Fault(RetireFailed), Fault(EpochNotIncreasing)}
      ensures out == Fault(CommitFailed) <==> t.ep0 == Arrived(FatalCommit) && !old(owner.phase).Contained?
      ensures out == Fault(FinishFailed) <==>
        t.ep0 == Quiet && t.presented && old(ready).Some? && old(owner.phase).Contained?
      ensures out == Fault(AdmissionOutsideIdle) <==>
        t.ep0.Arrived? && t.ep0.event.SetBufferRequest? && t.ep0.event.valid && old(owner.phase).Gone?
      ensures out == Leave <==>
        || (t.ep0 == Arrived(Lifecycle(Unbind)) && !old(owner.phase).Owned())
        || (t.ep0.ReadFailed? && !t.running && old(pending).None?)
      ensures out == Leave ==> !owner.phase.Owned() || t.ep0.ReadFailed?
      ensures out.Fault? <==> Fatal(old(owner.phase), t, old(ready).Some?)
      ensures out == Leave <==> Leaves(old(owner.phase), old(pending).Some?, t)
      ensures !out.Fault? ==>
        owner.phase == AfterEp0(old(owner.phase), old(Count()), t)
      ensures t.ep0 != Arrived(Lifecycle(Enable)) ==> owner.epoch == old(owner.epoch)
      ensures out.Fault? ==> history == old(history)
    {
      InvMeans();
      match t.ep0 {
        case ReadFailed =>
          if pending.Some? {
            FailReceive(t.late);
            return Proceed;
          }
          return if t.running then Proceed else Leave;
        case Quiet =>
          if ready.None? { return Proceed; }
          out := ProcessReady(t.presented);
        case Arrived(ev) =>
          if session.state == Session.Poisoned && !ev.Lifecycle? { return Proceed; }
          out := Dispatch(ev, t.submission);
      }
    }

    /** A destroyed epoch waits for nothing any more. */
    predicate Retiring()
      reads this`boundary, this`pending, endpoint`queue
    {
      boundary.Some? && pending.None? && endpoint.queue.None?
    }

    ghost function Count(): Counts
      reads this, endpoint, endpoint.aio
    {
      Counts(owner.epoch, endpoint.aio.sequence, endpoint.nextOp, activation)
    }

    /** No payload number is left. */
    predicate Exhausted()
      reads endpoint`payloadSeq
    {
      endpoint.payloadSeq + 1 == TWO_TO_THE_64
    }

    /** A shutdown was requested, and nothing is owned. */
    ghost predicate Stops(t: Tick)
      reads this`owner
    {
      t.shutdown && !owner.phase.Owned()
    }

    /** The pass retires nothing, does not stop, and gets as far as the control endpoint. */
    ghost predicate Serves(t: Tick)
      reads this`owner, this`boundary, this`pending, endpoint`queue, endpoint`payloadSeq
    {
      && !Retiring() && !Stops(t)
      && Reaches(owner.phase, pending.Some?, t, Exhausted())
    }

    /** The phase when the control endpoint is served. */
    ghost function Polled(t: Tick): Own.Phase
      reads this`owner, endpoint`payloadSeq
    {
      AfterPoll(owner.phase, t.poll, t.late, Exhausted())
    }

    /** When a pass gets as far as the control endpoint, and in which phase. */
    lemma ServesExactly(t: Tick)
      requires Inv()
      ensures Serves(t) <==>
        var p := owner.phase;
        && !p.Fenced? && !(t.shutdown && (p.Free? || p.Gone?))
        && if p.Receiving? then
             && !t.late
             && (t.poll.NothingYet?
                 || (t.poll == CompletedWith(p.txn.bytes) && p.statusOk && endpoint.payloadSeq + 1 < TWO_TO_THE_64))
           else pending.None? || t.poll.NothingYet?
      ensures Serves(t) ==>
        Polled(t) == if owner.phase.Receiving? && t.poll.CompletedWith? then Own.Delivering(owner.phase.txn) else owner.phase
    {
      InvMeans();
      ReceivingMeans();
    }

    /** The epoch that is to follow a destroyed one is not larger. */
    ghost predicate Stalls()
      reads this`owner, this`boundary, this`pending, endpoint`queue
    {
      Retiring() && boundary.value.newEpoch.Some? && boundary.value.newEpoch.value <= owner.epoch
    }

    /** The first part of a pass: a destroyed epoch is retired, a requested shutdown is heeded, and the completion queue
        is polled. Returns whether the pass gets as far as the control endpoint. */
    method Advance(t: Tick) returns (reached: bool, out: Outcome)
      requires Inv()
      modifies this, session, endpoint, endpoint.aio, guard
      ensures out == Proceed || !reached
      ensures out != Proceed || Inv()
      ensures Own.LeadsTo(history, owner) && Own.Grows(old(history), history, 2)
      ensures enables == old(enables)
      ensures reached <==> old(Serves(t))
      ensures out.Fault? <==> old(Stalls())
      ensures out.Fault? ==> out == Fault(EpochNotIncreasing) && enables >= TWO_TO_THE_64
      ensures out == Leave <==> !old(Retiring()) && old(Stops(t))
      ensures out == Leave ==> Inv() && owner == old(owner)
      ensures out == Proceed && old(Retiring()) ==>
        owner.phase == if old(boundary).value.newEpoch.Some? then Own.Free else Own.Gone
      ensures !old(Retiring()) && !old(Stops(t)) ==> owner.phase == old(Polled(t)) && owner.epoch == old(owner.epoch)
      ensures reached ==>
        && boundary.None? && Count() == old(Count())
        && (pending.Some? <==> old(pending).Some? && t.poll.NothingYet?)
        && (!old(owner.phase).Receiving? ==> ready == old(ready))
      ensures !old(Retiring()) ==> Own.Grows(old(history), history, 1) && owner.epoch == old(owner.epoch)
      ensures AllExplained(t, old(owner.phase).Fenced?, history, |old(history)|)
    {
      ghost var h, o := history, owner;
      InvMeans();
      reached, out := false, Proceed;
      if Retiring() {
        out := RetireBoundary();
        return;
      }
      if t.shutdown {
        var g := Gate();
        if g.IsProvenIdle() { return false, Leave; }
      }
      reached := HarvestPending(t);
      InvMeans();
      Own.OneLabel(h, o, history, owner);
      if |history| > |h| { PollExplains(o, history[|h|], t, old(Exhausted())); }
      reached := reached && boundary.None?;
    }

    /** One pass of the event loop. What it makes of the owner is `AfterTick`, whatever the records look like. */
    method Iterate(t: Tick) returns (out: Outcome)
      requires Inv() && (t.ep0.Arrived? ==> t.ep0.event.WellFormed())
      modifies this, session, endpoint, endpoint.aio, guard
      ensures out != Proceed || Inv()
      ensures Own.LeadsTo(history, owner) && Own.Grows(old(history), history, 2)
      ensures enables <= old(enables) + 1
      ensures out != Fault(RetireFailed)
      ensures out == Fault(EpochNotIncreasing) <==> old(Stalls())
      ensures out == Fault(EpochNotIncreasing) ==> enables >= TWO_TO_THE_64
      ensures out.Fault? <==> old(Stalls()) || (old(Serves(t)) && Fatal(old(Polled(t)), t, old(ready).Some?))
      ensures out == Leave <==>
        || (!old(Retiring()) && old(Stops(t)))
        || (old(Serves(t)) && Leaves(old(Polled(t)), old(pending).Some? && t.poll.NothingYet?, t))
      ensures out == Leave ==> Inv()
      ensures out == Proceed && old(Retiring()) ==>
        owner.phase == if old(boundary).value.newEpoch.Some? then Own.Free else Own.Gone
      ensures !old(Retiring()) && old(Stops(t)) ==> owner == old(owner)
      ensures !old(Retiring()) && !old(Stops(t)) && !out.Fault? ==>
        && owner.phase == AfterTick(old(owner.phase), old(Count()), old(pending).Some?, t, old(Exhausted()))
        && PassMeans(old(owner.phase), old(Count()), old(pending).Some?, t, old(Exhausted()), owner.phase)
      ensures PassLaw(t, history, |old(history)|, |history|)
      ensures out == Leave ==> !owner.phase.Owned() || (t.ep0.ReadFailed? && !t.running)
      ensures out == Fault(CommitFailed) ==> t.ep0 == Arrived(FatalCommit)
      ensures out == Fault(FinishFailed) ==> t.ep0 == Quiet && t.presented && old(owner.phase).Contained?
      ensures out == Fault(AdmissionOutsideIdle) ==>
        t.ep0.Arrived? && t.ep0.event.SetBufferRequest? && t.ep0.event.valid && old(owner.phase).Gone?
    {
      ghost var h, o := history, owner;
      ReceivingMeans();
      var reached;
      reached, out := Advance(t);
      ghost var h', o' := history, owner;
      if reached {
        out := ServeEp0(t);
        ServedExplained(t, h', o', history, owner, old(Count()), |h|);
        ServedLaw(t, h, o, h', o', history, owner, old(Count()), old(Exhausted()));
      } else {
        PolledLaw(t, h, o, history, owner, old(Exhausted()));
      }
      AfterTickMeans(o.phase, old(Count()), old(pending).Some?, t, old(Exhausted()));
    }

    /** Any run: the invariant holds at every loop head, the history stays one the automaton accepts, and every pass adds to
        it what its tick calls for. */
    method Run(ticks: seq<Tick>) returns (out: Outcome, ghost marks: seq<nat>)
      requires Inv() && forall t :: t in ticks && t.ep0.Arrived? ==> t.ep0.event.WellFormed()
      modifies this, session, endpoint, endpoint.aio, guard
      ensures out != Proceed || Inv()
      ensures Own.LeadsTo(history, owner) && old(history) <= history
      ensures old(enables) + |ticks| < TWO_TO_THE_64 ==> out !in {Fault(RetireFailed), Fault(EpochNotIncreasing)}
      ensures Recorded(ticks, history, marks) && marks[0] == |old(history)|
      ensures out == Proceed ==> |marks| == |ticks| + 1
    {
      InvMeans();
      out, marks := Proceed, [|history|];
      var i := 0;
      while i < |ticks| && out == Proceed
        invariant i <= |ticks| && enables <= old(enables) + i
        invariant out != Proceed || Inv()
        invariant Own.LeadsTo(history, owner) && old(history) <= history
        invariant out != Fault(RetireFailed)
        invariant out == Fault(EpochNotIncreasing) ==> enables >= TWO_TO_THE_64
        invariant |marks| == i + 1 && Recorded(ticks, history, marks) && marks[0] == |old(history)|
      {
        ghost var h := history;
        out := Iterate(ticks[i]);
        RecordedGrows(ticks, h, marks, history);
        marks := marks + [|history|];
        i := i + 1;
      }
    }

    /** After the loop: the gadget is unbound only when the gate proves every layer idle. */
    method TearDown() returns (unbound: bool)
      requires Inv()
      modifies session`state
      ensures unbound <==> !owner.phase.Owned()
      ensures session.state == if unbound then Session.ShuttingDown else old(session.state)
    {
      InvMeans();
      var g := Gate();
      if !g.IsProvenIdle() { return false; }
      unbound := session.BeginShutdown();
    }
  }
}

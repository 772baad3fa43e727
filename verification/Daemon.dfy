/**
 Both sides of the event loop together. What the control endpoint brings goes to the owner of the bulk endpoint and to the
 planner of the display, and the owner decides whether the planner sees an invalidation.
 */
module Daemon {
  import opened Wire
  import opened UsbLifecycle
  import Own = Ownership
  import Endpoint
  import Session = Receiver
  import Receive = ReceiveLoop
  import Protocol
  import opened Backend
  import opened Holdings
  import opened Routes
  import opened Runtime
  import opened Moments
  import Display

  /** A request that the planner hears of. */
  datatype Request =
    | Lifecycle(reason: Reason, drawn: bool)                // Enable, Bind, Suspend, Resume, Disable or Unbind
    | Check(state: Protocol.StateRequest)
    | Commit(waitingVisible: bool, drawn: bool)
    | Switch(enable: Protocol.Request)                      // SET_CONTROLLER_ENABLE or SET_DISPLAY_ENABLE
  {
    predicate WellFormed() {
      && (Lifecycle? ==> reason !in {InvalidStateCheck, CommitWithoutPending})
      && (Switch? ==> enable.Controller? || enable.Display?)
    }
  }

  /** One pass of the event loop: a request, or anything that concerns the bulk endpoint alone. */
  datatype Pass = Asked(tick: Receive.Tick, request: Request) | Otherwise(tick: Receive.Tick)
  {
    predicate WellFormed() {
      match this
      case Asked(_, request) => request.WellFormed()
      case Otherwise(tick) =>
        tick.ep0.Arrived? ==> tick.ep0.event.GetStatus? || tick.ep0.event.SetBufferRequest? || tick.ep0.event.OtherRequest?
    }
  }

  /** Why the request invalidates the protocol state, if it does. */
  function Why(v: Protocol.Validation, w: Protocol.View, r: Request): Option<Reason> {
    match r
    case Lifecycle(reason, _) => Some(reason)
    case Check(state) => if Protocol.Passes(v, w, state) then None else Some(InvalidStateCheck)
    case Commit(_, _) => if w.pending.Some? then None else Some(CommitWithoutPending)
    case Switch(_) => None
  }

  /** The lifecycle events that bring up the waiting screen. */
  predicate ShowsWaiting(reason: Reason) {
    reason in {Suspend, Enable, Bind, Disconnected}
  }

  /** What the planner gets to see. */
  function EventsOf(r: Request, handled: bool): seq<DisplayEvent> {
    match r
    case Lifecycle(reason, drawn) =>
      (if ShowsWaiting(reason) then [PresentWaiting(drawn)] else []) + [SessionEvent(handled)]
    case Check(state) => [StateCheck(state, handled)]
    case Commit(waitingVisible, drawn) => [StateCommit(handled, waitingVisible, drawn)]
    case Switch(enable) => [if enable.Controller? then ControllerEnable(enable.enable)
                            else DisplayEnable(if enable.Display? then enable.enable else false)]
  }

  /** What the owner of the bulk endpoint gets to see. */
  function HostEventOf(r: Request, why: Option<Reason>): Receive.HostEvent {
    if why.None? then Receive.OtherRequest(true)
    else if r.Lifecycle? then Receive.Lifecycle(why.value)
    else Receive.ProtocolError(why.value)
  }

  // ---------- what the planner makes of a request, without the functions above ----------

  /** A lifecycle event ends the session, whatever the kernel does. Four of them bring up the waiting scanout first. */
  lemma LifecycleMeans(s: Setting, reason: Reason, drawn: bool, handled: bool, ms: seq<Moment>)
    requires var events := EventsOf(Lifecycle(reason, drawn), handled); Trace(s, events, ms) && |ms| == |events| + 1
    ensures var a, b := ms[0], ms[|ms| - 1];
      var surfaced := (reason == Suspend || reason == Enable || reason == Bind || reason == Disconnected)
                      && Surfaces(s.kernel, a, drawn);
      && b.shown == a.shown + (if surfaced then WaitingFrontOf(b.held) else [])
      && (surfaced ==> b.held.WaitsIn(a.held.Get(a.active).value.mode))
      && b.view == Protocol.View(None, None, false, false, a.view.generation) && b.active == a.active
      && (handled ==> b.candidate.None? && (b.held.lost == a.held.lost ==> b.plan.None?))
      && (!handled ==> b.held == a.held.(waiting := b.held.waiting) && b.candidate == a.candidate && b.plan == a.plan)
  {
    var events := EventsOf(Lifecycle(reason, drawn), handled);
    assert Follows(s, events[0], ms[0], ms[1]);
    if |events| == 2 {
      FollowsMeans(s, events[0], ms[0], ms[1]);
      assert Follows(s, events[1], ms[1], ms[2]);
      SessionEnds(s, handled, ms[1], ms[2]);
    } else {
      SessionEnds(s, handled, ms[0], ms[1]);
    }
  }

  /** A check shows nothing; what it leaves pending is what it asked for, or nothing if it is rejected. */
  lemma CheckMeans(s: Setting, state: Protocol.StateRequest, handled: bool, ms: seq<Moment>)
    requires var events := EventsOf(Check(state), handled); Trace(s, events, ms) && |ms| == |events| + 1
    ensures var a, b := ms[0], ms[|ms| - 1];
      && b.shown == a.shown && b.active == a.active
      && (if s.validation.Accepts(state) && a.view.generation + 1 < TWO_TO_THE_64
          then b.view.pending
               == Some(Protocol.DisplayStateSnapshot(state.mode, state.format, state.connector, a.view.generation + 1))
          else
            && b.view.pending.None?
            && (handled ==> b.candidate.None? && (b.held.lost == a.held.lost ==> b.plan.None?))
            && (!handled ==> b.held == a.held && b.candidate == a.candidate && b.plan == a.plan))
  {
    var event := StateCheck(state, handled);
    assert EventsOf(Check(state), handled)[0] == event;
    assert Follows(s, event, ms[0], ms[1]);
    FollowsMeans(s, event, ms[0], ms[1]);
    if ms[1].view.pending.None? { RejectionDrops(s, event, ms[0], ms[1]); }
  }

  lemma SwitchMeans(s: Setting, enable: Protocol.Request, handled: bool, ms: seq<Moment>)
    requires enable.Controller? || enable.Display?
    requires var events := EventsOf(Switch(enable), handled); Trace(s, events, ms) && |ms| == |events| + 1
    ensures var a, b := ms[0], ms[|ms| - 1];
      && b.shown == a.shown && b.active == a.active
      && b.view.pending == a.view.pending && b.view.committed == a.view.committed
      && (enable.Controller? ==>
            b.view.controllerEnabled == enable.enable && b.view.displayEnabled == (enable.enable && a.view.displayEnabled))
      && (enable.Display? ==>
            && b.view.controllerEnabled == a.view.controllerEnabled
            && b.view.displayEnabled
               == (enable.enable && (a.view.displayEnabled || (a.view.controllerEnabled && a.view.committed.Some?))))
  {
    var events := EventsOf(Switch(enable), handled);
    assert Follows(s, events[0], ms[0], ms[1]);
    FollowsMeans(s, events[0], ms[0], ms[1]);
  }

  /** A commit makes committed what is pending; with nothing pending it shows nothing. */
  lemma CommitMeans(s: Setting, waitingVisible: bool, drawn: bool, handled: bool, ms: seq<Moment>)
    requires var events := EventsOf(Commit(waitingVisible, drawn), handled); Trace(s, events, ms) && |ms| == |events| + 1
    ensures var a, b := ms[0], ms[|ms| - 1];
      if a.view.pending.Some? then b.view.committed == a.view.pending && b.view.pending.None?
      else
        && b.view == a.view && b.shown == a.shown
        && (handled ==> b.candidate.None? && (b.held.lost == a.held.lost ==> b.plan.None?))
        && (!handled ==> b.held == a.held && b.candidate == a.candidate && b.plan == a.plan)
  {
    var event := StateCommit(handled, waitingVisible, drawn);
    assert EventsOf(Commit(waitingVisible, drawn), handled)[0] == event;
    assert Follows(s, event, ms[0], ms[1]);
    FollowsMeans(s, event, ms[0], ms[1]);
    if ms[0].view.pending.None? { RejectionDrops(s, event, ms[0], ms[1]); } else { CommitPresents(s, event, ms[0], ms[1]); }
  }

  /** What the planner may get to see of a pass: nothing, or its request, with the waiting scanout first for four reasons. */
  predicate ComesFrom(p: Pass, events: seq<DisplayEvent>) {
    events == [] || exists handled: bool :: Tells(p, events, handled)
  }

  predicate Tells(p: Pass, events: seq<DisplayEvent>, handled: bool) {
    && p.Asked?
    && match p.request
       case Lifecycle(reason, drawn) =>
         if reason == Suspend || reason == Enable || reason == Bind || reason == Disconnected
         then events == [PresentWaiting(drawn), SessionEvent(handled)] else events == [SessionEvent(handled)]
       case Check(state) => events == [StateCheck(state, handled)]
       case Commit(waitingVisible, drawn) => events == [StateCommit(handled, waitingVisible, drawn)]
       case Switch(Controller(enable)) => events == [ControllerEnable(enable)]
       case Switch(Display(enable)) => events == [DisplayEnable(enable)]
       case Switch(_) => false
  }

  function Joined(parts: seq<seq<DisplayEvent>>): seq<DisplayEvent> {
    if parts == [] then [] else Joined(parts[..|parts| - 1]) + parts[|parts| - 1]
  }

  /** The moments of a run through what the planner got to see of each pass. */
  ghost predicate Traced(s: Setting, passes: seq<Pass>, parts: seq<seq<DisplayEvent>>, ms: seq<Moment>) {
    && Trace(s, Joined(parts), ms) && |parts| <= |passes|
    && forall k :: 0 <= k < |parts| ==> ComesFrom(passes[k], parts[k])
  }

  lemma TracedNext(s: Setting, passes: seq<Pass>, parts: seq<seq<DisplayEvent>>, ms: seq<Moment>,
                   part: seq<DisplayEvent>, more: seq<Moment>)
    requires Traced(s, passes, parts, ms) && |parts| < |passes| && ComesFrom(passes[|parts|], part)
    requires Trace(s, part, more) && |ms| == |Joined(parts)| + 1 && ms[|Joined(parts)|] == more[0]
    ensures Traced(s, passes, parts + [part], ms + more[1..])
    ensures |more| == |part| + 1 ==>
      && |ms + more[1..]| == |Joined(parts + [part])| + 1
      && (ms + more[1..])[|Joined(parts + [part])|] == more[|part|]
  {
    TraceConcat(s, Joined(parts), ms, part, more);
    JoinedNext(parts, part);
  }

  lemma JoinedNext(parts: seq<seq<DisplayEvent>>, part: seq<DisplayEvent>)
    ensures Joined(parts + [part]) == Joined(parts) + part
  {
    assert (parts + [part])[..|parts|] == parts;
  }

  /** The request breaks the protocol: a check that is not accepted, or a commit with nothing pending. */
  predicate Breaks(v: Protocol.Validation, w: Protocol.View, r: Request) {
    || (r.Check? && !(v.Accepts(r.state) && w.generation + 1 < TWO_TO_THE_64))
    || (r.Commit? && w.pending.None?)
  }

  /** What a request means for the owner of the endpoint that it finds in the phase `polled`. */
  lemma OwnerMeans(v: Protocol.Validation, w: Protocol.View, r: Request, t: Receive.Tick, p: Own.Phase, c: Receive.Counts,
                   recorded: bool, exhausted: bool)
    requires Receive.Reaches(p, recorded, t, exhausted) && t.ep0 == Receive.Arrived(HostEventOf(r, Why(v, w, r)))
    requires r.WellFormed()
    ensures var polled := Receive.AfterPoll(p, t.poll, t.late, exhausted);
      var after := Receive.AfterTick(p, c, recorded, t, exhausted);
      && (Breaks(v, w, r) ==> after == if polled.Owned() then Own.Contained(polled.txn) else polled)
      && (!Breaks(v, w, r) && !r.Lifecycle? ==> after == polled)
      && (r.Lifecycle? && polled.Owned() ==>
            if r.reason == Suspend || r.reason == Resume then after == polled
            else after.Fenced? && after.txn == polled.txn && (after.next.Some? <==> r.reason == Enable))
  {}

  /** What a pass means for the planner: `told` if its request gets there, and `fault` if that ends in an error. */
  lemma PassMeans(s: Setting, p: Pass, told: bool, handled: bool, ms: seq<Moment>, fault: bool)
    requires p.WellFormed() && (told ==> p.Asked?)
    requires var events := if told then EventsOf(p.request, handled) else [];
      && Trace(s, events, ms)
      && if fault then |ms| <= |events| && events[|ms| - 1].StateCommit? else |ms| == |events| + 1
    ensures fault ==> told && p.request.Commit?
    ensures !told ==> ms[|ms| - 1] == ms[0]
    ensures told && p.request.Lifecycle? ==>
      ms[|ms| - 1].shown
        == ms[0].shown
           + (if p.request.reason in {Suspend, Enable, Bind, Disconnected} && Surfaces(s.kernel, ms[0], p.request.drawn)
              then WaitingFrontOf(ms[|ms| - 1].held) else [])
    ensures told && (p.request.Check? || p.request.Switch?) ==> ms[|ms| - 1].shown == ms[0].shown
    ensures told && p.request.Lifecycle? ==>
      var a, b := ms[0], ms[|ms| - 1];
      && b.view.pending.None? && b.view.committed.None? && !b.view.controllerEnabled && !b.view.displayEnabled
      && if handled then b.candidate.None? else b.candidate == a.candidate && b.plan == a.plan
    ensures told && p.request.Check? ==>
      var state := p.request.state;
      ms[|ms| - 1].view.pending ==
        if s.validation.Accepts(state) && ms[0].view.generation + 1 < TWO_TO_THE_64
        then Some(Protocol.DisplayStateSnapshot(state.mode, state.format, state.connector, ms[0].view.generation + 1))
        else None
    ensures told && p.request.Commit? && !fault ==>
      var a, b := ms[0], ms[|ms| - 1];
      b.view.pending.None? && if a.view.pending.Some? then b.view.committed == a.view.pending
                              else b.view.committed == a.view.committed && b.shown == a.shown
  {
    if told && !fault {
      match p.request
      case Lifecycle(reason, drawn) => LifecycleMeans(s, reason, drawn, handled, ms);
      case Check(state) => CheckMeans(s, state, handled, ms);
      case Switch(enable) => SwitchMeans(s, enable, handled, ms);
      case Commit(waitingVisible, drawn) => CommitMeans(s, waitingVisible, drawn, handled, ms);
    }
  }

  datatype Side = ReceiveSide | DisplaySide

  /** A pass, with what the planner went through. */
  datatype Record = Record(pass: Pass, ms: seq<Moment>, fault: Option<ScanoutError>)

  class DisplayDaemon {
    const receive: Receive.EventLoop
    const display: Display.DisplayLoop

    constructor (receive: Receive.EventLoop, display: Display.DisplayLoop)
      ensures this.receive == receive && this.display == display
    {
      this.receive, this.display := receive, display;
    }

    /** Both invariants hold. */
    ghost predicate Sound()
      reads receive, receive.session, receive.endpoint, receive.endpoint.aio, receive.guard
      reads display, display.runtime, display.runtime.device, display.runtime.routes, display.shadow, display.protocol
    {
      forall side: Side :: SideHolds(side)
    }

    ghost predicate SideHolds(side: Side)
      reads receive, receive.session, receive.endpoint, receive.endpoint.aio, receive.guard
      reads display, display.runtime, display.runtime.device, display.runtime.routes, display.shadow, display.protocol
    {
      match side
      case ReceiveSide => receive.Inv()
      case DisplaySide => display.Inv()
    }

    lemma SoundMeans()
      requires Sound()
      ensures receive.Inv() && display.Inv()
    {
      assert SideHolds(ReceiveSide) && SideHolds(DisplaySide);
    }

    lemma SoundFrom()
      requires receive.Inv() && display.Inv()
      ensures Sound()
    {}

    function WhyOf(r: Request): Option<Reason>
      reads display.protocol
    {
      Why(display.protocol.validation, display.protocol.Seen(), r)
    }

    /** The pass as the owner of the bulk endpoint sees it. */
    function TickOf(p: Pass): Receive.Tick
      reads display.protocol
    {
      if p.Asked? then p.tick.(ep0 := Receive.Arrived(HostEventOf(p.request, WhyOf(p.request)))) else p.tick
    }

    /** The endpoint is contained: only a lifecycle event can help. */
    predicate Suppressed(state: Session.State, r: Request) {
      state.Poisoned? && !r.Lifecycle?
    }

    /** What the planner sees of a pass that serves the control endpoint in this phase. */
    function Reaching(phase: Own.Phase, p: Pass): seq<DisplayEvent>
      reads display.protocol
    {
      if p.Otherwise? || Suppressed(Receive.StateOf(phase), p.request) then []
      else EventsOf(p.request, Handled(phase, WhyOf(p.request)))
    }

    /** The planner sees the invalidation: nobody owns the endpoint, and the event loop goes on. */
    predicate Handled(phase: Own.Phase, why: Option<Reason>) {
      why.Some? && !phase.Owned() && why.value != Unbind
    }

    /** The receive side observes an invalidation. Returns whether the planner sees it. */
    method Observe(reason: Reason) returns (handled: bool)
      requires receive.Inv() && receive.boundary.None?
      modifies receive, receive.session, receive.endpoint.aio
      ensures receive.Inv() && old(receive.history) <= receive.history
      ensures handled <==> Handled(old(receive.owner.phase), Some(reason))
      ensures receive.owner.phase ==
        Receive.AfterLifecycle(old(receive.owner.phase), old(receive.owner.epoch), reason,
                               Receive.ActivationAfter(old(receive.activation), reason))
      ensures receive.enables <= old(receive.enables) + 1
    {
      var v := receive.HandleLifecycle(reason);
      handled := v.Continue?;
    }

    /** What a request is to the owner of the bulk endpoint; returns what the planner is to see of it, and whether the loop
        goes on. */
    method Tell(p: Pass) returns (events: seq<DisplayEvent>, goOn: bool)
      requires receive.Inv() && receive.boundary.None? && p.Asked? && p.WellFormed()
      modifies receive, receive.session, receive.endpoint.aio
      ensures receive.Inv() && old(receive.history) <= receive.history && receive.enables <= old(receive.enables) + 1
      ensures events == Reaching(old(receive.owner.phase), p)
      ensures goOn <==> !Receive.Leaves(old(receive.owner.phase), old(receive.pending).Some?, TickOf(p))
      ensures receive.owner.phase == Receive.AfterEp0(old(receive.owner.phase), old(receive.Count()), TickOf(p))
    {
      receive.InvMeans();
      var r, why, handled := p.request, WhyOf(p.request), false;
      if Suppressed(receive.session.state, r) { return [], true; }
      var g := receive.Gate();
      goOn := !(r.Lifecycle? && r.reason == Unbind && g.IsProvenIdle());
      if why.Some? { handled := Observe(why.value); }
      events := EventsOf(r, handled);
    }

    /** The planner goes through what it is shown. */
    method Plan(events: seq<DisplayEvent>) returns (fault: Option<ScanoutError>, ghost ms: seq<Moment>)
      requires display.Inv()
      modifies display, display.runtime, display.runtime.device, display.runtime.routes
      modifies display.shadow, display.shadow.pixels, display.protocol
      ensures display.WentThrough(events, ms, fault) && ms != [] && ms[0] == old(display.Now())
    {
      fault, ms := display.Run(events);
    }

    /**
     A request on the control endpoint. The planner sees what it is owed: a candidate and a plan survive the end of a
     session exactly when something owned the endpoint, or an Unbind from idle ended the loop; otherwise the candidate
     goes, and the plan with it unless the kernel keeps something of the candidate. A rejected check and a commit without
     a pending state do the same. While the endpoint is contained, only a lifecycle event reaches anybody.
     */
    method Serve(p: Pass) returns (out: Receive.Outcome, fault: Option<ScanoutError>, ghost ms: seq<Moment>)
      requires receive.Inv() && receive.boundary.None? && display.Inv() && p.Asked? && p.WellFormed()
      modifies receive, receive.session, receive.endpoint.aio
      modifies display, display.runtime, display.runtime.device, display.runtime.routes
      modifies display.shadow, display.shadow.pixels, display.protocol
      ensures receive.Inv() && old(receive.history) <= receive.history && receive.enables <= old(receive.enables) + 1
      ensures out in {Receive.Proceed, Receive.Leave, Receive.Outcome.Fault(Receive.CommitFailed)}
      ensures out.Fault? <==> fault.Some?
      ensures out == Receive.Leave <==>
        fault.None? && Receive.Leaves(old(receive.owner.phase), old(receive.pending).Some?, old(TickOf(p)))
      ensures display.WentThrough(old(Reaching(receive.owner.phase, p)), ms, fault)
      ensures ms != [] && ms[0] == old(display.Now())
      ensures receive.owner.phase == Receive.AfterEp0(old(receive.owner.phase), old(receive.Count()), old(TickOf(p)))
    {
      var events, goOn := Tell(p);
      fault, ms := Plan(events);
      out := if fault.Some? then Receive.Outcome.Fault(Receive.CommitFailed)
             else if goOn then Receive.Proceed else Receive.Leave;
    }

    /** Nothing for the planner to see. */
    ghost method Stay() returns (ms: seq<Moment>)
      requires display.Inv()
      ensures display.WentThrough([], ms, None) && ms != [] && ms[0] == display.Now()
    {
      display.NowRecorded();
      ms := [display.Now()];
    }

    /** Anything else; the planner is not concerned. */
    method ServeOther(t: Receive.Tick) returns (out: Receive.Outcome)
      requires receive.Inv() && receive.boundary.None? && display.Inv() && Otherwise(t).WellFormed()
      modifies receive, receive.session, receive.endpoint, receive.endpoint.aio, receive.guard
      ensures !out.Fault? ==> receive.Inv()
      ensures Own.LeadsTo(receive.history, receive.owner) && old(receive.history) <= receive.history
      ensures receive.enables <= old(receive.enables) + 1
      ensures out !in {Receive.Outcome.Fault(Receive.RetireFailed), Receive.Outcome.Fault(Receive.EpochNotIncreasing)}
      ensures out != Receive.Outcome.Fault(Receive.CommitFailed)
      ensures out == Receive.Leave <==> Receive.Leaves(old(receive.owner.phase), old(receive.pending).Some?, t)
      ensures !out.Fault? ==>
        receive.owner.phase == Receive.AfterEp0(old(receive.owner.phase), old(receive.Count()), t)
      ensures display.Inv() && display.Now() == old(display.Now())
    {
      out := receive.ServeEp0(t);
    }

    /** The second part of a pass: the control endpoint is served. */
    method Answer(p: Pass) returns (out: Receive.Outcome, fault: Option<ScanoutError>, ghost ms: seq<Moment>)
      requires receive.Inv() && receive.boundary.None? && display.Inv() && p.WellFormed()
      modifies receive, receive.session, receive.endpoint, receive.endpoint.aio, receive.guard
      modifies display, display.runtime, display.runtime.device, display.runtime.routes
      modifies display.shadow, display.shadow.pixels, display.protocol
      ensures out != Receive.Proceed || Sound()
      ensures Own.LeadsTo(receive.history, receive.owner) && old(receive.history) <= receive.history
      ensures receive.enables <= old(receive.enables) + 1
      ensures out !in {Receive.Outcome.Fault(Receive.RetireFailed), Receive.Outcome.Fault(Receive.EpochNotIncreasing)}
      ensures out == Receive.Outcome.Fault(Receive.CommitFailed) <==> fault.Some?
      ensures out == Receive.Leave <==>
        fault.None? && Receive.Leaves(old(receive.owner.phase), old(receive.pending).Some?, old(TickOf(p)))
      ensures !out.Fault? ==>
        receive.owner.phase == Receive.AfterEp0(old(receive.owner.phase), old(receive.Count()), old(TickOf(p)))
      ensures display.WentThrough(old(Reaching(receive.owner.phase, p)), ms, fault)
      ensures ms != [] && ms[0] == old(display.Now())
    {
      if p.Asked? {
        ghost var seen := Reaching(receive.owner.phase, p);
        out, fault, ms := Serve(p);
        receive.InvMeans();
        display.WentThroughMeans(seen, ms, fault);
      } else {
        out := ServeOther(p.tick);
        fault := None;
        ms := Stay();
      }
    }

    /** What the planner sees of a pass: nothing, unless the pass gets as far as a request that is not suppressed. */
    ghost function Seen(p: Pass): seq<DisplayEvent>
      reads receive, receive.endpoint, display.protocol
    {
      if receive.Serves(p.tick) then Reaching(receive.Polled(p.tick), p) else []
    }

    lemma SeenComesFrom(p: Pass)
      requires p.WellFormed()
      ensures ComesFrom(p, Seen(p))
    {
      if Seen(p) != [] { assert Tells(p, Seen(p), Handled(receive.Polled(p.tick), WhyOf(p.request))); }
    }

    /** One pass of the event loop over both sides, in terms of what each side makes of it. */
    method Turn(p: Pass) returns (out: Receive.Outcome, fault: Option<ScanoutError>, ghost ms: seq<Moment>)
      requires Sound() && p.WellFormed()
      modifies receive, receive.session, receive.endpoint, receive.endpoint.aio, receive.guard
      modifies display, display.runtime, display.runtime.device, display.runtime.routes
      modifies display.shadow, display.shadow.pixels, display.protocol
      ensures out != Receive.Proceed || Sound()
      ensures Own.LeadsTo(receive.history, receive.owner) && old(receive.history) <= receive.history
      ensures receive.enables <= old(receive.enables) + 1
      ensures out != Receive.Outcome.Fault(Receive.RetireFailed)
      ensures out == Receive.Outcome.Fault(Receive.EpochNotIncreasing) ==> receive.enables >= TWO_TO_THE_64
      ensures out == Receive.Outcome.Fault(Receive.CommitFailed) <==> fault.Some?
      ensures out == Receive.Leave <==>
        || (!old(receive.Retiring()) && old(receive.Stops(p.tick)))
        || (old(receive.Serves(p.tick)) && fault.None?
            && Receive.Leaves(old(receive.Polled(p.tick)), old(receive.pending).Some? && p.tick.poll.NothingYet?,
                              old(TickOf(p))))
      ensures !old(receive.Retiring()) && !old(receive.Stops(p.tick)) && !out.Fault? ==>
        receive.owner.phase == Receive.AfterTick(old(receive.owner.phase), old(receive.Count()), old(receive.pending).Some?,
                                                 old(TickOf(p)), old(receive.Exhausted()))
      ensures display.WentThrough(old(Seen(p)), ms, fault) && ms != [] && ms[0] == old(display.Now())
    {
      SoundMeans();
      var reached;
      reached, out := receive.Advance(p.tick);
      if reached {
        out, fault, ms := Answer(p);
      } else {
        fault := None;
        ms := Stay();
      }
    }

    ghost predicate SurfaceKnown(p: Pass)
      reads display, display.runtime, display.runtime.device, display.runtime.routes, display.protocol
    {
      p.Asked? && p.request.Lifecycle? ==>
        (display.SurfaceError(p.request.drawn).None? <==> Surfaces(display.Kernel(), display.Now(), p.request.drawn))
    }

    /** What a pass has done to the display. */
    twostate lemma DisplayAfter(r: Record)
      requires r.pass.WellFormed() && old(SurfaceKnown(r.pass))
      requires display.WentThrough(old(Seen(r.pass)), r.ms, r.fault) && r.ms != [] && r.ms[0] == old(display.Now())
      ensures !(old(receive.Serves(r.pass.tick)) && r.pass.Asked?) ==> r.fault.None? && display.Now() == old(display.Now())
      ensures old(receive.Serves(r.pass.tick)) && r.pass.Asked? && r.pass.request.Lifecycle? ==>
        && r.fault.None?
        && display.runtime.device.shown == old(display.runtime.device.shown)
             + (if && r.pass.request.reason in {Suspend, Enable, Bind, Disconnected}
                   && old(display.SurfaceError(r.pass.request.drawn)).None?
                then display.WaitingFront() else [])
      ensures old(receive.Serves(r.pass.tick)) && r.pass.Asked? && (r.pass.request.Check? || r.pass.request.Switch?) ==>
        r.fault.None? && display.runtime.device.shown == old(display.runtime.device.shown)
      ensures old(receive.Serves(r.pass.tick)) && r.pass.Asked? && r.pass.request.Lifecycle? ==>
        && display.protocol.pendingState.None? && display.protocol.committedState.None?
        && !display.protocol.controllerEnabled && !display.protocol.displayEnabled
        && if !old(receive.Polled(r.pass.tick)).Owned() && r.pass.request.reason != Unbind
           then display.runtime.candidate.None?
           else display.runtime.candidate == old(display.runtime.candidate)
                && display.runtime.routes.pendingPlan == old(display.runtime.routes.pendingPlan)
      ensures old(receive.Serves(r.pass.tick)) && r.pass.Asked? && !r.pass.request.Lifecycle?
              && old(receive.Polled(r.pass.tick)).Contained? ==>
        r.fault.None? && display.Now() == old(display.Now())
      ensures old(receive.Serves(r.pass.tick)) && r.pass.Asked? && r.pass.request.Check?
              && !old(receive.Polled(r.pass.tick)).Contained? ==>
        var state := r.pass.request.state;
        display.protocol.pendingState ==
          if display.protocol.validation.Accepts(state) && old(display.protocol.nextGeneration) + 1 < TWO_TO_THE_64
          then Some(Protocol.DisplayStateSnapshot(state.mode, state.format, state.connector,
                                                  old(display.protocol.nextGeneration) + 1))
          else None
      ensures old(receive.Serves(r.pass.tick)) && r.pass.Asked? && r.pass.request.Commit?
              && !old(receive.Polled(r.pass.tick)).Contained? && r.fault.None? ==>
        && display.protocol.pendingState.None?
        && if old(display.protocol.pendingState).Some?
           then display.protocol.committedState == old(display.protocol.pendingState)
           else display.protocol.committedState == old(display.protocol.committedState)
                && display.runtime.device.shown == old(display.runtime.device.shown)
    {
      var p := r.pass;
      var polled := old(receive.Polled(p.tick));
      var handled := p.Asked? && Handled(polled, old(WhyOf(p.request)));
      var told := old(receive.Serves(p.tick)) && p.Asked? && !Suppressed(Receive.StateOf(polled), p.request);
      display.WentThroughMeans(old(Seen(p)), r.ms, r.fault);
      PassMeans(display.Fixed(), p, told, handled, r.ms, r.fault.Some?);
    }

    /** What a pass has done to the owner of the endpoint. */
    twostate lemma OwnerAfter(p: Pass)
      requires p.WellFormed()
      requires old(receive.Serves(p.tick)) ==>
        receive.owner.phase == Receive.AfterTick(old(receive.owner.phase), old(receive.Count()), old(receive.pending).Some?,
                                                 old(TickOf(p)), old(receive.Exhausted()))
      ensures old(receive.Serves(p.tick)) && p.Asked? && !p.request.Lifecycle? ==>
        receive.owner.phase ==
          if && old(receive.Polled(p.tick)).Owned()
             && old((p.request.Check? && !(display.protocol.validation.Accepts(p.request.state)
                                           && display.protocol.nextGeneration + 1 < TWO_TO_THE_64))
                    || (p.request.Commit? && display.protocol.pendingState.None?))
          then Own.Contained(old(receive.Polled(p.tick)).txn) else old(receive.Polled(p.tick))
      ensures old(receive.Serves(p.tick)) && p.Asked? && p.request.Lifecycle? && old(receive.Polled(p.tick)).Owned() ==>
        var polled := old(receive.Polled(p.tick));
        if p.request.reason == Suspend || p.request.reason == Resume then receive.owner.phase == polled
        else receive.owner.phase.Fenced? && receive.owner.phase.txn == polled.txn
    {
      if old(receive.Serves(p.tick)) && p.Asked? {
        OwnerMeans(display.protocol.validation, old(display.protocol.Seen()), p.request, old(TickOf(p)),
                   old(receive.owner.phase), old(receive.Count()), old(receive.pending).Some?, old(receive.Exhausted()));
      }
    }

    /** One pass of the event loop over both sides, in terms of the request. */
    method Iterate(p: Pass) returns (out: Receive.Outcome, fault: Option<ScanoutError>, ghost ms: seq<Moment>)
      requires Sound() && p.WellFormed()
      modifies receive, receive.session, receive.endpoint, receive.endpoint.aio, receive.guard
      modifies display, display.runtime, display.runtime.device, display.runtime.routes
      modifies display.shadow, display.shadow.pixels, display.protocol
      ensures out != Receive.Proceed || Sound()
      ensures Own.LeadsTo(receive.history, receive.owner) && old(receive.history) <= receive.history
      ensures receive.enables <= old(receive.enables) + 1
      ensures out != Receive.Outcome.Fault(Receive.RetireFailed)
      ensures out == Receive.Outcome.Fault(Receive.EpochNotIncreasing) ==> receive.enables >= TWO_TO_THE_64
      ensures out == Receive.Outcome.Fault(Receive.CommitFailed) <==> fault.Some?
      ensures display.WentThrough(old(Seen(p)), ms, fault) && ms != [] && ms[0] == old(display.Now())
      // A pass that does not get as far as a request leaves the display as it was.
      ensures !(old(receive.Serves(p.tick)) && p.Asked?) ==> fault.None? && display.Now() == old(display.Now())
      // Suspend, Enable, Bind and Disconnected show the waiting scanout if the kernel lets them; other events show nothing.
      ensures old(receive.Serves(p.tick)) && p.Asked? && p.request.Lifecycle? ==>
        && fault.None?
        && display.runtime.device.shown == old(display.runtime.device.shown)
             + (if && p.request.reason in {Suspend, Enable, Bind, Disconnected}
                   && old(display.SurfaceError(p.request.drawn)).None?
                then display.WaitingFront() else [])
      ensures old(receive.Serves(p.tick)) && p.Asked? && (p.request.Check? || p.request.Switch?) ==>
        fault.None? && display.runtime.device.shown == old(display.runtime.device.shown)
      // A session event clears the protocol state; and if nobody owns the endpoint and the loop goes on, nothing stays
      // staged.
      ensures old(receive.Serves(p.tick)) && p.Asked? && p.request.Lifecycle? ==>
        && display.protocol.pendingState.None? && display.protocol.committedState.None?
        && !display.protocol.controllerEnabled && !display.protocol.displayEnabled
        && if !old(receive.Polled(p.tick)).Owned() && p.request.reason != Unbind
           then display.runtime.candidate.None?
           else display.runtime.candidate == old(display.runtime.candidate)
                && display.runtime.routes.pendingPlan == old(display.runtime.routes.pendingPlan)
      // While the endpoint is contained nothing else reaches the display; otherwise checks and commits do.
      ensures old(receive.Serves(p.tick)) && p.Asked? && !p.request.Lifecycle?
              && old(receive.Polled(p.tick)).Contained? ==>
        fault.None? && display.Now() == old(display.Now())
      ensures old(receive.Serves(p.tick)) && p.Asked? && p.request.Check?
              && !old(receive.Polled(p.tick)).Contained? ==>
        var state := p.request.state;
        display.protocol.pendingState ==
          if display.protocol.validation.Accepts(state) && old(display.protocol.nextGeneration) + 1 < TWO_TO_THE_64
          then Some(Protocol.DisplayStateSnapshot(state.mode, state.format, state.connector,
                                                  old(display.protocol.nextGeneration) + 1))
          else None
      ensures old(receive.Serves(p.tick)) && p.Asked? && p.request.Commit?
              && !old(receive.Polled(p.tick)).Contained? && fault.None? ==>
        && display.protocol.pendingState.None?
        && if old(display.protocol.pendingState).Some?
           then display.protocol.committedState == old(display.protocol.pendingState)
           else display.protocol.committedState == old(display.protocol.committedState)
                && display.runtime.device.shown == old(display.runtime.device.shown)
      // A rejected check and a commit with nothing pending contain the owner, if there is one.
      ensures old(receive.Serves(p.tick)) && p.Asked? && !out.Fault? && !p.request.Lifecycle? ==>
        receive.owner.phase ==
          if && old(receive.Polled(p.tick)).Owned()
             && old((p.request.Check? && !(display.protocol.validation.Accepts(p.request.state)
                                           && display.protocol.nextGeneration + 1 < TWO_TO_THE_64))
                    || (p.request.Commit? && display.protocol.pendingState.None?))
          then Own.Contained(old(receive.Polled(p.tick)).txn) else old(receive.Polled(p.tick))
      // A lifecycle event fences the owner, unless it is a Suspend or a Resume.
      ensures old(receive.Serves(p.tick)) && p.Asked? && p.request.Lifecycle?
              && !out.Fault? && old(receive.Polled(p.tick)).Owned() ==>
        var polled := old(receive.Polled(p.tick));
        if p.request.reason == Suspend || p.request.reason == Resume then receive.owner.phase == polled
        else receive.owner.phase.Fenced? && receive.owner.phase.txn == polled.txn
    {
      SoundMeans();
      if p.Asked? && p.request.Lifecycle? { display.SurfacesExactly(p.request.drawn); }
      out, fault, ms := Turn(p);
      DisplayAfter(Record(p, ms, fault));
      if !out.Fault? { OwnerAfter(p); }
    }

    /**
     Any run of both sides. The ownership history stays one the automaton accepts, and the planner goes from moment to
     moment through events whose invalidations it sees exactly as the owner lets it.
     */
    method Run(passes: seq<Pass>)
      returns (out: Receive.Outcome, ghost parts: seq<seq<DisplayEvent>>, ghost ms: seq<Moment>)
      requires Sound() && forall p :: p in passes ==> p.WellFormed()
      modifies receive, receive.session, receive.endpoint, receive.endpoint.aio, receive.guard
      modifies display, display.runtime, display.runtime.device, display.runtime.routes
      modifies display.shadow, display.shadow.pixels, display.protocol
      ensures out != Receive.Proceed || Sound()
      ensures Own.LeadsTo(receive.history, receive.owner) && old(receive.history) <= receive.history
      ensures old(receive.enables) + |passes| < TWO_TO_THE_64 ==>
        out !in {Receive.Outcome.Fault(Receive.RetireFailed), Receive.Outcome.Fault(Receive.EpochNotIncreasing)}
      ensures Traced(display.Fixed(), passes, parts, ms) && ms[0] == old(display.Now())
      ensures out != Receive.Outcome.Fault(Receive.CommitFailed) ==>
        |ms| == |Joined(parts)| + 1 && ms[|Joined(parts)|] == display.Now()
      ensures out == Receive.Proceed ==> |parts| == |passes|
    {
      SoundMeans();
      receive.InvMeans();
      out, parts, ms := Receive.Proceed, [], [display.Now()];
      display.NowRecorded();
      var i := 0;
      while i < |passes| && out == Receive.Proceed
        invariant |parts| == i <= |passes| && receive.enables <= old(receive.enables) + i
        invariant out != Receive.Proceed || Sound()
        invariant Own.LeadsTo(receive.history, receive.owner) && old(receive.history) <= receive.history
        invariant out != Receive.Outcome.Fault(Receive.RetireFailed)
        invariant out == Receive.Outcome.Fault(Receive.EpochNotIncreasing) ==> receive.enables >= TWO_TO_THE_64
        invariant Traced(display.Fixed(), passes, parts, ms) && ms[0] == old(display.Now())
        invariant out != Receive.Outcome.Fault(Receive.CommitFailed) ==>
          |ms| == |Joined(parts)| + 1 && ms[|Joined(parts)|] == display.Now()
      {
        ghost var seen := Seen(passes[i]);
        SeenComesFrom(passes[i]);
        ghost var more;
        var fault;
        out, fault, more := Iterate(passes[i]);
        display.WentThroughMeans(seen, more, fault);
        TracedNext(display.Fixed(), passes, parts, ms, seen, more);
        parts, ms := parts + [seen], ms + more[1..];
        i := i + 1;
      }
    }
  }
}

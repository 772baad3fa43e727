/**
 Runs of the display side, on values: what it is at the head of the event loop, how one event leads from one such moment
 to the next, and what follows for whole runs.
 */
module Moments {
  import opened Wire
  import opened Modes
  import opened Protocol
  import opened Backend
  import opened Scanout
  import opened Holdings
  import opened Routes
  import opened Runtime

  datatype DisplayEvent =
    | StateCheck(request: StateRequest, handled: bool)
    | StateCommit(handled: bool, waitingVisible: bool, drawn: bool)
    | SessionEvent(handled: bool)        // Enable, Bind, Unbind, Suspend, Resume or Disable
    | ControllerEnable(enable: bool)
    | DisplayEnable(enable: bool)
    | PresentWaiting(drawn: bool)        // a lifecycle event or an upload shows the waiting scanout

  /** What the protocol sees of an event. */
  function RequestOf(event: DisplayEvent): Request {
    match event
    case StateCheck(request, _) => Check(request)
    case StateCommit(_, _, _) => Commit
    case SessionEvent(_) => Reset
    case ControllerEnable(enable) => Controller(enable)
    case DisplayEnable(enable) => Request.Display(enable)
    case PresentWaiting(_) => Unrelated
  }

  function Requests(events: seq<DisplayEvent>): seq<Request> {
    seq(|events|, i requires 0 <= i < |events| => RequestOf(events[i]))
  }

  // ---------- the parts of a moment ----------

  /** What is staged in the slot of the candidate. */
  function StagedIn(held: Held, candidate: Option<nat>): Slot {
    if candidate.Some? && candidate.value < 3 then held.Get(candidate.value) else None
  }

  function Contents(s: Slot): seq<ScanoutAllocation> { if s.Some? then [s.value] else [] }

  /** What is held once the candidate is given back. */
  function Released(held: Held, candidate: Option<nat>): Held {
    if candidate.Some? && candidate.value < 3 then held.Without(candidate.value, true) else held
  }

  /** The live bytes without the candidate. */
  function OtherBytes(held: Held, candidate: Option<nat>): nat {
    if candidate.Some? && candidate.value < 3 then held.With(candidate.value, None).Bytes() else held.Bytes()
  }

  /** The catalog has an exact route for the key. */
  predicate ExactIn(catalog: RouteCatalog, key: ModeKey) {
    key in catalog.byKey && catalog.byKey[key] < |catalog.entries| && catalog.entries[catalog.byKey[key]].route.Exact?
  }

  /** A check of `key` does not touch the candidate. */
  predicate KeptBy(catalog: RouteCatalog, key: ModeKey, shown: ModeKey, candidateKey: Option<ModeKey>) {
    ExactIn(catalog, key) && key != shown && candidateKey == Some(key)
  }

  /** A new candidate for the route of `key` can be had once the present one is gone. */
  predicate Obtainable(catalog: RouteCatalog, k: Kernel, key: ModeKey, bytes: nat, answers: Log) {
    ExactIn(catalog, key) && Affordable(k, catalog.entries[catalog.byKey[key]].route.mode, bytes, answers)
  }

  /** What is left of the candidate and the plan when an invalidation is `handled`: the candidate goes, and the plan with
      it unless the kernel keeps something of the candidate. */
  predicate DroppedTo(k: Kernel, handled: bool, held: Held, candidate: Option<nat>, plan: Option<PendingPlan>,
                      held': Held, candidate': Option<nat>, plan': Option<PendingPlan>)
  {
    if !handled then held' == held && candidate' == candidate && plan' == plan
    else
      var stuck := Stuck(k, StagedIn(held, candidate));
      && candidate'.None? && plan' == (if stuck then plan else None)
      && held' == if candidate.Some? && candidate.value < 3 then held.Without(candidate.value, !stuck) else held
  }

  predicate PlannedFor(plan: Option<PendingPlan>, snapshot: DisplayStateSnapshot) {
    plan.Some? && plan.value.snapshot == snapshot
  }

  /** What never changes. */
  datatype Setting = Setting(validation: Validation, catalog: RouteCatalog, kernel: Kernel)

  datatype Moment = Moment(
    view: View, plan: Option<PendingPlan>, route: Option<PresentationRoute>, shownKey: ModeKey,
    candidateKey: Option<ModeKey>, failed: set<FailedRouteKey>,
    held: Held, active: nat, candidate: Option<nat>, peak: nat, past: seq<Held>,
    answers: Log, modesets: nat, mismatches: nat, shown: seq<Modeset>)
  {
    /** A commit that came now would miss its plan. */
    predicate Planless() {
      view.pending.Some? && !PlannedFor(plan, view.pending.value)
    }

    function Staged(): Slot { StagedIn(held, candidate) }

    /** The candidate has the timing of `key`, which is not shown. */
    predicate StagedFor(key: ModeKey) {
      && candidate.Some? && candidate.value < 3 && held.Get(candidate.value).Some?
      && KeyOf(0, held.Get(candidate.value).value.mode.timing) == key != shownKey
    }

    predicate Keeps(catalog: RouteCatalog, key: ModeKey) { KeptBy(catalog, key, shownKey, candidateKey) }

    predicate Obtains(s: Setting, key: ModeKey) {
      Obtainable(s.catalog, s.kernel, key, OtherBytes(held, candidate), answers)
    }

    predicate Knows(key: ModeKey) { FailedRouteKey(key, shownKey) in failed }
  }

  /** The event is a check that passes, but has to give up a staged candidate that the kernel will not take back. */
  predicate IsRefused(s: Setting, event: DisplayEvent, m: Moment) {
    && event.StateCheck? && Passes(s.validation, m.view, event.request)
    && !m.Keeps(s.catalog, RequestedKey(event.request)) && Stuck(s.kernel, m.Staged())
  }

  /** The event leaves the protocol with nothing pending, without a commit. */
  predicate Invalidates(s: Setting, event: DisplayEvent, m: Moment) {
    || event.SessionEvent?
    || (event.StateCheck? && !Passes(s.validation, m.view, event.request))
    || (event.StateCommit? && m.view.pending.None?)
  }

  /** A check leaves the candidate as it is and plans it. */
  predicate Unstirred(a: Moment, b: Moment, kind: PendingPlanKind) {
    && b.held == a.held && b.candidate == a.candidate && b.answers == a.answers && b.failed == a.failed
    && a.candidate.Some? && kind == ExactCandidate(a.candidate.value)
  }

  /** What is staged, remembered and asked for when a check of `key` plans this. */
  predicate Settles(key: ModeKey, kind: PendingPlanKind, a: Moment, b: Moment) {
    match kind
    case ExactCandidate(slot) => b.candidate == Some(slot) && b.StagedFor(key) && b.failed == a.failed
    case ScaledCurrentAfterFailure(PrepareFailed) =>
      && b.candidate.None? && b.held == Released(a.held, a.candidate)
      && b.failed == a.failed + {FailedRouteKey(key, a.shownKey)}
    case ScaledBaseline(switchRequired) =>
      && b.candidate.None? && b.held == Released(a.held, a.candidate) && b.failed == a.failed && b.answers == a.answers
      && switchRequired == (a.active != 0)
    case _ => b.candidate.None? && b.held == Released(a.held, a.candidate) && b.failed == a.failed && b.answers == a.answers
  }

  /** What a check that passes leads to: its plan, unless it is refused, and the loss of the candidate if it is. */
  ghost predicate Planning(s: Setting, request: StateRequest, refused: bool, a: Moment, b: Moment)
    requires request.StateRequest?
  {
    var key := RequestedKey(request);
    && (b.Planless() <==> refused)
    && b.shownKey == a.shownKey && b.active == a.active && (b.candidateKey.Some? <==> b.candidate.Some?)
    && (refused <==> !a.StagedFor(key) && Stuck(s.kernel, a.Staged()))
    && (a.StagedFor(key) ==> b.plan.Some? && Unstirred(a, b, b.plan.value.kind))
    && (!refused && b.plan.Some? ==> Settles(key, b.plan.value.kind, a, b))
    && b.held.lost == a.held.lost + (if refused then Contents(a.Staged()) else [])
    && if refused then b.plan == a.plan
       else
         && b.plan.Some?
         && Chosen(b.plan.value.kind, ExactIn(s.catalog, key), key == a.shownKey, a.Keeps(s.catalog, key), a.Knows(key),
                   a.Obtains(s, key))
  }

  /** What the kernel is asked to show for a slot, and for the waiting scanout. */
  ghost function FrontOf(held: Held, i: nat): seq<Modeset> {
    if i < 3 && held.Get(i).Some? then held.Get(i).value.Front() else []
  }

  ghost function WaitingFrontOf(held: Held): seq<Modeset> {
    if held.waiting.Some? then held.waiting.value.Front() else []
  }

  /** The kernel lets the loop have the waiting scanout in the mode of the active one, drawn, and sets that mode. */
  predicate Surfaces(k: Kernel, m: Moment, drawn: bool) {
    && m.active < 3 && m.held.Get(m.active).Some? && k.sets(m.modesets)
    && var mode := m.held.Get(m.active).value.mode;
       m.held.WaitsIn(mode) || ReplacementError(k, mode, drawn, m.held.Bytes(), m.answers, 0).None?
  }

  /** What an event shows. */
  ghost predicate Shows(s: Setting, event: DisplayEvent, a: Moment, b: Moment) {
    && (event.PresentWaiting? ==>
          && b.held == a.held.(waiting := b.held.waiting) && b.active == a.active && b.candidate == a.candidate
          && b.plan == a.plan && b.route == a.route
          && (Surfaces(s.kernel, a, event.drawn) ==> b.held.WaitsIn(a.held.Get(a.active).value.mode)))
    && (!event.StateCommit? ==> b.active == a.active)
    && b.shown ==
      match event
      case PresentWaiting(drawn) => a.shown + (if Surfaces(s.kernel, a, drawn) then WaitingFrontOf(b.held) else [])
      case StateCommit(_, waitingVisible, _) =>
        if a.view.pending.None? || a.Planless() then a.shown
        else
          var kind := a.plan.value.kind;
          a.shown
          + (if !Switches(kind) || SwitchRefused(kind, s.kernel, a.answers, a.modesets) then []
             else FrontOf(a.held, if kind.ExactCandidate? then kind.slot else BASELINE))
          + (if waitingVisible then WaitingFrontOf(b.held) else [])
      case _ => a.shown
  }

  datatype FollowLaw =
    | ProtocolMoves | MissesCount | ChecksPlan | InvalidationsDrop | CommitsYield | EverythingIsRecorded | FrontsShow

  /** One event leads from one moment to the next. */
  ghost predicate Follows(s: Setting, event: DisplayEvent, a: Moment, b: Moment) {
    forall law: FollowLaw :: Leads(law, s, event, a, b)
  }

  ghost predicate Leads(law: FollowLaw, s: Setting, event: DisplayEvent, a: Moment, b: Moment) {
    match law
    case ProtocolMoves => b.view == Next(s.validation, a.view, RequestOf(event))
    case MissesCount => b.mismatches == a.mismatches + (if event.StateCommit? && a.Planless() then 1 else 0)
    case ChecksPlan =>
      if event.StateCheck? && Passes(s.validation, a.view, event.request)
      then Planning(s, event.request, IsRefused(s, event, a), a, b)
      else b.view.pending.Some? ==> b.plan == a.plan
    case InvalidationsDrop =>
      Invalidates(s, event, a) ==>
        DroppedTo(s.kernel, event.handled, a.held, a.candidate, a.plan, b.held, b.candidate, b.plan)
    case CommitsYield => event.StateCommit? && a.view.pending.Some? ==> Commits(s, a, b)
    case EverythingIsRecorded => Recorded(b.past, b.held, b.peak) && a.past <= b.past && a.held.lost <= b.held.lost
    case FrontsShow => Shows(s, event, a, b)
  }

  /** What a commit of a checked state leads to: its plan is carried out, or there is none and the scanout stays. */
  predicate Commits(s: Setting, a: Moment, b: Moment)
    requires a.view.pending.Some?
  {
    if a.Planless()
    then b.active == a.active && b.route == Some(CurrentAfterFailure(a.view.pending.value.Key(), PlanMismatch))
    else
      && b.route.Some?
      && Yields(a.plan.value, SwitchRefused(a.plan.value.kind, s.kernel, a.answers, a.modesets), a.active, b.route.value,
                b.active)
  }

  lemma FollowsMeans(s: Setting, event: DisplayEvent, a: Moment, b: Moment)
    requires Follows(s, event, a, b)
    ensures b.view == Next(s.validation, a.view, RequestOf(event))
    ensures b.mismatches == a.mismatches + if event.StateCommit? && a.Planless() then 1 else 0
    ensures if event.StateCheck? && Passes(s.validation, a.view, event.request)
            then Planning(s, event.request, IsRefused(s, event, a), a, b)
            else b.view.pending.Some? ==> b.plan == a.plan
    ensures Invalidates(s, event, a) ==>
      DroppedTo(s.kernel, event.handled, a.held, a.candidate, a.plan, b.held, b.candidate, b.plan)
    ensures event.StateCommit? && a.view.pending.Some? ==> Commits(s, a, b)
    ensures Recorded(b.past, b.held, b.peak) && a.past <= b.past && a.held.lost <= b.held.lost
    ensures Shows(s, event, a, b)
  {
    assert Leads(ProtocolMoves, s, event, a, b) && Leads(MissesCount, s, event, a, b);
    assert Leads(ChecksPlan, s, event, a, b) && Leads(InvalidationsDrop, s, event, a, b);
    assert Leads(CommitsYield, s, event, a, b) && Leads(EverythingIsRecorded, s, event, a, b);
    assert Leads(FrontsShow, s, event, a, b);
  }

  /** The waiting scanout was shown, or nothing was. */
  lemma WaitingFollows(s: Setting, drawn: bool, a: Moment, b: Moment)
    requires b == a.(held := b.held, peak := b.peak, past := b.past, answers := b.answers, modesets := b.modesets,
                     shown := b.shown)
    requires b.held == a.held.(waiting := b.held.waiting) && Recorded(b.past, b.held, b.peak) && a.past <= b.past
    requires if Surfaces(s.kernel, a, drawn)
             then b.held.WaitsIn(a.held.Get(a.active).value.mode) && b.shown == a.shown + WaitingFrontOf(b.held)
             else b.shown == a.shown
    ensures Follows(s, PresentWaiting(drawn), a, b)
  {}

  lemma PassingFollows(s: Setting, event: DisplayEvent, a: Moment, b: Moment)
    requires event.StateCheck? && Passes(s.validation, a.view, event.request)
    requires Planning(s, event.request, IsRefused(s, event, a), a, b)
    requires b.view == Next(s.validation, a.view, RequestOf(event)) && b.mismatches == a.mismatches
    requires Recorded(b.past, b.held, b.peak) && a.past <= b.past && b.shown == a.shown
    ensures Follows(s, event, a, b)
  {}

  /**
   Repeating an accepted check changes nothing: no scanout is made or given back, the kernel is asked for nothing, and the
   plan is the same, except that a preparation which failed is not tried again.
   */
  lemma RepeatedCheck(s: Setting, first: DisplayEvent, second: DisplayEvent, a: Moment, b: Moment, c: Moment)
    requires Follows(s, first, a, b) && Follows(s, second, b, c)
    requires first.StateCheck? && second.StateCheck? && first.request == second.request
    requires Passes(s.validation, a.view, first.request) && Passes(s.validation, b.view, second.request)
    requires !b.Planless()
    ensures c.held == b.held && c.candidate == b.candidate && c.answers == b.answers && c.failed == b.failed
    ensures !c.Planless() && b.plan.Some? && c.plan.Some?
    ensures c.plan.value.kind ==
      if b.plan.value.kind == ScaledCurrentAfterFailure(PrepareFailed) then ScaledCurrentAfterFailure(FailedCacheHit)
      else b.plan.value.kind
  {
    var key := RequestedKey(first.request);
    FollowsMeans(s, first, a, b);
    FollowsMeans(s, second, b, c);
    assert Planning(s, first.request, false, a, b);
    if !b.plan.value.kind.ExactCandidate? {
      assert b.Staged() == None && !b.Keeps(s.catalog, key);
      assert Planning(s, first.request, false, b, c);
    }
  }

  /** A run, moment by moment. */
  ghost predicate Trace(s: Setting, events: seq<DisplayEvent>, ms: seq<Moment>) {
    && 0 < |ms| <= |events| + 1
    && Recorded(ms[0].past, ms[0].held, ms[0].peak)
    && forall i :: 0 <= i < |ms| - 1 ==> Follows(s, events[i], ms[i], ms[i + 1])
  }

  /** Runs can be put together. */
  lemma TraceConcat(s: Setting, events: seq<DisplayEvent>, ms: seq<Moment>, more: seq<DisplayEvent>, ns: seq<Moment>)
    requires Trace(s, events, ms) && Trace(s, more, ns) && |ms| == |events| + 1 && ms[|events|] == ns[0]
    ensures Trace(s, events + more, ms + ns[1..])
  {
    var all, qs := events + more, ms + ns[1..];
    forall i | 0 <= i < |qs| - 1 ensures Follows(s, all[i], qs[i], qs[i + 1]) {
      if i < |events| {
        assert Follows(s, events[i], ms[i], ms[i + 1]);
      } else {
        assert Follows(s, more[i - |events|], ns[i - |events|], ns[i - |events| + 1]);
      }
    }
  }

  /** What the end of a session means: nothing is configured any more; and if the loop sees it, nothing is staged, and
      nothing is planned unless the kernel kept something of the candidate. */
  lemma SessionEnds(s: Setting, handled: bool, a: Moment, b: Moment)
    requires Follows(s, SessionEvent(handled), a, b)
    ensures b.view == View(None, None, false, false, a.view.generation) && b.shown == a.shown && b.active == a.active
    ensures handled ==> b.candidate.None? && (b.held.lost == a.held.lost ==> b.plan.None?)
    ensures handled && a.candidate.None? ==> b.held == a.held
    ensures b.held.waiting == a.held.waiting
    ensures !handled ==> b.held == a.held && b.candidate == a.candidate && b.plan == a.plan
  {
    FollowsMeans(s, SessionEvent(handled), a, b);
  }

  /** A rejected check and a commit with nothing pending do the same to what is staged and planned. */
  lemma RejectionDrops(s: Setting, event: DisplayEvent, a: Moment, b: Moment)
    requires Follows(s, event, a, b)
    requires (event.StateCheck? && b.view.pending.None?) || (event.StateCommit? && a.view.pending.None?)
    ensures b.view.pending.None? && b.view.committed == a.view.committed && b.shown == a.shown
    ensures event.handled ==> b.candidate.None? && (b.held.lost == a.held.lost ==> b.plan.None?)
    ensures event.handled && a.candidate.None? ==> b.held == a.held
    ensures !event.handled ==> b.held == a.held && b.candidate == a.candidate && b.plan == a.plan
  {
    FollowsMeans(s, event, a, b);
  }

  /** What a commit of a checked state means, in terms of its plan and of what the kernel answers. */
  lemma CommitPresents(s: Setting, event: DisplayEvent, a: Moment, b: Moment)
    requires Follows(s, event, a, b) && event.StateCommit? && a.view.pending.Some?
    ensures b.view.committed == a.view.pending && b.view.pending.None?
    ensures var asked, k := a.view.pending.value, s.kernel;
      if a.plan.Some? && a.plan.value.snapshot == asked then
        var plan := a.plan.value;
        var first := k.maps(a.answers);
        var granted := first.Some? && k.maps(Then(a.answers, Mapped(first.value))).Some? && k.sets(a.modesets);
        && b.mismatches == a.mismatches
        && match plan.kind
           case ExactActiveNoOp => b.route == Some(DirectExact(plan.logicalKey, plan.logicalKey)) && b.active == a.active
           case ScaledCurrentAfterFailure(reason) =>
             b.route == Some(CurrentAfterFailure(plan.logicalKey, reason)) && b.active == a.active
           case ExactCandidate(slot) =>
             if granted then b.route == Some(DirectExact(plan.logicalKey, plan.logicalKey)) && b.active == slot
             else b.route == Some(CurrentAfterFailure(plan.logicalKey, SwitchFailed)) && b.active == a.active
           case ScaledBaseline(switchRequired) =>
             if !switchRequired || granted then b.route == Some(Baseline(plan.logicalKey)) && b.active == 0
             else b.route == Some(CurrentAfterFailure(plan.logicalKey, BaselineSwitchFailed)) && b.active == a.active
      else
        && b.mismatches == a.mismatches + 1 && b.active == a.active && b.shown == a.shown
        && b.route == Some(CurrentAfterFailure(KeyOf(asked.connector, asked.mode), PlanMismatch))
  {
    FollowsMeans(s, event, a, b);
  }

  /** What a commit shows: the candidate that was planned or the baseline, if it needs to and the kernel lets it, and after
      a planned commit the waiting scanout, if that was visible. */
  lemma CommitShows(s: Setting, event: DisplayEvent, a: Moment, b: Moment)
    requires Follows(s, event, a, b) && event.StateCommit? && a.plan.Some? && a.view.pending == Some(a.plan.value.snapshot)
    ensures var kind, k := a.plan.value.kind, s.kernel;
      var first := k.maps(a.answers);
      var granted := first.Some? && k.maps(Then(a.answers, Mapped(first.value))).Some? && k.sets(a.modesets);
      var slot := if kind.ExactCandidate? then kind.slot else 0;
      b.shown == a.shown
                 + (if granted && (kind.ExactCandidate? || kind == ScaledBaseline(true)) then FrontOf(a.held, slot) else [])
                 + (if event.waitingVisible then WaitingFrontOf(b.held) else [])
  {
    FollowsMeans(s, event, a, b);
  }

  /** The front of a slot is its first framebuffer, in its own mode. */
  lemma FrontIsFirst(h: Held, i: nat)
    requires i < 3 && h.Get(i).Some? && h.Get(i).value.first.framebuffer.Some?
    ensures FrontOf(h, i) == [Modeset(h.Get(i).value.first.framebuffer.value, h.Get(i).value.mode)]
  {}

  lemma WaitingFrontIsOnly(h: Held)
    requires h.waiting.Some? && h.waiting.value.only.framebuffer.Some?
    ensures WaitingFrontOf(h) == [Modeset(h.waiting.value.only.framebuffer.value, h.waiting.value.mode)]
  {}

  // ---------- which commits of a run miss their plans ----------

  /** Of each event whether it is a check that is refused its plan. */
  function RefusedChecks(s: Setting, events: seq<DisplayEvent>, ms: seq<Moment>): seq<bool>
    requires |ms| <= |events| + 1
  {
    seq(|events|, i requires 0 <= i < |events| => i < |ms| && IsRefused(s, events[i], ms[i]))
  }

  lemma {:induction false} ViewOfRun(s: Setting, events: seq<DisplayEvent>, ms: seq<Moment>, n: nat)
    requires Trace(s, events, ms) && n < |ms|
    ensures ms[n].view == After(s.validation, ms[0].view, Requests(events), n)
  {
    if n > 0 {
      ViewOfRun(s, events, ms, n - 1);
      assert Follows(s, events[n - 1], ms[n - 1], ms[n]);
      FollowsMeans(s, events[n - 1], ms[n - 1], ms[n]);
    }
  }

  /** Only a check decides whether what is pending has its plan. */
  lemma PlanlessNext(s: Setting, event: DisplayEvent, a: Moment, b: Moment)
    requires Follows(s, event, a, b) && b.view.pending.Some?
    ensures b.Planless() <==> if event.StateCheck? then IsRefused(s, event, a) else a.Planless()
  {
    FollowsMeans(s, event, a, b);
  }

  /** What is pending lacks its plan exactly if its check was refused. */
  lemma {:induction false} LacksOfRun(s: Setting, events: seq<DisplayEvent>, ms: seq<Moment>, n: nat)
    requires Trace(s, events, ms) && n < |ms| && ms[n].view.pending.Some?
    ensures ms[n].Planless() <==> Lacks(Requests(events), RefusedChecks(s, events, ms), ms[0].Planless(), n)
  {
    if n > 0 {
      assert Follows(s, events[n - 1], ms[n - 1], ms[n]);
      FollowsMeans(s, events[n - 1], ms[n - 1], ms[n]);
      PlanlessNext(s, events[n - 1], ms[n - 1], ms[n]);
      if !events[n - 1].StateCheck? { LacksOfRun(s, events, ms, n - 1); }
    }
  }

  /** A run has the misses that its refused checks explain. */
  lemma {:induction false} MissesOfRun(s: Setting, events: seq<DisplayEvent>, ms: seq<Moment>, n: nat)
    requires Trace(s, events, ms) && n < |ms|
    ensures ms[n].mismatches ==
      ms[0].mismatches + Misses(s.validation, ms[0].view, Requests(events), RefusedChecks(s, events, ms), ms[0].Planless(), n)
  {
    if n > 0 {
      MissesOfRun(s, events, ms, n - 1);
      ViewOfRun(s, events, ms, n - 1);
      assert Follows(s, events[n - 1], ms[n - 1], ms[n]);
      FollowsMeans(s, events[n - 1], ms[n - 1], ms[n]);
      if ms[n - 1].view.pending.Some? { LacksOfRun(s, events, ms, n - 1); }
    }
  }

  /**
   A commit misses its plan if and only if at the check of its own snapshot, the latest one, a candidate was staged that
   the kernel would not take back, and either its timing was not the requested one or that timing was already shown.
   */
  lemma MissedExactly(s: Setting, events: seq<DisplayEvent>, ms: seq<Moment>, c: nat) returns (i: nat)
    requires Trace(s, events, ms) && ms[0].view == UNCONFIGURED
    requires c < |ms| - 1 && events[c].StateCommit? && ms[c].view.pending.Some?
    ensures Checked(s.validation, Requests(events), i, c, ms[c].view.pending.value) && events[i].StateCheck?
    ensures var key := RequestedKey(events[i].request);
      ms[c + 1].mismatches == ms[c].mismatches + 1 <==> !ms[i].StagedFor(key) && Stuck(s.kernel, ms[i].Staged())
  {
    ViewOfRun(s, events, ms, c);
    LacksOfRun(s, events, ms, c);
    i := MissedByItsCheck(s.validation, Requests(events), RefusedChecks(s, events, ms), ms[0].Planless(), c);
    ViewOfRun(s, events, ms, i);
    assert Follows(s, events[c], ms[c], ms[c + 1]);
    FollowsMeans(s, events[c], ms[c], ms[c + 1]);
    assert Follows(s, events[i], ms[i], ms[i + 1]);
    FollowsMeans(s, events[i], ms[i], ms[i + 1]);
    assert Requests(events)[i] == RequestOf(events[i]);
  }

  /** The refused checks of a run lose a candidate each. */
  lemma {:induction false} RefusalsLose(s: Setting, events: seq<DisplayEvent>, ms: seq<Moment>, n: nat)
    requires Trace(s, events, ms) && n < |ms|
    ensures Refusals(RefusedChecks(s, events, ms)[..n]) <= |ms[n].held.lost| - |ms[0].held.lost|
  {
    if n > 0 {
      RefusalsLose(s, events, ms, n - 1);
      RefusalsNext(RefusedChecks(s, events, ms), n - 1);
      assert Follows(s, events[n - 1], ms[n - 1], ms[n]);
      FollowsMeans(s, events[n - 1], ms[n - 1], ms[n]);
    }
  }

  /** So in a run no more commits miss their plans than candidates are lost in it. */
  lemma MissesAreRefusals(s: Setting, events: seq<DisplayEvent>, ms: seq<Moment>, n: nat)
    requires Trace(s, events, ms) && n < |ms|
    ensures ms[n].mismatches - ms[0].mismatches
         <= |ms[n].held.lost| - |ms[0].held.lost| + if ms[0].Planless() then 1 else 0
  {
    MissesOfRun(s, events, ms, n);
    ViewOfRun(s, events, ms, n);
    MissesBounded(s.validation, ms[0].view, Requests(events), RefusedChecks(s, events, ms), ms[0].Planless(), n);
    RefusalsLose(s, events, ms, n);
  }

  // ---------- the peak of a run ----------

  lemma {:induction false} PastOfRun(s: Setting, events: seq<DisplayEvent>, ms: seq<Moment>, i: nat, n: nat)
    requires Trace(s, events, ms) && i <= n < |ms|
    ensures ms[i].past <= ms[n].past && Recorded(ms[n].past, ms[n].held, ms[n].peak)
    decreases n
  {
    if n > 0 {
      assert Follows(s, events[n - 1], ms[n - 1], ms[n]);
      FollowsMeans(s, events[n - 1], ms[n - 1], ms[n]);
    }
    if i < n { PastOfRun(s, events, ms, i, n - 1); }
  }

  /**
   The peak at the end of a run is the largest total of live bytes of the run or of the time before it: no moment of the
   run had more, no change between two moments did, and some total of what is on record was as large. What is on record
   goes from one holding to the next by single changes.
   */
  lemma PeakOfRun(s: Setting, events: seq<DisplayEvent>, ms: seq<Moment>, n: nat) returns (k: nat)
    requires Trace(s, events, ms) && n < |ms|
    ensures forall i :: 0 <= i <= n ==> ms[i].held.Bytes() <= ms[i].peak <= ms[n].peak
    ensures forall j :: 0 <= j < |ms[n].past| ==> TotalAt(ms[n].past, j) <= ms[n].peak
    ensures k < |ms[n].past| && ms[n].peak == TotalAt(ms[n].past, k)
    ensures ms[n].peak > ms[0].peak ==> k >= |ms[0].past|
    ensures forall j :: Linked(ms[n].past, j)
  {
    PastOfRun(s, events, ms, n, n);
    RecordedMeans(ms[n].past, ms[n].held, ms[n].peak);
    forall i | 0 <= i <= n ensures ms[i].held.Bytes() <= ms[i].peak <= ms[n].peak {
      PastOfRun(s, events, ms, i, i);
      PastOfRun(s, events, ms, i, n);
      RecordedMeans(ms[i].past, ms[i].held, ms[i].peak);
      PeakGrows(ms[i].past, ms[n].past);
    }
    forall j | 0 <= j < |ms[n].past| ensures TotalAt(ms[n].past, j) <= ms[n].peak { PeakIsLargest(ms[n].past, j); }
    k := PeakIsReached(ms[n].past);
    if k < |ms[0].past| {
      PastOfRun(s, events, ms, 0, n);
      RecordedMeans(ms[0].past, ms[0].held, ms[0].peak);
      PeakIsLargest(ms[0].past, k);
      assert TotalAt(ms[0].past, k) == TotalAt(ms[n].past, k);
    }
  }
}

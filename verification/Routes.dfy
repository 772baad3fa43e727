/** The dynamic route state: what was planned at the last check and what is presented since the last commit. */
module Routes {
  import Arithmetic
  import opened Wire
  import opened Modes
  import opened Protocol

  datatype FallbackReason = PrepareFailed | SwitchFailed | BaselineSwitchFailed | PlanMismatch | FailedCacheHit

  datatype PendingPlanKind =
    | ExactActiveNoOp
    | ExactCandidate(slot: nat)
    | ScaledBaseline(switchRequired: bool)
    | ScaledCurrentAfterFailure(reason: FallbackReason)

  datatype PendingPlan = PendingPlan(
    snapshot: DisplayStateSnapshot, logicalKey: ModeKey, requestedPhysicalKey: Option<ModeKey>,
    requestedMode: Option<DrmMode>, kind: PendingPlanKind)

  datatype FailedRouteKey = FailedRouteKey(logical: ModeKey, currentPhysical: ModeKey)

  datatype PresentationRoute =
    | DirectExact(logical: ModeKey, physical: ModeKey)
    | Baseline(logical: ModeKey)
    | CurrentAfterFailure(logical: ModeKey, reason: FallbackReason)

  class DynamicRouteState {
    var pendingPlan: Option<PendingPlan>
    var failedRoutes: set<FailedRouteKey>
    var committedSnapshot: Option<DisplayStateSnapshot>
    var presentationRoute: Option<PresentationRoute>
    const baselinePhysicalKey: ModeKey
    var currentPhysicalKey: ModeKey
    var candidateKey: Option<ModeKey>
    ghost var failures: nat          // exact preparations and switches that failed, over the whole run

    constructor (baseline: ModeKey)
      ensures pendingPlan.None? && failedRoutes == {} && committedSnapshot.None? && presentationRoute.None?
      ensures baselinePhysicalKey == currentPhysicalKey == baseline && candidateKey.None? && failures == 0
    {
      pendingPlan, failedRoutes, committedSnapshot, presentationRoute := None, {}, None, None;
      baselinePhysicalKey, currentPhysicalKey, candidateKey, failures := baseline, baseline, None, 0;
    }

    function FailedKey(logical: ModeKey): FailedRouteKey
      reads `currentPhysicalKey
    {
      FailedRouteKey(logical, currentPhysicalKey)
    }

    method NoteFailure(logical: ModeKey)
      modifies `failedRoutes, `failures
      ensures failedRoutes == old(failedRoutes) + {FailedKey(logical)} && failures == old(failures) + 1
    {
      failedRoutes, failures := failedRoutes + {FailedKey(logical)}, failures + 1;
    }

    method InvalidatePending()
      modifies `pendingPlan, `candidateKey
      ensures pendingPlan.None? && candidateKey.None?
    {
      pendingPlan, candidateKey := None, None;
    }
  }

  /** Takes the plan whatever it is; it is returned only when it was made for exactly this snapshot. */
  method TakeMatchingPendingPlan(routes: DynamicRouteState, committed: DisplayStateSnapshot)
    returns (plan: Option<PendingPlan>)
    modifies routes`pendingPlan
    ensures routes.pendingPlan.None?
    ensures plan == if old(routes.pendingPlan).Some? && old(routes.pendingPlan).value.snapshot == committed
                    then old(routes.pendingPlan) else None
  {
    plan := routes.pendingPlan;
    routes.pendingPlan := None;
    if plan.Some? && plan.value.snapshot != committed { plan := None; }
  }

  function CommittedPhysicalKey(route: PresentationRoute, requested: Option<ModeKey>, baseline: ModeKey): Option<ModeKey> {
    if route.Baseline? then Some(baseline) else requested
  }

  // ---------- what plans and commits may be ----------

  /** A check plans this for a route that is `exact`, already `shown`, `kept` as the candidate, `cached` as a failure, or
      `obtainable` as a new candidate. */
  predicate Chosen(kind: PendingPlanKind, exact: bool, shown: bool, kept: bool, cached: bool, obtainable: bool) {
    match kind
    case ScaledBaseline(_) => !exact
    case ExactActiveNoOp => exact && shown
    case ExactCandidate(_) => exact && !shown && (kept || (!cached && obtainable))
    case ScaledCurrentAfterFailure(reason) =>
      && exact && !shown && !kept
      && if cached then reason == FailedCacheHit else !obtainable && reason == PrepareFailed
  }

  /** There is one choice: each kind is chosen exactly for its routes. */
  lemma ChosenExactly(kind: PendingPlanKind, exact: bool, shown: bool, kept: bool, cached: bool, obtainable: bool)
    requires Chosen(kind, exact, shown, kept, cached, obtainable)
    ensures kind.ScaledBaseline? <==> !exact
    ensures kind.ExactActiveNoOp? <==> exact && shown
    ensures kind.ExactCandidate? <==> exact && !shown && (kept || (!cached && obtainable))
    ensures kind == ScaledCurrentAfterFailure(FailedCacheHit) <==> exact && !shown && !kept && cached
    ensures kind == ScaledCurrentAfterFailure(PrepareFailed) <==> exact && !shown && !kept && !cached && !obtainable
  {}

  /** Carrying the plan out needs another scanout to be shown. */
  predicate Switches(kind: PendingPlanKind) {
    kind.ExactCandidate? || kind == ScaledBaseline(true)
  }

  /** A plan whose switch was not `refused` leads to this route and this active slot. */
  predicate Yields(plan: PendingPlan, refused: bool, from: nat, route: PresentationRoute, to: nat) {
    var key := plan.logicalKey;
    match plan.kind
    case ExactActiveNoOp => !refused && route == DirectExact(key, key) && to == from
    case ExactCandidate(slot) =>
      if refused then route == CurrentAfterFailure(key, SwitchFailed) && to == from
      else route == DirectExact(key, key) && to == slot
    case ScaledBaseline(switchRequired) =>
      if refused then switchRequired && route == CurrentAfterFailure(key, BaselineSwitchFailed) && to == from
      else route == Baseline(key) && to == 0
    case ScaledCurrentAfterFailure(reason) =>
      !refused && route == CurrentAfterFailure(key, reason) && to == from
  }

  // ---------- how often an exact route can fail ----------

  /** The pairs that share the logical key `k`. */
  lemma FailuresOfOneKey(failed: set<FailedRouteKey>, k: ModeKey, physical: set<ModeKey>)
    requires forall f :: f in failed ==> f.logical == k && f.currentPhysical in physical
    ensures |failed| <= |physical|
    decreases physical
  {
    if failed != {} {
      var f :| f in failed;
      assert forall g :: g in failed - {f} ==> g.currentPhysical != f.currentPhysical;
      FailuresOfOneKey(failed - {f}, k, physical - {f.currentPhysical});
    }
  }

  /** At most one failure for each pair of keys. */
  lemma {:induction false} FailuresBounded(failed: set<FailedRouteKey>, logical: set<ModeKey>, physical: set<ModeKey>)
    requires forall f :: f in failed ==> f.logical in logical && f.currentPhysical in physical
    ensures |failed| <= |logical| * |physical|
    decreases logical
  {
    if failed != {} {
      var f :| f in failed;
      var same := set g | g in failed && g.logical == f.logical;
      FailuresOfOneKey(same, f.logical, physical);
      FailuresBounded(failed - same, logical - {f.logical}, physical);
      assert failed == same + (failed - same);
      assert |logical - {f.logical}| == |logical| - 1;
      Arithmetic.Distributes(|logical| - 1, 1, |physical|);
    }
  }
}

/**
 The display side of the event loop: checks, commits and lifecycle events drive the protocol state, the planner, the
 scanout runtime and the shadow. The host, the device and the outcome of the receive side's lifecycle handling are
 arbitrary.
 */
module Display {
  import opened Wire
  import opened Modes
  import opened Protocol
  import opened Shadow
  import opened Backend
  import opened Scanout
  import opened Holdings
  import opened Routes
  import opened Runtime
  import opened Moments

  // ---------- the catalog of the program ----------

  /** An exact route leads to a mode that reports the timing of its key. */
  ghost predicate ExactRoutesKeyed(catalog: RouteCatalog) {
    forall i :: 0 <= i < |catalog.entries| && catalog.entries[i].route.Exact? ==>
      catalog.entries[i].key == KeyOf(catalog.connector, catalog.entries[i].route.mode.timing)
  }

  function FromModes(modes: seq<DrmMode>): seq<PhysicalCatalogMode> {
    seq(|modes|, i requires 0 <= i < |modes| => PhysicalCatalogMode(modes[i], modes[i].timing))
  }

  lemma ExactRoutesAreKeyed(catalog: RouteCatalog, modes: seq<DrmMode>, synthetic: seq<DisplayMode>, preferred: ModeKey)
    requires Faithful(catalog, Offered(catalog.connector, FromModes(modes), synthetic), preferred)
    ensures ExactRoutesKeyed(catalog)
  {
    var offered := Offered(catalog.connector, FromModes(modes), synthetic);
    forall i | 0 <= i < |catalog.entries| && catalog.entries[i].route.Exact?
      ensures catalog.entries[i].key == KeyOf(catalog.connector, catalog.entries[i].route.mode.timing)
    {
      var key := catalog.entries[i].key;
      assert catalog.EntryForKey(key) == Some(catalog.entries[i]);
      FirstMatchIsFirst(offered, key);
      var j :| 0 <= j < |offered| && offered[j].key == key && FirstMatch(offered, key).value == offered[j];
      assert offered[j].route == catalog.entries[i].route;
    }
  }

  /** The catalog has this route for the key. */
  predicate Routed(catalog: RouteCatalog, key: ModeKey, route: CatalogRoute) {
    && key in catalog.byKey && catalog.byKey[key] < |catalog.entries|
    && catalog.entries[catalog.byKey[key]].route == route
  }

  /** A key of the catalog is the key of its entry, and of the mode of an exact route. */
  ghost predicate WellKeyed(catalog: RouteCatalog, key: ModeKey) {
    key in catalog.byKey ==>
      && catalog.byKey[key] < |catalog.entries|
      && var entry := catalog.entries[catalog.byKey[key]];
         entry.key == key && (entry.route.Exact? ==> key == KeyOf(0, entry.route.mode.timing))
  }

  lemma CatalogIsWellKeyed(catalog: RouteCatalog, key: ModeKey)
    requires catalog.Valid() && catalog.connector == 0 && ExactRoutesKeyed(catalog)
    ensures WellKeyed(catalog, key)
  {}

  /** An admitted state has an entry of its own key, and its frame fits the shadow. */
  ghost predicate Served(validation: Validation, catalog: RouteCatalog, capacity: nat, snapshot: DisplayStateSnapshot) {
    validation.Admits(snapshot) ==>
    && snapshot.connector == 0
    && snapshot.Key() in catalog.byKey
    && RasterBytes(ShadowIdentity(snapshot)).Some? && RasterBytes(ShadowIdentity(snapshot)).value <= capacity
  }

  datatype ScanoutLaw = Conservation | SlotRoles | MappedIsActive

  datatype RunLaw = MomentByMoment | UpToNow | OrStopped

  datatype CommitLaw = WholeScanouts | TrueKeys | RememberedFailures | CommittedProtocol

  datatype PlannerLaw = Configuration | SoundScanouts | SettledKeys | KnownFailures

  class DisplayLoop {
    const catalog: RouteCatalog
    const runtime: ScanoutRuntime
    const shadow: ShadowFramebuffer
    const protocol: ProtocolState
    var mapped: nat                      // the variant of the mapped active scanout
    ghost var mismatches: nat            // commits that found no matching plan

    ghost predicate Configured()
    {
      && shadow.capacity == shadow.pixels.Length
      && (forall key: ModeKey :: WellKeyed(catalog, key))
      && (forall s: DisplayStateSnapshot :: Served(protocol.validation, catalog, shadow.capacity, s))
    }

    /** Resources are conserved, the slots have their roles, and exactly the active slot is mapped. */
    ghost predicate Scanouts()
      reads `mapped, runtime`held, runtime`active, runtime`candidate
      reads runtime`currentLiveBytes, runtime`observedPeakLiveBytes, runtime`past, runtime`mapped
      reads runtime.device`next, runtime.device`ledger, runtime.device`maps, runtime.device`unmaps
    {
      forall law: ScanoutLaw :: Obeys(law)
    }

    ghost predicate Obeys(law: ScanoutLaw)
      reads `mapped, runtime`held, runtime`active, runtime`candidate
      reads runtime`currentLiveBytes, runtime`observedPeakLiveBytes, runtime`past, runtime`mapped
      reads runtime.device`next, runtime.device`ledger, runtime.device`maps, runtime.device`unmaps
    {
      match law
      case Conservation => runtime.Resources()
      case SlotRoles => runtime.Roles()
      case MappedIsActive => mapped == runtime.active && runtime.mapped == {mapped}
    }

    lemma ScanoutsObey()
      requires Scanouts()
      ensures runtime.Resources() && runtime.Roles() && mapped == runtime.active && runtime.mapped == {mapped}
    {
      assert Obeys(Conservation) && Obeys(SlotRoles) && Obeys(MappedIsActive);
    }

    /** The mode of an occupied slot. */
    function ModeOfSlot(i: nat): Option<DrmMode>
      reads runtime`held
    {
      if i < 3 && runtime.held.Get(i).Some? then Some(runtime.held.Get(i).value.mode) else None
    }

    function KeyOfSlot(i: nat): Option<ModeKey>
      reads runtime`held
    {
      if ModeOfSlot(i).Some? then Some(KeyOf(0, ModeOfSlot(i).value.timing)) else None
    }

    /** What the kernel is asked to show for a slot. */
    ghost function FrontOfSlot(i: nat): seq<Modeset>
      reads runtime`held
    {
      FrontOf(runtime.held, i)
    }

    /** The physical keys are those of the slots, and the candidate is the one the catalog names. */
    ghost predicate Keys(current: ModeKey)
      reads runtime`held, runtime`active, runtime`candidate, runtime.routes`candidateKey
    {
      && KeyOfSlot(runtime.active) == Some(current) && current in catalog.byKey
      && KeyOfSlot(BASELINE) == Some(runtime.routes.baselinePhysicalKey)
      && runtime.routes.baselinePhysicalKey in catalog.byKey
      && (runtime.candidate.Some? ==>
            && runtime.routes.candidateKey.Some? && ModeOfSlot(runtime.candidate.value).Some?
            && Routed(catalog, runtime.routes.candidateKey.value, Exact(ModeOfSlot(runtime.candidate.value).value)))
    }

    /** Nothing about the scanouts is half done. */
    ghost predicate Settled()
      reads runtime`held, runtime`active, runtime`candidate, runtime.routes`candidateKey
      reads runtime.routes`currentPhysicalKey
    {
      Keys(runtime.routes.currentPhysicalKey) && (runtime.routes.candidateKey.Some? <==> runtime.candidate.Some?)
    }

    /** Every failure so far is remembered, once; the candidate's route is not among them. */
    ghost predicate Failures()
      reads runtime.routes`failures, runtime.routes`failedRoutes, runtime.routes`candidateKey
      reads runtime.routes`currentPhysicalKey
    {
      && runtime.routes.failures == |runtime.routes.failedRoutes|
      && (forall f: FailedRouteKey :: Known(runtime.routes.failedRoutes, f))
      && (runtime.routes.candidateKey.Some? ==>
            runtime.routes.FailedKey(runtime.routes.candidateKey.value) !in runtime.routes.failedRoutes)
    }

    ghost predicate Known(failed: set<FailedRouteKey>, f: FailedRouteKey) {
      f in failed ==> f.logical in catalog.byKey && f.currentPhysical in catalog.byKey
    }

    /** What holds whenever a device call has ended and whatever the protocol says. */
    ghost predicate Stands(law: PlannerLaw)
      reads `mapped, runtime`held, runtime`active, runtime`candidate
      reads runtime`currentLiveBytes, runtime`observedPeakLiveBytes, runtime`past, runtime`mapped
      reads runtime.device`next, runtime.device`ledger, runtime.device`maps, runtime.device`unmaps
      reads runtime.routes`failures, runtime.routes`failedRoutes, runtime.routes`candidateKey
      reads runtime.routes`currentPhysicalKey
    {
      match law
      case Configuration => Configured()
      case SoundScanouts => Scanouts()
      case SettledKeys => Settled()
      case KnownFailures => Failures()
    }

    ghost predicate Ready()
      reads `mapped, runtime`held, runtime`active, runtime`candidate
      reads runtime`currentLiveBytes, runtime`observedPeakLiveBytes, runtime`past, runtime`mapped
      reads runtime.device`next, runtime.device`ledger, runtime.device`maps, runtime.device`unmaps
      reads runtime.routes`failures, runtime.routes`failedRoutes, runtime.routes`candidateKey
      reads runtime.routes`currentPhysicalKey
    {
      forall law: PlannerLaw :: Stands(law)
    }

    lemma ReadyMeans()
      requires Ready()
      ensures Configured() && Scanouts() && Settled() && Failures()
    {
      assert Stands(Configuration) && Stands(SoundScanouts) && Stands(SettledKeys) && Stands(KnownFailures);
    }

    lemma ReadyFrom()
      requires Configured() && Scanouts() && Settled() && Failures()
      ensures Ready()
    {}

    /** What holds when a plan is carried out. */
    ghost predicate Executable(plan: PendingPlan)
      reads runtime`held, runtime`active, runtime`candidate, runtime.routes`candidateKey
      reads runtime.routes`currentPhysicalKey
    {
      match plan.kind
      case ExactActiveNoOp => plan.logicalKey == runtime.routes.currentPhysicalKey && runtime.candidate.None?
      case ExactCandidate(slot) =>
        && runtime.candidate == Some(slot) && runtime.routes.candidateKey == Some(plan.logicalKey) == plan.requestedPhysicalKey
        && plan.requestedMode == ModeOfSlot(slot) && plan.requestedMode.Some?
      case ScaledBaseline(switchRequired) =>
        switchRequired == (runtime.active != BASELINE) && runtime.candidate.None?
      case ScaledCurrentAfterFailure(_) => runtime.candidate.None?
    }

    /** A plan is executable for as long as the protocol can still commit its snapshot. */
    ghost predicate SoundPlan(plan: PendingPlan)
      reads runtime`held, runtime`active, runtime`candidate, runtime.routes`candidateKey
      reads runtime.routes`currentPhysicalKey, runtime.routes`pendingPlan, protocol`pendingState
      reads protocol`nextGeneration
    {
      runtime.routes.pendingPlan == Some(plan) ==>
        && plan.snapshot.generation <= protocol.nextGeneration && plan.logicalKey == plan.snapshot.Key()
        && (protocol.pendingState == Some(plan.snapshot) ==> Executable(plan))
    }

    /** The protocol state is valid, and the pending plan is sound. */
    ghost predicate Plans()
      reads runtime`held, runtime`active, runtime`candidate, runtime.routes`candidateKey
      reads runtime.routes`currentPhysicalKey, runtime.routes`pendingPlan, protocol
    {
      protocol.Valid() && forall plan: PendingPlan :: SoundPlan(plan)
    }

    predicate Planned(snapshot: DisplayStateSnapshot)
      reads runtime.routes`pendingPlan
    {
      PlannedFor(runtime.routes.pendingPlan, snapshot)
    }

    /** A commit that came now would miss its plan. */
    predicate Planless()
      reads runtime.routes`pendingPlan, protocol`pendingState
    {
      protocol.pendingState.Some? && !Planned(protocol.pendingState.value)
    }

    /** The shadow holds a raster of the size and format of the snapshot, row after row without padding. */
    ghost predicate Holds(snapshot: DisplayStateSnapshot)
      reads shadow
    {
      && shadow.contentValid && shadow.identity.Some?
      && shadow.identity == Some(ShadowRasterIdentity(snapshot.mode.hdisplay, snapshot.mode.vdisplay, snapshot.format))
      && shadow.width == snapshot.mode.hdisplay && shadow.height == snapshot.mode.vdisplay
      && shadow.pitch == (if snapshot.format == 0x40 then 2 else if snapshot.format == 0x50 then 3 else 4) * shadow.width
    }

    /** Whether a route may be presented for a snapshot, as things are. */
    ghost predicate Presents(route: PresentationRoute, snapshot: DisplayStateSnapshot)
      reads runtime`held, runtime`active, runtime`candidate, runtime.routes`candidateKey
      reads runtime.routes`currentPhysicalKey, shadow
    {
      && route.logical == snapshot.Key()
      && match route
         case DirectExact(logical, physical) =>
           && logical == physical == runtime.routes.currentPhysicalKey
           && ModeOfSlot(runtime.active).Some?
           && ModeOfSlot(runtime.active).value.timing.hdisplay == snapshot.mode.hdisplay
           && ModeOfSlot(runtime.active).value.timing.vdisplay == snapshot.mode.vdisplay
           && !shadow.contentValid
         case Baseline(_) => runtime.active == BASELINE && Holds(snapshot)
         case CurrentAfterFailure(_, _) => Holds(snapshot)
    }

    ghost predicate PresentedAs(route: PresentationRoute)
      reads runtime`held, runtime`active, runtime`candidate, runtime.routes`candidateKey
      reads runtime.routes`currentPhysicalKey
      reads runtime.routes`committedSnapshot, runtime.routes`presentationRoute, shadow
    {
      runtime.routes.presentationRoute == Some(route) ==>
        runtime.routes.committedSnapshot.Some? && Presents(route, runtime.routes.committedSnapshot.value)
    }

    /** Route agreement: what is presented is what the last commit asked for. */
    ghost predicate Presented()
      reads runtime`held, runtime`active, runtime`candidate, runtime.routes`candidateKey
      reads runtime.routes`currentPhysicalKey
      reads runtime.routes`committedSnapshot, runtime.routes`presentationRoute, shadow
    {
      && (runtime.routes.committedSnapshot.Some? ==> runtime.routes.presentationRoute.Some?)
      && (forall route: PresentationRoute :: PresentedAs(route))
    }

    ghost predicate Agreed()
      reads runtime.routes`committedSnapshot, protocol`committedState
    {
      protocol.committedState.Some? ==> runtime.routes.committedSnapshot == protocol.committedState
    }

    ghost predicate Inv()
      reads this, runtime, runtime.device, runtime.routes, shadow, protocol
    {
      Ready() && Plans() && Presented() && Agreed()
    }

    /** The loop is entered with the mapped baseline, nothing checked and nothing committed. */
    constructor (catalog: RouteCatalog, runtime: ScanoutRuntime, shadow: ShadowFramebuffer, protocol: ProtocolState,
                 ghost mode: DrmMode)
      requires AtStart(runtime, mode) && runtime.mapped == {BASELINE} && KeyOf(0, mode.timing) in catalog.byKey
      requires forall key: ModeKey :: WellKeyed(catalog, key)
      requires shadow.capacity == shadow.pixels.Length && protocol.Valid()
      requires forall s: DisplayStateSnapshot :: Served(protocol.validation, catalog, shadow.capacity, s)
      requires protocol.pendingState.None? && protocol.committedState.None?
      ensures this.catalog == catalog && this.runtime == runtime && this.shadow == shadow && this.protocol == protocol
      ensures Inv() && mismatches == 0
    {
      this.catalog, this.runtime := catalog, runtime;
      this.shadow, this.protocol := shadow, protocol;
      mapped, mismatches := BASELINE, 0;
    }

    /** What is presented depends on the scanouts only through the active slot and its mode. */
    twostate lemma PresentedStays()
      requires old(Presented()) && ModeOfSlot(runtime.active) == old(ModeOfSlot(runtime.active))
      requires runtime.active == old(runtime.active) && unchanged(runtime.routes`currentPhysicalKey)
      requires unchanged(runtime.routes`committedSnapshot) && unchanged(runtime.routes`presentationRoute)
      requires unchanged(shadow)
      ensures Presented()
    {
      forall route: PresentationRoute ensures PresentedAs(route) { assert old(PresentedAs(route)); }
    }

    /** With nothing pending a plan need not be executable. */
    twostate lemma PlansStay()
      requires old(Plans()) && protocol.pendingState.None? && unchanged(protocol)
      requires runtime.routes.pendingPlan.None? || unchanged(runtime.routes`pendingPlan)
      ensures Plans()
    {
      assert forall s: DisplayStateSnapshot :: old(protocol.Sound(s)) ==> protocol.Sound(s);
      forall plan: PendingPlan ensures SoundPlan(plan) { assert old(SoundPlan(plan)); }
    }

    /** Giving the candidate up leaves the keys of the other slots alone. */
    twostate lemma ReadyStays()
      requires old(Ready()) && Scanouts() && runtime.candidate.None? && runtime.routes.candidateKey.None?
      requires runtime.active == old(runtime.active) && unchanged(runtime.routes`currentPhysicalKey)
      requires unchanged(runtime.routes`failures) && unchanged(runtime.routes`failedRoutes)
      requires ModeOfSlot(runtime.active) == old(ModeOfSlot(runtime.active))
      requires ModeOfSlot(BASELINE) == old(ModeOfSlot(BASELINE))
      ensures Ready()
    {
      assert old(Stands(Configuration)) && old(Stands(SettledKeys)) && old(Stands(KnownFailures));
      assert Settled();
      assert Failures() by {
        forall f: FailedRouteKey ensures Known(runtime.routes.failedRoutes, f) {
          assert old(Known(runtime.routes.failedRoutes, f));
        }
      }
    }

    /** A candidate was staged for a route that has not failed. */
    twostate lemma ReadyWithCandidate()
      requires old(Ready()) && Scanouts()
      requires runtime.candidate.Some? && ModeOfSlot(runtime.candidate.value).Some? && runtime.routes.candidateKey.Some?
      requires Routed(catalog, runtime.routes.candidateKey.value, Exact(ModeOfSlot(runtime.candidate.value).value))
      requires runtime.routes.FailedKey(runtime.routes.candidateKey.value) !in runtime.routes.failedRoutes
      requires runtime.active == old(runtime.active) && unchanged(runtime.routes`currentPhysicalKey)
      requires unchanged(runtime.routes`failures) && unchanged(runtime.routes`failedRoutes)
      requires ModeOfSlot(runtime.active) == old(ModeOfSlot(runtime.active))
      requires ModeOfSlot(BASELINE) == old(ModeOfSlot(BASELINE))
      ensures Ready()
    {
      assert old(Stands(Configuration)) && old(Stands(SettledKeys)) && old(Stands(KnownFailures));
      assert Settled();
      assert Failures() by {
        forall f: FailedRouteKey ensures Known(runtime.routes.failedRoutes, f) {
          assert old(Known(runtime.routes.failedRoutes, f));
        }
      }
      ReadyFrom();
    }

    /** Nothing but the waiting scanout was replaced. */
    twostate lemma InvStays()
      requires old(Inv()) && Scanouts() && runtime.held == old(runtime.held).(waiting := runtime.held.waiting)
      requires runtime.active == old(runtime.active) && runtime.candidate == old(runtime.candidate)
      requires unchanged(runtime.routes) && unchanged(protocol) && unchanged(shadow) && mapped == old(mapped)
      ensures Inv()
    {
      assert old(Stands(Configuration)) && old(Stands(SettledKeys)) && old(Stands(KnownFailures));
      assert Settled() && Failures();
      ReadyFrom();
      forall s: DisplayStateSnapshot ensures protocol.Sound(s) { assert old(protocol.Sound(s)); }
      forall plan: PendingPlan ensures SoundPlan(plan) { assert old(SoundPlan(plan)); }
      PresentedStays();
    }

    // ---------- releasing the candidate ----------

    /** The slots a check may use: never the mapped one. */
    function Primary(): nat reads `mapped { if mapped == 1 then 2 else 1 }
    function Secondary(): Option<nat> reads `mapped { if mapped == 0 then Some(2) else None }

    function Staged(): Slot
      reads runtime`held, runtime`candidate
    {
      StagedIn(runtime.held, runtime.candidate)
    }

    function Kernel(): Kernel { runtime.device.kernel }

    /** The candidate goes; `refused` if the device kept something of it. */
    ghost predicate Cleared(before: Held, candidate: Option<nat>, refused: bool)
      reads runtime`held, runtime`candidate
    {
      && runtime.candidate.None? && (candidate.Some? ==> candidate.value < 3)
      && runtime.held == (if candidate.Some? then before.Without(candidate.value, !refused) else before)
    }

    /** The candidate is always in one of the available slots; afterwards there is none. */
    method ReleaseDynamicCandidate() returns (error: Option<ScanoutError>)
      requires Configured() && Scanouts()
      modifies runtime`held, runtime`candidate, runtime`currentLiveBytes, runtime`observedPeakLiveBytes
      modifies runtime`past
      modifies runtime.device`ledger, runtime.routes`candidateKey
      ensures Scanouts() && Cleared(old(runtime.held), old(runtime.candidate), error.Some?)
      ensures runtime.routes.candidateKey == if old(runtime.candidate).Some? then None else old(runtime.routes.candidateKey)
      ensures ModeOfSlot(runtime.active) == old(ModeOfSlot(runtime.active))
      ensures ModeOfSlot(BASELINE) == old(ModeOfSlot(BASELINE))
      ensures error.None? || error == Some(ReleaseFailed)
      ensures error.Some? <==> Stuck(Kernel(), old(Staged()))
      ensures old(runtime.past) <= runtime.past
      ensures runtime.device.ledger.Clean() <==> error.None? && old(runtime.device.ledger.Clean())
    {
      ScanoutsObey();
      if runtime.candidate.None? { return None; }
      var index := runtime.candidate.value;
      if index == Primary() {
        error := runtime.ReleaseCandidate(Primary());
      } else if Secondary() == Some(index) {
        error := runtime.ReleaseCandidate(Secondary().value);
      } else {
        return Some(NoEmptySlot);
      }
    }

    // ---------- checks ----------

    /** Makes a candidate in an empty slot. With no candidate there always is one, and it is not mapped. */
    method Stage(mode: DrmMode) returns (slot: Option<nat>)
      requires Scanouts() && runtime.candidate.None?
      modifies runtime`held, runtime`candidate, runtime`currentLiveBytes, runtime`observedPeakLiveBytes
      modifies runtime`past
      modifies runtime.device`next, runtime.device`ledger, runtime.device`answers
      modifies runtime.device`maps, runtime.device`refusals, runtime.device`unmaps
      ensures Scanouts() && runtime.candidate == slot && runtime.held.lost == old(runtime.held.lost)
      ensures ModeOfSlot(runtime.active) == old(ModeOfSlot(runtime.active)) && ModeOfSlot(BASELINE) == old(ModeOfSlot(BASELINE))
      ensures if slot.Some? then ModeOfSlot(slot.value) == Some(mode) else runtime.held == old(runtime.held)
      ensures slot.Some? <==> Affordable(Kernel(), mode, old(runtime.held.Bytes()), old(runtime.device.answers))
      ensures runtime.device.answers == Granted(Kernel(), mode, old(runtime.device.answers)).answers
      ensures old(runtime.past) <= runtime.past
    {
      ScanoutsObey();
      var error := runtime.CreateCandidate(Primary(), mode);
      slot := if error.None? then Some(Primary()) else None;
    }

    /** Prepares an exact route that has not failed. */
    method PrepareExact(key: ModeKey, mode: DrmMode) returns (slot: Option<nat>)
      requires Ready() && runtime.candidate.None?
      requires Routed(catalog, key, Exact(mode)) && runtime.routes.FailedKey(key) !in runtime.routes.failedRoutes
      modifies runtime`held, runtime`candidate, runtime`currentLiveBytes, runtime`observedPeakLiveBytes
      modifies runtime`past
      modifies runtime.device`next, runtime.device`ledger, runtime.device`answers
      modifies runtime.device`maps, runtime.device`refusals, runtime.device`unmaps
      modifies runtime.routes`candidateKey
      ensures Ready() && runtime.candidate == slot && runtime.held.lost == old(runtime.held.lost)
      ensures ModeOfSlot(runtime.active) == old(ModeOfSlot(runtime.active))
      ensures runtime.routes.candidateKey == if slot.Some? then Some(key) else old(runtime.routes.candidateKey)
      ensures slot.Some? ==> ModeOfSlot(slot.value) == Some(mode)
      ensures slot.Some? <==> Affordable(Kernel(), mode, old(runtime.held.Bytes()), old(runtime.device.answers))
      ensures runtime.device.answers == Granted(Kernel(), mode, old(runtime.device.answers)).answers
      ensures old(runtime.past) <= runtime.past
      ensures slot.None? ==> runtime.held == old(runtime.held)
    {
      ReadyMeans();
      slot := Stage(mode);
      if slot.Some? {
        runtime.routes.candidateKey := Some(key);
        ReadyWithCandidate();
      } else {
        ReadyStays();
      }
    }

    /** A pair that has not failed before enters the cache. */
    method RememberFailure(key: ModeKey)
      requires Ready() && runtime.candidate.None? && key in catalog.byKey
      requires runtime.routes.FailedKey(key) !in runtime.routes.failedRoutes
      modifies runtime.routes`failedRoutes, runtime.routes`failures
      ensures Ready() && runtime.routes.failures == old(runtime.routes.failures) + 1
      ensures runtime.routes.failedRoutes == old(runtime.routes.failedRoutes) + {runtime.routes.FailedKey(key)}
    {
      ReadyMeans();
      ghost var failed := runtime.routes.failedRoutes;
      runtime.routes.NoteFailure(key);
      forall f: FailedRouteKey ensures Known(runtime.routes.failedRoutes, f) { assert Known(failed, f); }
      ReadyFrom();
    }

    /** Prepares an exact route that is neither shown nor staged nor known to fail. */
    method TryExact(key: ModeKey, mode: DrmMode) returns (kind: PendingPlanKind)
      requires Ready() && runtime.candidate.None?
      requires Routed(catalog, key, Exact(mode)) && runtime.routes.FailedKey(key) !in runtime.routes.failedRoutes
      modifies runtime`held, runtime`candidate, runtime`currentLiveBytes, runtime`observedPeakLiveBytes
      modifies runtime`past
      modifies runtime.device`next, runtime.device`ledger, runtime.device`answers
      modifies runtime.device`maps, runtime.device`refusals, runtime.device`unmaps
      modifies runtime.routes`candidateKey, runtime.routes`failedRoutes, runtime.routes`failures
      ensures Ready() && ModeOfSlot(runtime.active) == old(ModeOfSlot(runtime.active))
      ensures runtime.held.lost == old(runtime.held.lost) && old(runtime.past) <= runtime.past
      ensures kind == if runtime.candidate.Some? then ExactCandidate(runtime.candidate.value)
                      else ScaledCurrentAfterFailure(PrepareFailed)
      ensures runtime.candidate.Some? ==>
        runtime.routes.candidateKey == Some(key) && ModeOfSlot(runtime.candidate.value) == Some(mode)
      ensures runtime.candidate.Some? <==>
        Affordable(Kernel(), mode, old(runtime.held.Bytes()), old(runtime.device.answers))
      ensures runtime.routes.failedRoutes == old(runtime.routes.failedRoutes) + NewlyFailed(kind, key)
      ensures runtime.device.answers == Granted(Kernel(), mode, old(runtime.device.answers)).answers
      ensures runtime.candidate.None? ==> runtime.held == old(runtime.held)
    {
      var slot := PrepareExact(key, mode);
      if slot.None? { RememberFailure(key); }
      kind := if slot.Some? then ExactCandidate(slot.value) else ScaledCurrentAfterFailure(PrepareFailed);
    }

    /** Gives the candidate up. */
    method ClearCandidate() returns (error: Option<ScanoutError>)
      requires Ready()
      modifies runtime`held, runtime`candidate, runtime`currentLiveBytes, runtime`observedPeakLiveBytes
      modifies runtime`past
      modifies runtime.device`ledger, runtime.routes`candidateKey
      ensures Ready() && Cleared(old(runtime.held), old(runtime.candidate), error.Some?)
      ensures ModeOfSlot(runtime.active) == old(ModeOfSlot(runtime.active))
      ensures error.None? || error == Some(ReleaseFailed)
      ensures error.Some? <==> Stuck(Kernel(), old(Staged()))
      ensures runtime.device.ledger.Clean() <==> error.None? && old(runtime.device.ledger.Clean())
      ensures OtherBytes(runtime.held, runtime.candidate) == old(OtherBytes(runtime.held, runtime.candidate))
      ensures old(runtime.past) <= runtime.past
    {
      ReadyMeans();
      error := ReleaseDynamicCandidate();
      ReadyStays();
    }

    /** The pair that a check adds to the cache: that of a preparation that failed now. */
    ghost function NewlyFailed(kind: PendingPlanKind, key: ModeKey): set<FailedRouteKey>
      reads runtime.routes`currentPhysicalKey
    {
      if kind == ScaledCurrentAfterFailure(PrepareFailed) then {runtime.routes.FailedKey(key)} else {}
    }

    /** A check of `key` does not touch the candidate. */
    predicate Keeps(key: ModeKey)
      reads runtime.routes`candidateKey, runtime.routes`currentPhysicalKey
    {
      KeptBy(catalog, key, runtime.routes.currentPhysicalKey, runtime.routes.candidateKey)
    }

    /** Preparing the route of `key` failed before on this scanout. */
    predicate Cached(key: ModeKey)
      reads runtime.routes`failedRoutes, runtime.routes`currentPhysicalKey
    {
      runtime.routes.FailedKey(key) in runtime.routes.failedRoutes
    }

    predicate Obtains(key: ModeKey)
      reads runtime`held, runtime`candidate, runtime.device`answers
    {
      Obtainable(catalog, Kernel(), key, OtherBytes(runtime.held, runtime.candidate), runtime.device.answers)
    }

    /** A check of `key` has to give up a staged candidate that the kernel will not take back. */
    predicate Refuses(key: ModeKey)
      reads runtime`held, runtime`candidate, runtime.routes`candidateKey, runtime.routes`currentPhysicalKey
    {
      !Keeps(key) && Stuck(Kernel(), Staged())
    }

    /** What a check of `key` decided on, what it asked the kernel for and what it remembers: only a new preparation asks
        for anything, and only one that failed is remembered. */
    ghost predicate Decided(kind: PendingPlanKind, key: ModeKey, kept: bool, cache: set<FailedRouteKey>, obtained: bool,
                            before: Log)
      reads runtime.routes`currentPhysicalKey, runtime.routes`failedRoutes, runtime.device`answers
    {
      var exact, shown, cached := ExactIn(catalog, key), key == runtime.routes.currentPhysicalKey,
                                  runtime.routes.FailedKey(key) in cache;
      && Chosen(kind, exact, shown, kept, cached, obtained)
      && runtime.routes.failedRoutes == cache + NewlyFailed(kind, key)
      && runtime.device.answers == if exact && !shown && !kept && !cached
                                   then Granted(Kernel(), catalog.entries[catalog.byKey[key]].route.mode, before).answers
                                   else before
    }

    /** Tries to prepare an exact route that is neither shown nor staged, unless that is known to fail. */
    method ChooseExact(key: ModeKey, mode: DrmMode) returns (kind: PendingPlanKind)
      requires Ready() && Routed(catalog, key, Exact(mode)) && runtime.candidate.None?
      requires key != runtime.routes.currentPhysicalKey
      modifies runtime`held, runtime`candidate, runtime`currentLiveBytes, runtime`observedPeakLiveBytes
      modifies runtime`past
      modifies runtime.device`next, runtime.device`ledger, runtime.device`answers
      modifies runtime.device`maps, runtime.device`refusals, runtime.device`unmaps
      modifies runtime.routes`candidateKey, runtime.routes`failedRoutes, runtime.routes`failures
      ensures Ready() && ModeOfSlot(runtime.active) == old(ModeOfSlot(runtime.active))
      ensures if kind.ExactCandidate? then
                && runtime.candidate == Some(kind.slot) && runtime.routes.candidateKey == Some(key)
                && ModeOfSlot(kind.slot) == Some(mode)
              else runtime.candidate.None?
      ensures Decided(kind, key, false, old(runtime.routes.failedRoutes), old(Obtains(key)), old(runtime.device.answers))
      ensures runtime.held.lost == old(runtime.held.lost) && old(runtime.past) <= runtime.past
      ensures !kind.ExactCandidate? ==> runtime.held == old(runtime.held)
    {
      kind := ScaledCurrentAfterFailure(FailedCacheHit);
      if !Cached(key) { kind := TryExact(key, mode); }
    }

    /** What a check decides for an exact route that is neither shown nor staged. */
    method DecideExact(key: ModeKey, mode: DrmMode) returns (kind: PendingPlanKind, error: Option<ScanoutError>)
      requires Ready() && Routed(catalog, key, Exact(mode)) && runtime.routes.candidateKey != Some(key)
      requires key != runtime.routes.currentPhysicalKey
      modifies runtime`held, runtime`candidate, runtime`currentLiveBytes, runtime`observedPeakLiveBytes
      modifies runtime`past
      modifies runtime.device`next, runtime.device`ledger, runtime.device`answers
      modifies runtime.device`maps, runtime.device`refusals, runtime.device`unmaps
      modifies runtime.routes`candidateKey, runtime.routes`failedRoutes, runtime.routes`failures
      ensures Ready() && ModeOfSlot(runtime.active) == old(ModeOfSlot(runtime.active))
      ensures error.None? ==>
        if kind.ExactCandidate? then
          && runtime.candidate == Some(kind.slot) && runtime.routes.candidateKey == Some(key)
          && ModeOfSlot(kind.slot) == Some(mode)
        else runtime.candidate.None?
      ensures error.None? ==>
        Decided(kind, key, false, old(runtime.routes.failedRoutes), old(Obtains(key)), old(runtime.device.answers))
      ensures error.Some? ==>
        && runtime.device.answers == old(runtime.device.answers)
        && runtime.routes.failedRoutes == old(runtime.routes.failedRoutes)
      ensures error.Some? <==> Stuck(Kernel(), old(Staged()))
      ensures runtime.held.lost == old(runtime.held.lost) + if error.Some? then Contents(old(Staged())) else []
      ensures old(runtime.past) <= runtime.past
      ensures error.None? && !kind.ExactCandidate? ==> runtime.held == Released(old(runtime.held), old(runtime.candidate))
    {
      kind := ScaledCurrentAfterFailure(FailedCacheHit);
      error := ClearCandidate();
      if error.None? { kind := ChooseExact(key, mode); }
    }

    /** The candidate has the timing of `key`. */
    predicate Stages(key: ModeKey)
      reads runtime`held, runtime`candidate
    {
      runtime.candidate.Some? && KeyOfSlot(runtime.candidate.value) == Some(key)
    }

    /** The candidate has the timing of the route it was staged for. */
    lemma StagedForItsKey()
      requires Ready()
      ensures runtime.candidate.Some? ==> KeyOfSlot(runtime.candidate.value) == runtime.routes.candidateKey
    {
      ReadyMeans();
      if runtime.candidate.Some? { assert WellKeyed(catalog, runtime.routes.candidateKey.value); }
    }

    /** What a check decides for an exact route that is not shown: a candidate that is staged for it is kept. */
    method DecideUnshown(key: ModeKey, mode: DrmMode) returns (kind: PendingPlanKind, error: Option<ScanoutError>)
      requires Ready() && Routed(catalog, key, Exact(mode)) && key != runtime.routes.currentPhysicalKey
      modifies runtime`held, runtime`candidate, runtime`currentLiveBytes, runtime`observedPeakLiveBytes
      modifies runtime`past
      modifies runtime.device`next, runtime.device`ledger, runtime.device`answers
      modifies runtime.device`maps, runtime.device`refusals, runtime.device`unmaps
      modifies runtime.routes`candidateKey, runtime.routes`failedRoutes, runtime.routes`failures
      ensures Ready() && ModeOfSlot(runtime.active) == old(ModeOfSlot(runtime.active))
      ensures error.None? ==>
        if kind.ExactCandidate? then
          && runtime.candidate == Some(kind.slot) && runtime.routes.candidateKey == Some(key)
          && ModeOfSlot(kind.slot) == Some(mode)
        else runtime.candidate.None?
      ensures error.None? ==>
        Decided(kind, key, old(Keeps(key)), old(runtime.routes.failedRoutes), old(Obtains(key)), old(runtime.device.answers))
      ensures error.Some? ==>
        && runtime.device.answers == old(runtime.device.answers)
        && runtime.routes.failedRoutes == old(runtime.routes.failedRoutes)
      ensures old(Keeps(key)) ==> runtime.held == old(runtime.held)
      ensures error.Some? <==> old(Refuses(key))
      ensures runtime.held.lost == old(runtime.held.lost) + if error.Some? then Contents(old(Staged())) else []
      ensures old(runtime.past) <= runtime.past
      ensures error.None? && !kind.ExactCandidate? ==> runtime.held == Released(old(runtime.held), old(runtime.candidate))
      ensures old(runtime.candidate).Some? && old(runtime.routes.candidateKey) == Some(key) ==>
        && error.None? && kind == ExactCandidate(old(runtime.candidate).value)
        && unchanged(runtime) && unchanged(runtime.device) && unchanged(runtime.routes)
    {
      ReadyMeans();
      error := None;
      if runtime.routes.candidateKey == Some(key) && runtime.candidate.Some? {
        kind := ExactCandidate(runtime.candidate.value);
      } else {
        kind, error := DecideExact(key, mode);
      }
    }

    /** The plan for an exact route. */
    method DecideExactRoute(snapshot: DisplayStateSnapshot, mode: DrmMode)
      returns (plan: PendingPlan, error: Option<ScanoutError>)
      requires Ready() && Routed(catalog, snapshot.Key(), Exact(mode))
      modifies runtime`held, runtime`candidate, runtime`currentLiveBytes, runtime`observedPeakLiveBytes
      modifies runtime`past
      modifies runtime.device`next, runtime.device`ledger, runtime.device`answers
      modifies runtime.device`maps, runtime.device`refusals, runtime.device`unmaps
      modifies runtime.routes`candidateKey, runtime.routes`failedRoutes, runtime.routes`failures
      ensures Ready() && ModeOfSlot(runtime.active) == old(ModeOfSlot(runtime.active))
      ensures plan.snapshot == snapshot && plan.logicalKey == snapshot.Key()
      ensures error.None? ==> Executable(plan)
      ensures error.None? ==>
        Decided(plan.kind, snapshot.Key(), old(Keeps(snapshot.Key())), old(runtime.routes.failedRoutes),
                old(Obtains(snapshot.Key())), old(runtime.device.answers))
      ensures error.Some? ==>
        && runtime.device.answers == old(runtime.device.answers)
        && runtime.routes.failedRoutes == old(runtime.routes.failedRoutes)
      ensures old(Keeps(snapshot.Key())) ==> runtime.held == old(runtime.held)
      ensures error.Some? <==> old(Refuses(snapshot.Key()))
      ensures runtime.held.lost == old(runtime.held.lost) + if error.Some? then Contents(old(Staged())) else []
      ensures old(runtime.past) <= runtime.past
      ensures error.None? && !plan.kind.ExactCandidate? ==>
        runtime.held == Released(old(runtime.held), old(runtime.candidate))
      ensures old(Stages(snapshot.Key())) && snapshot.Key() != old(runtime.routes.currentPhysicalKey) ==>
        && error.None? && plan.kind == ExactCandidate(old(runtime.candidate).value)
        && unchanged(runtime) && unchanged(runtime.device) && unchanged(runtime.routes)
    {
      StagedForItsKey();
      var key := snapshot.Key();
      plan := PendingPlan(snapshot, key, Some(key), Some(mode), ExactActiveNoOp);
      if key == runtime.routes.currentPhysicalKey {
        error := ClearCandidate();
      } else {
        var kind;
        kind, error := DecideUnshown(key, mode);
        plan := plan.(kind := kind);
      }
    }

    /** Nothing is staged for a scaled route. */
    lemma StagedIsRouted(key: ModeKey, route: CatalogRoute)
      requires Ready() && Routed(catalog, key, route)
      ensures Stages(key) ==> route.Exact?
    {
      ReadyMeans();
      StagedForItsKey();
    }

    /** The plan for a checked snapshot, whose catalog route is `route`. */
    method Decide(snapshot: DisplayStateSnapshot, route: CatalogRoute)
      returns (plan: PendingPlan, error: Option<ScanoutError>)
      requires Ready() && Routed(catalog, snapshot.Key(), route)
      modifies runtime`held, runtime`candidate, runtime`currentLiveBytes, runtime`observedPeakLiveBytes
      modifies runtime`past
      modifies runtime.device`next, runtime.device`ledger, runtime.device`answers
      modifies runtime.device`maps, runtime.device`refusals, runtime.device`unmaps
      modifies runtime.routes`candidateKey, runtime.routes`failedRoutes, runtime.routes`failures
      ensures Ready() && ModeOfSlot(runtime.active) == old(ModeOfSlot(runtime.active))
      ensures plan.snapshot == snapshot && plan.logicalKey == snapshot.Key()
      ensures error.None? ==> Executable(plan)
      ensures error.None? ==>
        Decided(plan.kind, snapshot.Key(), old(Keeps(snapshot.Key())), old(runtime.routes.failedRoutes),
                old(Obtains(snapshot.Key())), old(runtime.device.answers))
      ensures error.Some? ==>
        && runtime.device.answers == old(runtime.device.answers)
        && runtime.routes.failedRoutes == old(runtime.routes.failedRoutes)
      ensures old(Keeps(snapshot.Key())) ==> runtime.held == old(runtime.held)
      ensures error.Some? <==> old(Refuses(snapshot.Key()))
      ensures runtime.held.lost == old(runtime.held.lost) + if error.Some? then Contents(old(Staged())) else []
      ensures old(runtime.past) <= runtime.past
      ensures error.None? && !plan.kind.ExactCandidate? ==>
        runtime.held == Released(old(runtime.held), old(runtime.candidate))
      ensures old(Stages(snapshot.Key())) && snapshot.Key() != old(runtime.routes.currentPhysicalKey) ==>
        && error.None? && plan.kind == ExactCandidate(old(runtime.candidate).value)
        && unchanged(runtime) && unchanged(runtime.device) && unchanged(runtime.routes)
    {
      StagedIsRouted(snapshot.Key(), route);
      if route.ScaledFallback? {
        plan := PendingPlan(snapshot, snapshot.Key(), None, None, ScaledBaseline(runtime.active != BASELINE));
        error := ClearCandidate();
      } else {
        plan, error := DecideExactRoute(snapshot, route.mode);
      }
    }

    /** The catalog has an entry for an admitted snapshot. */
    lemma AdmittedIsRouted(snapshot: DisplayStateSnapshot)
      requires Ready() && protocol.validation.Admits(snapshot)
      ensures snapshot.Key() in catalog.byKey && catalog.byKey[snapshot.Key()] < |catalog.entries|
      ensures Routed(catalog, snapshot.Key(), catalog.entries[catalog.byKey[snapshot.Key()]].route)
    {
      ReadyMeans();
      assert Served(protocol.validation, catalog, shadow.capacity, snapshot) && WellKeyed(catalog, snapshot.Key());
    }

    /** Decides for an admitted snapshot; what is presented stays presented. */
    method PlanFor(snapshot: DisplayStateSnapshot) returns (plan: PendingPlan, error: Option<ScanoutError>)
      requires Ready() && Presented() && protocol.validation.Admits(snapshot)
      modifies runtime`held, runtime`candidate, runtime`currentLiveBytes, runtime`observedPeakLiveBytes
      modifies runtime`past
      modifies runtime.device`next, runtime.device`ledger, runtime.device`answers
      modifies runtime.device`maps, runtime.device`refusals, runtime.device`unmaps
      modifies runtime.routes`candidateKey, runtime.routes`failedRoutes, runtime.routes`failures
      ensures Ready() && Presented()
      ensures plan.snapshot == snapshot && plan.logicalKey == snapshot.Key()
      ensures error.None? ==> Executable(plan)
      ensures error.None? ==>
        Decided(plan.kind, snapshot.Key(), old(Keeps(snapshot.Key())), old(runtime.routes.failedRoutes),
                old(Obtains(snapshot.Key())), old(runtime.device.answers))
      ensures error.Some? ==>
        && runtime.device.answers == old(runtime.device.answers)
        && runtime.routes.failedRoutes == old(runtime.routes.failedRoutes)
      ensures error.Some? <==> old(Refuses(snapshot.Key()))
      ensures runtime.held.lost == old(runtime.held.lost) + if error.Some? then Contents(old(Staged())) else []
      ensures old(runtime.past) <= runtime.past
      ensures error.None? && !plan.kind.ExactCandidate? ==>
        runtime.held == Released(old(runtime.held), old(runtime.candidate))
      ensures old(Stages(snapshot.Key())) && snapshot.Key() != old(runtime.routes.currentPhysicalKey) ==>
        && error.None? && plan.kind == ExactCandidate(old(runtime.candidate).value)
        && unchanged(runtime) && unchanged(runtime.device) && unchanged(runtime.routes)
    {
      var key := snapshot.Key();
      AdmittedIsRouted(snapshot);
      plan, error := Decide(snapshot, catalog.entries[catalog.byKey[key]].route);
      PresentedStays();
    }

    /** Makes the plan the pending one. */
    method AdoptPlan(plan: PendingPlan)
      requires Ready() && Presented() && Agreed() && Executable(plan)
      requires protocol.Valid() && protocol.pendingState == Some(plan.snapshot) && plan.logicalKey == plan.snapshot.Key()
      modifies runtime.routes`pendingPlan
      ensures Inv() && runtime.routes.pendingPlan == Some(plan)
    {
      assert protocol.Sound(plan.snapshot);
      runtime.routes.pendingPlan := Some(plan);
    }

    /** The snapshot was just checked; no plan is for it yet. */
    ghost predicate JustChecked(snapshot: DisplayStateSnapshot)
      reads this, runtime, runtime.device, runtime.routes, shadow, protocol
    {
      && Ready() && Presented() && Agreed()
      && protocol.Valid() && protocol.pendingState == Some(snapshot)
      && (runtime.routes.pendingPlan.Some? ==>
            && runtime.routes.pendingPlan.value.snapshot.generation < snapshot.generation
            && runtime.routes.pendingPlan.value.logicalKey == runtime.routes.pendingPlan.value.snapshot.Key())
    }

    /**
     Prepares for the commit of a checked snapshot. It has its plan afterwards unless the check has to give up a candidate
     that the kernel will not take back; then the old plan stays, whose snapshot can no longer be committed. A route that
     is known to fail is not tried again.
     */
    method Prepare(snapshot: DisplayStateSnapshot) returns (error: Option<ScanoutError>)
      requires JustChecked(snapshot)
      modifies runtime`held, runtime`candidate, runtime`currentLiveBytes, runtime`observedPeakLiveBytes
      modifies runtime`past
      modifies runtime.device`next, runtime.device`ledger, runtime.device`answers
      modifies runtime.device`maps, runtime.device`refusals, runtime.device`unmaps
      modifies runtime.routes`candidateKey, runtime.routes`failedRoutes, runtime.routes`failures
      modifies runtime.routes`pendingPlan
      ensures Inv()
      ensures Planned(snapshot) <==> error.None?
      ensures error.Some? <==> old(Refuses(snapshot.Key()))
      ensures runtime.held.lost == old(runtime.held.lost) + if error.Some? then Contents(old(Staged())) else []
      ensures error.None? ==>
        Decided(runtime.routes.pendingPlan.value.kind, snapshot.Key(), old(Keeps(snapshot.Key())),
                old(runtime.routes.failedRoutes), old(Obtains(snapshot.Key())), old(runtime.device.answers))
      ensures error.Some? ==>
        && runtime.device.answers == old(runtime.device.answers)
        && runtime.routes.failedRoutes == old(runtime.routes.failedRoutes)
        && runtime.routes.pendingPlan == old(runtime.routes.pendingPlan)
      ensures old(runtime.past) <= runtime.past
      ensures error.None? && !runtime.routes.pendingPlan.value.kind.ExactCandidate? ==>
        runtime.held == Released(old(runtime.held), old(runtime.candidate))
      ensures old(Stages(snapshot.Key())) && snapshot.Key() != old(runtime.routes.currentPhysicalKey) ==>
        && error.None? && runtime.routes.pendingPlan.value.kind == ExactCandidate(old(runtime.candidate).value)
        && unchanged(runtime) && unchanged(runtime.device)
        && unchanged(runtime.routes`failedRoutes) && unchanged(runtime.routes`candidateKey)
    {
      assert protocol.Sound(snapshot);
      var plan;
      plan, error := PlanFor(snapshot);
      if error.None? { AdoptPlan(plan); }
    }

    /** Gives the candidate and the plan up. When the release fails the old plan stays, but nothing can commit it. */
    method Invalidate() returns (error: Option<ScanoutError>)
      requires Ready() && Plans() && Presented() && protocol.pendingState.None?
      modifies runtime`held, runtime`candidate, runtime`currentLiveBytes, runtime`observedPeakLiveBytes
      modifies runtime`past
      modifies runtime.device`ledger, runtime.routes`candidateKey, runtime.routes`pendingPlan
      ensures Ready() && Plans() && Presented() && Cleared(old(runtime.held), old(runtime.candidate), error.Some?)
      ensures KeyOfSlot(runtime.active) == old(KeyOfSlot(runtime.active))
      ensures runtime.routes.pendingPlan == if error.None? then None else old(runtime.routes.pendingPlan)
      ensures error.Some? <==> Stuck(Kernel(), old(Staged()))
      ensures runtime.device.ledger.Clean() <==> error.None? && old(runtime.device.ledger.Clean())
      ensures old(runtime.past) <= runtime.past
    {
      error := ClearCandidate();
      ReadyMeans();
      if error.None? { runtime.routes.InvalidatePending(); }
      PresentedStays();
      PlansStay();
    }

    /** Nothing is pending any more. `handled` is false when the receive side keeps the loop from seeing that. The
        candidate goes, and the plan with it unless the device keeps something of the candidate. */
    method DropPending(handled: bool)
      requires Inv() && protocol.pendingState.None?
      modifies runtime`held, runtime`candidate, runtime`currentLiveBytes, runtime`observedPeakLiveBytes
      modifies runtime`past
      modifies runtime.device`ledger, runtime.routes`candidateKey, runtime.routes`pendingPlan
      ensures Inv() && Dropped(handled, old(runtime.held), old(runtime.candidate), old(runtime.routes.pendingPlan))
      ensures old(runtime.past) <= runtime.past && old(runtime.held.lost) <= runtime.held.lost
    {
      if handled { var error := Invalidate(); }
    }

    /** What is left of the candidate and the plan when nothing is pending any more. */
    ghost predicate Dropped(handled: bool, held: Held, candidate: Option<nat>, plan: Option<PendingPlan>)
      reads runtime`held, runtime`candidate, runtime.routes`pendingPlan
    {
      DroppedTo(Kernel(), handled, held, candidate, plan, runtime.held, runtime.candidate, runtime.routes.pendingPlan)
    }

    /** The check passes, but is refused its plan. */
    predicate CheckRefused(request: StateRequest)
      reads protocol, runtime`held, runtime`candidate, runtime.routes`candidateKey, runtime.routes`currentPhysicalKey
    {
      Passes(protocol.validation, protocol.Seen(), request) && Refuses(RequestedKey(request))
    }

    /** Lets the protocol check a request. */
    method CheckProtocol(request: StateRequest) returns (snapshot: Option<DisplayStateSnapshot>)
      requires Inv()
      modifies protocol`pendingState, protocol`nextGeneration, protocol`lastChecked
      ensures if snapshot.Some? then JustChecked(snapshot.value) else Inv()
      ensures snapshot == protocol.pendingState
      ensures protocol.Seen() == Next(protocol.validation, old(protocol.Seen()), Check(request))
    {
      if runtime.routes.pendingPlan.Some? { assert SoundPlan(runtime.routes.pendingPlan.value); }
      snapshot := protocol.CheckState(request);
      if snapshot.None? {
        forall plan: PendingPlan ensures SoundPlan(plan) { assert old(SoundPlan(plan)); }
      }
    }

    /** SET_STATE_CHECK. `handled` is false when the receive side keeps the loop from seeing a rejection; `error` is
        that of the preparation. */
    method HandleCheck(request: StateRequest, handled: bool) returns (error: Option<ScanoutError>)
      requires Inv()
      modifies runtime`held, runtime`candidate, runtime`currentLiveBytes, runtime`observedPeakLiveBytes
      modifies runtime`past
      modifies runtime.device`next, runtime.device`ledger, runtime.device`answers
      modifies runtime.device`maps, runtime.device`refusals, runtime.device`unmaps
      modifies runtime.routes`candidateKey, runtime.routes`failedRoutes, runtime.routes`failures
      modifies runtime.routes`pendingPlan
      modifies protocol`pendingState, protocol`nextGeneration, protocol`lastChecked
      ensures Inv() && protocol.Seen() == Next(protocol.validation, old(protocol.Seen()), Check(request))
      ensures error.Some? <==> old(CheckRefused(request))
      ensures if protocol.pendingState.Some?
              then runtime.held.lost == old(runtime.held.lost) + if error.Some? then Contents(old(Staged())) else []
              else old(runtime.held.lost) <= runtime.held.lost
      ensures protocol.pendingState.Some? ==> (Planned(protocol.pendingState.value) <==> error.None?)
      ensures protocol.pendingState.Some? && error.None? ==>
        Decided(runtime.routes.pendingPlan.value.kind, RequestedKey(request), old(Keeps(RequestedKey(request))),
                old(runtime.routes.failedRoutes), old(Obtains(RequestedKey(request))), old(runtime.device.answers))
      ensures error.Some? ==> runtime.routes.pendingPlan == old(runtime.routes.pendingPlan)
      ensures protocol.pendingState.None? ==>
        && error.None?
        && Dropped(handled, old(runtime.held), old(runtime.candidate), old(runtime.routes.pendingPlan))
      ensures old(runtime.past) <= runtime.past
      ensures protocol.pendingState.Some? && error.None? && !runtime.routes.pendingPlan.value.kind.ExactCandidate? ==>
        runtime.held == Released(old(runtime.held), old(runtime.candidate))
      ensures
        && request.StateRequest? && protocol.pendingState.Some?
        && old(runtime.candidate).Some? && old(KeyOfSlot(runtime.candidate.value)) == Some(RequestedKey(request))
        && RequestedKey(request) != old(runtime.routes.currentPhysicalKey)
        ==>
        && error.None? && runtime.routes.pendingPlan.value.kind == ExactCandidate(old(runtime.candidate).value)
        && unchanged(runtime) && unchanged(runtime.device)
        && unchanged(runtime.routes`failedRoutes) && unchanged(runtime.routes`candidateKey)
    {
      error := None;
      var snapshot := CheckProtocol(request);
      if snapshot.Some? {
        error := Prepare(snapshot.value);
      } else {
        DropPending(handled);
      }
    }

    // ---------- commits ----------

    /** Records what a commit presents. */
    method RecordCommittedRoute(snapshot: DisplayStateSnapshot, route: PresentationRoute, requested: Option<ModeKey>)
      modifies runtime.routes`committedSnapshot, runtime.routes`presentationRoute
      modifies runtime.routes`currentPhysicalKey, runtime.routes`candidateKey
      ensures runtime.routes.committedSnapshot == Some(snapshot) && runtime.routes.presentationRoute == Some(route)
      ensures runtime.routes.candidateKey.None?
      ensures runtime.routes.currentPhysicalKey
           == if route.Baseline? then runtime.routes.baselinePhysicalKey
              else if requested.Some? then requested.value else old(runtime.routes.currentPhysicalKey)
    {
      var key := CommittedPhysicalKey(route, requested, runtime.routes.baselinePhysicalKey);
      runtime.routes.committedSnapshot, runtime.routes.presentationRoute := Some(snapshot), Some(route);
      if key.Some? { runtime.routes.currentPhysicalKey := key.value; }
      runtime.routes.candidateKey := None;
    }

    /** A commit is under way: its snapshot is committed, its plan taken, and no candidate is left over. */
    ghost predicate Committing(snapshot: DisplayStateSnapshot, physical: ModeKey)
      reads this, runtime, runtime.device, runtime.routes, protocol
    {
      forall law: CommitLaw :: Commits(law, snapshot, physical)
    }

    ghost predicate Commits(law: CommitLaw, snapshot: DisplayStateSnapshot, physical: ModeKey)
      reads this, runtime, runtime.device, runtime.routes, protocol
    {
      match law
      case WholeScanouts => Configured() && Scanouts() && runtime.candidate.None?
      case TrueKeys => Keys(physical)
      case RememberedFailures =>
        && runtime.routes.failures == |runtime.routes.failedRoutes|
        && (forall f: FailedRouteKey :: Known(runtime.routes.failedRoutes, f))
      case CommittedProtocol =>
        && protocol.Valid() && protocol.pendingState.None? && protocol.committedState == Some(snapshot)
        && runtime.routes.pendingPlan.None?
    }

    lemma CommittingMeans(snapshot: DisplayStateSnapshot, physical: ModeKey)
      requires Committing(snapshot, physical)
      ensures Configured() && Scanouts() && runtime.candidate.None? && Keys(physical)
      ensures runtime.routes.failures == |runtime.routes.failedRoutes|
      ensures forall f: FailedRouteKey :: Known(runtime.routes.failedRoutes, f)
      ensures protocol.Valid() && protocol.pendingState.None? && protocol.committedState == Some(snapshot)
      ensures runtime.routes.pendingPlan.None?
    {
      assert Commits(WholeScanouts, snapshot, physical) && Commits(TrueKeys, snapshot, physical);
      assert Commits(RememberedFailures, snapshot, physical) && Commits(CommittedProtocol, snapshot, physical);
    }

    /** The state after a check's candidate was given up during a commit. */
    lemma CommittingFrom(snapshot: DisplayStateSnapshot)
      requires Ready() && runtime.candidate.None? && protocol.Valid() && protocol.pendingState.None?
      requires protocol.committedState == Some(snapshot) && runtime.routes.pendingPlan.None?
      ensures Committing(snapshot, runtime.routes.currentPhysicalKey)
    {
      ReadyMeans();
    }

    /** The shadow takes an admitted snapshot; the activation never fails. */
    method ActivateShadow(snapshot: DisplayStateSnapshot)
      requires Configured() && protocol.Valid() && protocol.committedState == Some(snapshot)
      modifies shadow, shadow.pixels
      ensures Holds(snapshot)
    {
      assert protocol.Sound(snapshot) && Served(protocol.validation, catalog, shadow.capacity, snapshot);
      var activation := shadow.ActivateScaled(ShadowIdentity(snapshot));
      assert activation.Some?;
    }

    /** Ends a commit with the scaled presentation of the snapshot on the active scanout. */
    method PresentScaled(snapshot: DisplayStateSnapshot, route: PresentationRoute)
      requires route.logical == snapshot.Key() && !route.DirectExact?
      requires route.CurrentAfterFailure? ==> Committing(snapshot, runtime.routes.currentPhysicalKey)
      requires route.Baseline? ==> Committing(snapshot, runtime.routes.baselinePhysicalKey) && runtime.active == BASELINE
      modifies shadow, shadow.pixels
      modifies runtime.routes`committedSnapshot, runtime.routes`presentationRoute
      modifies runtime.routes`currentPhysicalKey, runtime.routes`candidateKey
      ensures Inv() && runtime.routes.presentationRoute == Some(route)
    {
      CommittingMeans(snapshot, if route.Baseline? then runtime.routes.baselinePhysicalKey
                                else runtime.routes.currentPhysicalKey);
      ActivateShadow(snapshot);
      RecordCommittedRoute(snapshot, route, None);
    }

    /** Ends a commit with the content scanout shown as it is; the shadow's content is given up. */
    method PresentDirect(snapshot: DisplayStateSnapshot, physical: ModeKey, requested: Option<ModeKey>)
      requires Committing(snapshot, physical) && physical == snapshot.Key()
      requires requested == Some(physical) || (requested.None? && physical == runtime.routes.currentPhysicalKey)
      modifies shadow`contentValid
      modifies runtime.routes`committedSnapshot, runtime.routes`presentationRoute
      modifies runtime.routes`currentPhysicalKey, runtime.routes`candidateKey
      ensures Inv() && runtime.routes.presentationRoute == Some(DirectExact(snapshot.Key(), physical))
    {
      CommittingMeans(snapshot, physical);
      shadow.InvalidateContent();
      RecordCommittedRoute(snapshot, DirectExact(snapshot.Key(), physical), requested);
    }

    /** The target is shown and mapped: it becomes the active one, and the scanout that was is released unless it is
        the baseline. */
    method MakeActive(target: nat) returns (fault: Option<ScanoutError>)
      requires runtime.Resources() && runtime.Roles() && mapped == runtime.active && runtime.mapped == {target}
      requires target < 3 && target != runtime.active && ModeOfSlot(target).Some?
      requires runtime.candidate == Some(target) || (target == BASELINE && runtime.candidate.None?)
      modifies `mapped, runtime`active, runtime`candidate, runtime`held
      modifies runtime`currentLiveBytes, runtime`observedPeakLiveBytes, runtime`past, runtime.device`ledger
      ensures ModeOfSlot(target) == old(ModeOfSlot(target)) && ModeOfSlot(BASELINE) == old(ModeOfSlot(BASELINE))
      ensures runtime.active == target && runtime.candidate.None?
      ensures if fault.None? then Scanouts() else Obeys(Conservation) && fault == Some(ReleaseFailed)
      ensures runtime.device.ledger.Clean() <==> fault.None? && old(runtime.device.ledger.Clean())
      ensures fault.None? ==> runtime.held.lost == old(runtime.held.lost)
      ensures old(runtime.past) <= runtime.past
    {
      var previous;
      previous, fault := runtime.ActivateSlot(target);
      mapped := target;
      if previous != BASELINE { fault := runtime.ReleaseInactive(previous); }
    }

    /**
     Switches to the candidate or to the baseline and releases the scanout that was shown before, unless it is the
     baseline. The only error is a device that refuses to give something back.
     */
    method SwitchTo(target: nat) returns (switched: bool, fault: Option<ScanoutError>)
      requires Scanouts() && target < 3 && target != runtime.active && ModeOfSlot(target).Some?
      requires runtime.candidate == Some(target) || (target == BASELINE && runtime.candidate.None?)
      modifies `mapped, runtime`mapped, runtime`active, runtime`candidate, runtime`held
      modifies runtime`currentLiveBytes, runtime`observedPeakLiveBytes, runtime`past
      modifies runtime.device`maps, runtime.device`refusals, runtime.device`answers, runtime.device`unmaps
      modifies runtime.device`shown, runtime.device`modesets, runtime.device`ledger
      ensures ModeOfSlot(target) == old(ModeOfSlot(target)) && ModeOfSlot(BASELINE) == old(ModeOfSlot(BASELINE))
      ensures if fault.None? then Scanouts() else switched && Obeys(Conservation) && fault == Some(ReleaseFailed)
      ensures runtime.device.ledger.Clean() <==> fault.None? && old(runtime.device.ledger.Clean())
      ensures if switched then runtime.active == target && runtime.candidate.None?
              else runtime.active == old(runtime.active) && runtime.candidate == old(runtime.candidate)
                   && runtime.held == old(runtime.held)
      ensures fault.None? ==> runtime.held.lost == old(runtime.held.lost)
      ensures runtime.device.refusals == old(runtime.device.refusals) + if switched then 0 else 1
      ensures runtime.device.shown == old(runtime.device.shown) + if switched then old(FrontOfSlot(target)) else []
      ensures switched <==> Showable(Kernel(), old(runtime.device.answers), old(runtime.device.modesets))
      ensures old(runtime.past) <= runtime.past
    {
      ScanoutsObey();
      fault := None;
      switched := runtime.AttemptMappedSwitch(mapped, target);
      if switched { fault := MakeActive(target); }
    }

    /** The state of the loop when a commit has taken its plan. */
    ghost predicate Executing(snapshot: DisplayStateSnapshot, plan: PendingPlan)
      reads this, runtime, runtime.device, runtime.routes, protocol
    {
      && Ready() && Executable(plan)
      && plan.snapshot == snapshot && plan.logicalKey == snapshot.Key()
      && protocol.Valid() && protocol.pendingState.None? && protocol.committedState == Some(snapshot)
      && runtime.routes.pendingPlan.None?
    }

    /** Carrying the plan out needs a switch that the kernel refuses. */
    predicate SwitchFails(plan: PendingPlan)
      reads runtime.device`answers, runtime.device`modesets
    {
      SwitchRefused(plan.kind, Kernel(), runtime.device.answers, runtime.device.modesets)
    }

    /** What carrying the plan out has led to; `refused` if it needed a switch and the kernel refused that. */
    ghost predicate Carried(plan: PendingPlan, refused: bool, from: nat)
      reads runtime`active, runtime.routes`presentationRoute
    {
      && runtime.routes.presentationRoute.Some?
      && Yields(plan, refused, from, runtime.routes.presentationRoute.value, runtime.active)
    }

    /** What the kernel is asked to show for a plan. */
    ghost function FrontOfPlan(plan: PendingPlan): seq<Modeset>
      reads runtime`held, runtime.device`answers, runtime.device`modesets
    {
      if !Switches(plan.kind) || SwitchFails(plan) then []
      else FrontOfSlot(if plan.kind.ExactCandidate? then plan.kind.slot else BASELINE)
    }

    /** The route of a candidate has not failed on this scanout. */
    lemma CandidateIsNew(plan: PendingPlan)
      requires Ready() && Executable(plan) && plan.kind.ExactCandidate?
      ensures runtime.routes.FailedKey(plan.logicalKey) !in runtime.routes.failedRoutes
      ensures plan.logicalKey in catalog.byKey
    {
      ReadyMeans();
    }

    /** Gives the candidate of a plan back. */
    method ReleaseStaged(slot: nat) returns (fault: Option<ScanoutError>)
      requires Ready() && runtime.candidate == Some(slot)
      modifies runtime`candidate, runtime`held, runtime`currentLiveBytes, runtime`observedPeakLiveBytes
      modifies runtime`past, runtime.device`ledger, runtime.routes`candidateKey
      ensures Ready() && Cleared(old(runtime.held), old(runtime.candidate), fault.Some?)
      ensures fault == if Stuck(Kernel(), old(Staged())) then Some(ReleaseFailed) else None
      ensures fault.Some? ==> Obeys(Conservation) && !runtime.device.ledger.Clean()
      ensures old(runtime.past) <= runtime.past
    {
      ReadyMeans();
      ScanoutsObey();
      fault := runtime.ReleaseCandidate(slot);
      ReadyStays();
    }

    /** After a failed switch the candidate is released, and its route is never tried again on this scanout. */
    method ForgetCandidate(snapshot: DisplayStateSnapshot, plan: PendingPlan) returns (fault: Option<ScanoutError>)
      requires Executing(snapshot, plan) && plan.kind.ExactCandidate?
      modifies runtime`candidate, runtime`held, runtime`currentLiveBytes, runtime`observedPeakLiveBytes
      modifies runtime`past
      modifies runtime.device`ledger, runtime.routes`candidateKey, runtime.routes`failedRoutes, runtime.routes`failures
      ensures if fault.None? then Committing(snapshot, runtime.routes.currentPhysicalKey)
              else Obeys(Conservation) && fault == Some(ReleaseFailed) && !runtime.device.ledger.Clean()
      ensures fault.None? ==>
        && runtime.routes.failedRoutes == old(runtime.routes.failedRoutes) + {runtime.routes.FailedKey(plan.logicalKey)}
        && runtime.routes.failures == old(runtime.routes.failures) + 1
      ensures fault.None? ==> runtime.held.lost == old(runtime.held.lost)
      ensures old(runtime.past) <= runtime.past
    {
      CandidateIsNew(plan);
      fault := ReleaseStaged(plan.kind.slot);
      if fault.None? {
        RememberFailure(plan.logicalKey);
        CommittingFrom(snapshot);
      }
    }

    /** The snapshot of a candidate that could not be shown is scaled onto the retained scanout. */
    method AbandonCandidate(snapshot: DisplayStateSnapshot, plan: PendingPlan) returns (fault: Option<ScanoutError>)
      requires Executing(snapshot, plan) && plan.kind.ExactCandidate?
      modifies runtime`candidate, runtime`held, runtime`currentLiveBytes, runtime`observedPeakLiveBytes
      modifies runtime`past
      modifies runtime.device`ledger
      modifies runtime.routes`committedSnapshot, runtime.routes`presentationRoute, runtime.routes`currentPhysicalKey
      modifies runtime.routes`candidateKey, runtime.routes`failedRoutes, runtime.routes`failures, shadow, shadow.pixels
      ensures fault.Some? ==> Obeys(Conservation)
      ensures if fault.None? then Inv() else fault == Some(ReleaseFailed) && !runtime.device.ledger.Clean()
      ensures fault.None? ==>
        && runtime.routes.presentationRoute == Some(CurrentAfterFailure(plan.logicalKey, SwitchFailed))
        && runtime.routes.failedRoutes == old(runtime.routes.failedRoutes) + {old(runtime.routes.FailedKey(plan.logicalKey))}
        && runtime.routes.failures == old(runtime.routes.failures) + 1
      ensures fault.None? ==> runtime.held.lost == old(runtime.held.lost)
      ensures old(runtime.past) <= runtime.past
    {
      fault := ForgetCandidate(snapshot, plan);
      if fault.None? { PresentScaled(snapshot, CurrentAfterFailure(plan.logicalKey, SwitchFailed)); }
    }

    /** Switches to the candidate, whatever the protocol says. */
    method SwitchToCandidate(plan: PendingPlan) returns (switched: bool, fault: Option<ScanoutError>)
      requires Ready() && Executable(plan) && plan.kind.ExactCandidate?
      modifies `mapped, runtime`mapped, runtime`active, runtime`candidate, runtime`held
      modifies runtime`currentLiveBytes, runtime`observedPeakLiveBytes, runtime`past
      modifies runtime.device`maps, runtime.device`refusals, runtime.device`answers, runtime.device`unmaps
      modifies runtime.device`shown, runtime.device`modesets, runtime.device`ledger
      ensures fault.None? && switched ==> Scanouts() && runtime.candidate.None? && Keys(plan.logicalKey)
      ensures fault.None? && !switched ==> Ready() && Executable(plan)
      ensures fault.Some? ==> Obeys(Conservation) && fault == Some(ReleaseFailed) && !runtime.device.ledger.Clean()
      ensures runtime.active == if switched then plan.kind.slot else old(runtime.active)
      ensures runtime.device.refusals == old(runtime.device.refusals) + if switched then 0 else 1
      ensures runtime.device.shown ==
        old(runtime.device.shown) + if switched then old(FrontOfSlot(plan.kind.slot)) else []
      ensures switched <==> !old(SwitchFails(plan))
      ensures fault.None? ==> runtime.held.lost == old(runtime.held.lost)
      ensures old(runtime.past) <= runtime.past
    {
      ReadyMeans();
      ScanoutsObey();
      assert WellKeyed(catalog, plan.logicalKey);
      switched, fault := SwitchTo(plan.kind.slot);
      if fault.None? {
        ScanoutsObey();
        if !switched { ReadyFrom(); }
      }
    }

    /** Switches to the planned candidate. A refused switch leaves everything as it was. */
    method ShowCandidate(snapshot: DisplayStateSnapshot, plan: PendingPlan)
      returns (switched: bool, fault: Option<ScanoutError>)
      requires Executing(snapshot, plan) && plan.kind.ExactCandidate?
      modifies `mapped, runtime`mapped, runtime`active, runtime`candidate, runtime`held
      modifies runtime`currentLiveBytes, runtime`observedPeakLiveBytes, runtime`past
      modifies runtime.device`maps, runtime.device`refusals, runtime.device`answers, runtime.device`unmaps
      modifies runtime.device`shown, runtime.device`modesets
      modifies runtime.device`ledger
      ensures fault.None? ==>
        if switched then Committing(snapshot, plan.logicalKey) && plan.logicalKey == snapshot.Key()
        else Executing(snapshot, plan)
      ensures fault.Some? ==> Obeys(Conservation) && fault == Some(ReleaseFailed) && !runtime.device.ledger.Clean()
      ensures runtime.active == if switched then plan.kind.slot else old(runtime.active)
      ensures runtime.device.refusals == old(runtime.device.refusals) + if switched then 0 else 1
      ensures runtime.device.shown ==
        old(runtime.device.shown) + if switched then old(FrontOfSlot(plan.kind.slot)) else []
      ensures switched <==> !old(SwitchFails(plan))
      ensures fault.None? ==> runtime.held.lost == old(runtime.held.lost)
      ensures old(runtime.past) <= runtime.past
    {
      ReadyMeans();
      switched, fault := SwitchToCandidate(plan);
    }

    /** An exact candidate: shown, or given up for good on this scanout. */
    method CommitCandidate(snapshot: DisplayStateSnapshot, plan: PendingPlan) returns (fault: Option<ScanoutError>)
      requires Executing(snapshot, plan) && plan.kind.ExactCandidate?
      modifies `mapped, runtime`mapped, runtime`active, runtime`candidate, runtime`held
      modifies runtime`currentLiveBytes, runtime`observedPeakLiveBytes, runtime`past
      modifies runtime.device`maps, runtime.device`refusals, runtime.device`answers, runtime.device`unmaps
      modifies runtime.device`shown, runtime.device`modesets
      modifies runtime.device`ledger
      modifies runtime.routes`committedSnapshot, runtime.routes`presentationRoute, runtime.routes`currentPhysicalKey
      modifies runtime.routes`candidateKey, runtime.routes`failedRoutes, runtime.routes`failures, shadow, shadow.pixels
      ensures fault.Some? ==> Obeys(Conservation)
      ensures if fault.None? then Inv() else fault == Some(ReleaseFailed) && !runtime.device.ledger.Clean()
      ensures fault.None? ==> Carried(plan, old(SwitchFails(plan)), old(runtime.active))
      ensures fault.None? ==>
        runtime.routes.failures == old(runtime.routes.failures) + if old(SwitchFails(plan)) then 1 else 0
      ensures runtime.device.shown == old(runtime.device.shown) + old(FrontOfPlan(plan))
      ensures fault.None? ==> runtime.held.lost == old(runtime.held.lost)
      ensures old(runtime.past) <= runtime.past
    {
      var switched;
      switched, fault := ShowCandidate(snapshot, plan);
      if fault.Some? { return; }
      if !switched {
        fault := AbandonCandidate(snapshot, plan);
        return;
      }
      PresentDirect(snapshot, plan.logicalKey, plan.requestedPhysicalKey);
    }

    /** Switches back to the baseline, whatever the protocol says. */
    method SwitchToBaseline(plan: PendingPlan) returns (switched: bool, fault: Option<ScanoutError>)
      requires Ready() && Executable(plan) && plan.kind.ScaledBaseline?
      modifies `mapped, runtime`mapped, runtime`active, runtime`candidate, runtime`held
      modifies runtime`currentLiveBytes, runtime`observedPeakLiveBytes, runtime`past
      modifies runtime.device`maps, runtime.device`refusals, runtime.device`answers, runtime.device`unmaps
      modifies runtime.device`shown, runtime.device`modesets, runtime.device`ledger
      ensures fault.None? ==>
        && Scanouts() && runtime.candidate.None?
        && Keys(if switched then runtime.routes.baselinePhysicalKey else runtime.routes.currentPhysicalKey)
      ensures fault.Some? ==> Obeys(Conservation) && fault == Some(ReleaseFailed) && !runtime.device.ledger.Clean()
      ensures fault.None? ==> runtime.active == if switched then BASELINE else old(runtime.active)
      ensures switched <==> !old(SwitchFails(plan))
      ensures runtime.device.shown == old(runtime.device.shown) + old(FrontOfPlan(plan))
      ensures fault.None? ==> runtime.held.lost == old(runtime.held.lost)
      ensures old(runtime.past) <= runtime.past
    {
      ReadyMeans();
      ScanoutsObey();
      switched, fault := true, None;
      if plan.kind.switchRequired { switched, fault := SwitchTo(BASELINE); }
      if fault.None? { ScanoutsObey(); }
    }

    /** Switches back to the baseline when another scanout is active. A refused switch leaves everything as it was. */
    method ShowBaseline(snapshot: DisplayStateSnapshot, plan: PendingPlan)
      returns (switched: bool, fault: Option<ScanoutError>)
      requires Executing(snapshot, plan) && plan.kind.ScaledBaseline?
      modifies `mapped, runtime`mapped, runtime`active, runtime`candidate, runtime`held
      modifies runtime`currentLiveBytes, runtime`observedPeakLiveBytes, runtime`past
      modifies runtime.device`maps, runtime.device`refusals, runtime.device`answers, runtime.device`unmaps
      modifies runtime.device`shown, runtime.device`modesets, runtime.device`ledger
      ensures fault.None? ==>
        Committing(snapshot, if switched then runtime.routes.baselinePhysicalKey else runtime.routes.currentPhysicalKey)
      ensures fault.Some? ==> Obeys(Conservation) && fault == Some(ReleaseFailed) && !runtime.device.ledger.Clean()
      ensures fault.None? ==> runtime.active == if switched then BASELINE else old(runtime.active)
      ensures switched <==> !old(SwitchFails(plan))
      ensures runtime.device.shown == old(runtime.device.shown) + old(FrontOfPlan(plan))
      ensures fault.None? ==> runtime.held.lost == old(runtime.held.lost)
      ensures old(runtime.past) <= runtime.past
    {
      ReadyMeans();
      switched, fault := SwitchToBaseline(plan);
    }

    /** The scaled baseline, or scaled onto the retained scanout. */
    method CommitBaseline(snapshot: DisplayStateSnapshot, plan: PendingPlan) returns (fault: Option<ScanoutError>)
      requires Executing(snapshot, plan) && plan.kind.ScaledBaseline?
      modifies `mapped, runtime`mapped, runtime`active, runtime`candidate, runtime`held
      modifies runtime`currentLiveBytes, runtime`observedPeakLiveBytes, runtime`past
      modifies runtime.device`maps, runtime.device`refusals, runtime.device`answers, runtime.device`unmaps
      modifies runtime.device`shown, runtime.device`modesets
      modifies runtime.device`ledger
      modifies runtime.routes`committedSnapshot, runtime.routes`presentationRoute
      modifies runtime.routes`currentPhysicalKey, runtime.routes`candidateKey, shadow, shadow.pixels
      ensures fault.Some? ==> Obeys(Conservation)
      ensures if fault.None? then Inv() else fault == Some(ReleaseFailed) && !runtime.device.ledger.Clean()
      ensures fault.None? ==> Carried(plan, old(SwitchFails(plan)), old(runtime.active))
      ensures runtime.device.shown == old(runtime.device.shown) + old(FrontOfPlan(plan))
      ensures fault.None? ==> runtime.held.lost == old(runtime.held.lost)
      ensures old(runtime.past) <= runtime.past
    {
      var switched;
      switched, fault := ShowBaseline(snapshot, plan);
      if fault.None? {
        PresentScaled(snapshot, if switched then Baseline(plan.logicalKey)
                                else CurrentAfterFailure(plan.logicalKey, BaselineSwitchFailed));
      }
    }

    /** Carries a plan out. Falling back after a known failure touches no device. */
    method Execute(snapshot: DisplayStateSnapshot, plan: PendingPlan) returns (fault: Option<ScanoutError>)
      requires Executing(snapshot, plan)
      modifies `mapped, runtime`mapped, runtime`active, runtime`candidate, runtime`held
      modifies runtime`currentLiveBytes, runtime`observedPeakLiveBytes, runtime`past
      modifies runtime.device`maps, runtime.device`refusals, runtime.device`answers, runtime.device`unmaps
      modifies runtime.device`shown, runtime.device`modesets
      modifies runtime.device`ledger
      modifies runtime.routes`committedSnapshot, runtime.routes`presentationRoute, runtime.routes`currentPhysicalKey
      modifies runtime.routes`candidateKey, runtime.routes`failedRoutes, runtime.routes`failures, shadow, shadow.pixels
      ensures fault.Some? ==> Obeys(Conservation)
      ensures if fault.None? then Inv() else fault == Some(ReleaseFailed) && !runtime.device.ledger.Clean()
      ensures fault.None? ==> Carried(plan, old(SwitchFails(plan)), old(runtime.active))
      ensures runtime.device.shown == old(runtime.device.shown) + old(FrontOfPlan(plan))
      ensures plan.kind.ExactActiveNoOp? || plan.kind.ScaledCurrentAfterFailure? ==>
        fault.None? && runtime.held == old(runtime.held) && runtime.device.refusals == old(runtime.device.refusals)
      ensures fault.None? ==> runtime.held.lost == old(runtime.held.lost)
      ensures old(runtime.past) <= runtime.past
    {
      ReadyMeans();
      ScanoutsObey();
      fault := None;
      match plan.kind
      case ExactActiveNoOp =>
        PresentDirectNoOp(snapshot, plan);
      case ScaledCurrentAfterFailure(reason) =>
        PresentScaled(snapshot, CurrentAfterFailure(plan.logicalKey, reason));
      case ScaledBaseline(_) =>
        fault := CommitBaseline(snapshot, plan);
      case ExactCandidate(_) =>
        fault := CommitCandidate(snapshot, plan);
    }

    method PresentDirectNoOp(snapshot: DisplayStateSnapshot, plan: PendingPlan)
      requires Executing(snapshot, plan) && plan.kind.ExactActiveNoOp?
      modifies runtime.routes`committedSnapshot, runtime.routes`presentationRoute
      modifies runtime.routes`currentPhysicalKey, runtime.routes`candidateKey, shadow`contentValid
      ensures Inv() && Carried(plan, false, runtime.active)
    {
      ReadyMeans();
      assert WellKeyed(catalog, plan.logicalKey);
      PresentDirect(snapshot, runtime.routes.currentPhysicalKey, None);
    }

    /** A commit without its plan keeps the scanout and scales onto it. */
    method CommitMismatch(snapshot: DisplayStateSnapshot)
      requires Ready() && Plans() && Presented()
      requires protocol.pendingState.None? && protocol.committedState == Some(snapshot)
      requires runtime.routes.pendingPlan.None?
      modifies `mismatches, runtime`held, runtime`candidate, runtime`currentLiveBytes, runtime`observedPeakLiveBytes
      modifies runtime`past
      modifies runtime.device`ledger, runtime.routes, shadow, shadow.pixels
      ensures Inv() && mismatches == old(mismatches) + 1 && old(runtime.held.lost) <= runtime.held.lost
      ensures old(runtime.past) <= runtime.past
      ensures runtime.routes.presentationRoute == Some(CurrentAfterFailure(snapshot.Key(), PlanMismatch))
    {
      var error := Invalidate();
      CommittingFrom(snapshot);
      PresentScaled(snapshot, CurrentAfterFailure(snapshot.Key(), PlanMismatch));
      mismatches := mismatches + 1;
    }

    /** Why the waiting scanout cannot be shown in the mode of the active one. */
    function SurfaceError(drawn: bool): Option<ScanoutError>
      reads runtime`held, runtime`active, runtime.device`answers, runtime.device`next, runtime.device`modesets
    {
      if ModeOfSlot(runtime.active).None? then None
      else
        var error := runtime.EnsureError(ModeOfSlot(runtime.active).value, drawn);
        if error.Some? then error else if Kernel().sets(runtime.device.modesets) then None else Some(ModesetFailed)
    }

    /** Shows the waiting scanout, whatever is planned and presented. */
    method ShowSurface(drawn: bool) returns (error: Option<ScanoutError>)
      requires Scanouts()
      modifies runtime`held, runtime`currentLiveBytes, runtime`observedPeakLiveBytes, runtime`past
      modifies runtime.device`next, runtime.device`ledger
      modifies runtime.device`maps, runtime.device`refusals, runtime.device`answers, runtime.device`unmaps
      modifies runtime.device`shown, runtime.device`modesets
      ensures Scanouts() && runtime.held == old(runtime.held).(waiting := runtime.held.waiting)
      ensures error == old(SurfaceError(drawn))
      ensures error.None? ==> runtime.held.waiting.Some? && Some(runtime.held.waiting.value.mode) == ModeOfSlot(runtime.active)
      ensures runtime.device.shown == old(runtime.device.shown) + if error.None? then WaitingFront() else []
      ensures error.None? ==> WaitingFront() != []
      ensures old(runtime.past) <= runtime.past
    {
      ScanoutsObey();
      error := runtime.PresentWaiting(runtime.held.Get(runtime.active).value.mode, drawn);
      WaitingIsWhole(runtime.device.ledger, runtime.held);
    }

    /** Shows the waiting scanout in the mode of the active one. */
    method PresentWaitingSurface(drawn: bool) returns (error: Option<ScanoutError>)
      requires Inv()
      modifies runtime`held, runtime`currentLiveBytes, runtime`observedPeakLiveBytes, runtime`past
      modifies runtime.device`next, runtime.device`ledger
      modifies runtime.device`maps, runtime.device`refusals, runtime.device`answers, runtime.device`unmaps
      modifies runtime.device`shown, runtime.device`modesets
      ensures Inv()
      ensures error == old(SurfaceError(drawn))
      ensures error.None? ==> runtime.held.waiting.Some? && Some(runtime.held.waiting.value.mode) == ModeOfSlot(runtime.active)
      ensures runtime.device.shown == old(runtime.device.shown) + if error.None? then WaitingFront() else []
      ensures error.None? ==> WaitingFront() != []
      ensures error.Some? ==>
        Obeys(Conservation) && error.value in {ReleaseFailed, CreateFailed, RenderFailed, ByteOverflow, ModesetFailed}
      ensures old(runtime.past) <= runtime.past
      ensures runtime.held == old(runtime.held).(waiting := runtime.held.waiting)
    {
      ReadyMeans();
      error := ShowSurface(drawn);
      InvStays();
      assert Obeys(Conservation);
    }

    /** What the kernel is asked to show for the waiting scanout. */
    ghost function WaitingFront(): seq<Modeset>
      reads runtime`held
    {
      WaitingFrontOf(runtime.held)
    }

    /** The protocol has committed the snapshot; its plan has not been looked at yet. */
    ghost predicate JustCommitted(snapshot: DisplayStateSnapshot)
      reads this, runtime, runtime.device, runtime.routes, shadow, protocol
    {
      && Ready() && Presented()
      && protocol.Valid() && protocol.pendingState.None? && protocol.committedState == Some(snapshot)
      && (Planned(snapshot) ==> runtime.routes.pendingPlan.value.logicalKey == snapshot.Key()
                                && Executable(runtime.routes.pendingPlan.value))
    }

    /** Carries out the plan of the committed snapshot, or retains the scanout when there is none. */
    method CommitSnapshot(snapshot: DisplayStateSnapshot) returns (planned: bool, fault: Option<ScanoutError>)
      requires JustCommitted(snapshot)
      modifies this, runtime, runtime.device, runtime.routes, shadow, shadow.pixels
      ensures if fault.None? then Inv() else fault == Some(ReleaseFailed) && Obeys(Conservation)
      ensures planned == old(Planned(snapshot)) && mismatches == old(mismatches) + if planned then 0 else 1
      ensures fault.None? && planned ==>
        Carried(old(runtime.routes.pendingPlan).value, old(SwitchFails(runtime.routes.pendingPlan.value)), old(runtime.active))
      ensures planned ==>
        runtime.device.shown == old(runtime.device.shown) + old(FrontOfPlan(runtime.routes.pendingPlan.value))
      ensures !planned ==> fault.None? && Retained(snapshot, old(runtime.active), old(runtime.device.shown))
      ensures fault.None? ==> old(runtime.held.lost) <= runtime.held.lost
      ensures old(runtime.past) <= runtime.past
    {
      fault := None;
      var plan := TakeMatchingPendingPlan(runtime.routes, snapshot);
      planned := plan.Some?;
      if planned {
        fault := Execute(snapshot, plan.value);
      } else {
        forall plan: PendingPlan ensures SoundPlan(plan) {}
        forall route: PresentationRoute ensures PresentedAs(route) { assert old(PresentedAs(route)); }
        CommitMismatch(snapshot);
      }
    }

    /** The snapshot is scaled onto the scanout that was there, for want of a plan. */
    ghost predicate Retained(snapshot: DisplayStateSnapshot, active: nat, shown: seq<Modeset>)
      reads runtime`active, runtime.device`shown, runtime.routes`presentationRoute
    {
      && runtime.active == active && runtime.device.shown == shown
      && runtime.routes.presentationRoute == Some(CurrentAfterFailure(snapshot.Key(), PlanMismatch))
    }

    /** The waiting scanout is the last thing that was shown, in the mode of the active one. */
    ghost predicate WaitingShown()
      reads runtime`held, runtime`active, runtime.device`shown
    {
      && runtime.held.waiting.Some? && Some(runtime.held.waiting.value.mode) == ModeOfSlot(runtime.active)
      && WaitingFront() != [] && runtime.device.shown != []
      && runtime.device.shown[|runtime.device.shown| - 1] == WaitingFront()[0]
    }

    /** Commits the snapshot; when its plan was carried out and the waiting scanout is visible, that is shown again. */
    method CommitChecked(snapshot: DisplayStateSnapshot, waitingVisible: bool, drawn: bool)
      returns (fault: Option<ScanoutError>)
      requires JustCommitted(snapshot)
      modifies this, runtime, runtime.device, runtime.routes, shadow, shadow.pixels
      ensures fault.None? ==> Inv()
      ensures fault.Some? ==>
        Obeys(Conservation) && fault.value in {ReleaseFailed, CreateFailed, RenderFailed, ByteOverflow, ModesetFailed}
      ensures mismatches == old(mismatches) + if old(Planned(snapshot)) then 0 else 1
      ensures fault.None? && old(Planned(snapshot)) ==>
        Carried(old(runtime.routes.pendingPlan).value, old(SwitchFails(runtime.routes.pendingPlan.value)), old(runtime.active))
        && runtime.device.shown == old(runtime.device.shown) + old(FrontOfPlan(runtime.routes.pendingPlan.value))
                                   + (if waitingVisible then WaitingFront() else [])
        && (waitingVisible ==> WaitingShown())
      ensures !old(Planned(snapshot)) ==>
        fault.None? && Retained(snapshot, old(runtime.active), old(runtime.device.shown))
      ensures fault.None? ==> old(runtime.held.lost) <= runtime.held.lost
      ensures old(runtime.past) <= runtime.past
    {
      var planned;
      planned, fault := CommitSnapshot(snapshot);
      if planned && fault.None? && waitingVisible { fault := PresentWaitingSurface(drawn); }
    }

    /** Commits what is pending in the protocol, if anything is. */
    method CommitProtocol() returns (snapshot: Option<DisplayStateSnapshot>)
      requires Inv()
      modifies protocol`pendingState, protocol`committedState
      ensures if snapshot.Some? then JustCommitted(snapshot.value) else Inv()
      ensures snapshot == old(protocol.pendingState)
      ensures protocol.Seen() == Next(protocol.validation, old(protocol.Seen()), Commit)
    {
      if runtime.routes.pendingPlan.Some? { assert SoundPlan(runtime.routes.pendingPlan.value); }
      snapshot := protocol.CommitPendingState();
      forall plan: PendingPlan ensures SoundPlan(plan) { assert old(SoundPlan(plan)); }
      forall route: PresentationRoute ensures PresentedAs(route) { assert old(PresentedAs(route)); }
    }

    /** SET_STATE_COMMIT. An error ends the event loop. */
    method HandleCommit(handled: bool, waitingVisible: bool, drawn: bool) returns (fault: Option<ScanoutError>)
      requires Inv()
      modifies this, runtime, runtime.device, runtime.routes, shadow, shadow.pixels
      modifies protocol`pendingState, protocol`committedState
      ensures fault.None? ==> Inv()
      ensures fault.Some? ==>
        Obeys(Conservation) && fault.value in {ReleaseFailed, CreateFailed, RenderFailed, ByteOverflow, ModesetFailed}
      ensures protocol.Seen() == Next(protocol.validation, old(protocol.Seen()), Commit)
      ensures old(protocol.pendingState).Some? && fault.None? && old(Planned(protocol.pendingState.value)) ==>
        Carried(old(runtime.routes.pendingPlan).value, old(SwitchFails(runtime.routes.pendingPlan.value)), old(runtime.active))
        && runtime.device.shown == old(runtime.device.shown) + old(FrontOfPlan(runtime.routes.pendingPlan.value))
                                   + (if waitingVisible then WaitingFront() else [])
        && (waitingVisible ==> WaitingShown())
      ensures mismatches == old(mismatches) + if old(Planless()) then 1 else 0
      ensures old(Planless()) ==>
        fault.None? && Retained(old(protocol.pendingState).value, old(runtime.active), old(runtime.device.shown))
      ensures old(protocol.pendingState).None? ==>
        && fault.None? && runtime.active == old(runtime.active) && runtime.device.shown == old(runtime.device.shown)
        && runtime.routes.presentationRoute == old(runtime.routes.presentationRoute)
        && Dropped(handled, old(runtime.held), old(runtime.candidate), old(runtime.routes.pendingPlan))
      ensures fault.None? ==> old(runtime.held.lost) <= runtime.held.lost
      ensures old(runtime.past) <= runtime.past
    {
      fault := None;
      var snapshot := CommitProtocol();
      if snapshot.Some? {
        fault := CommitChecked(snapshot.value, waitingVisible, drawn);
      } else {
        DropPending(handled);
      }
    }

    // ---------- runs ----------

    /** Enable, Bind, Unbind, Suspend, Resume or Disable. */
    method HandleSession(handled: bool)
      requires Inv()
      modifies runtime`held, runtime`candidate, runtime`currentLiveBytes, runtime`observedPeakLiveBytes
      modifies runtime`past
      modifies runtime.device`ledger, runtime.routes`candidateKey, runtime.routes`pendingPlan
      modifies protocol`pendingState, protocol`committedState, protocol`controllerEnabled, protocol`displayEnabled
      ensures Inv() && protocol.Seen() == Next(protocol.validation, old(protocol.Seen()), Reset)
      ensures Dropped(handled, old(runtime.held), old(runtime.candidate), old(runtime.routes.pendingPlan))
      ensures old(runtime.held.lost) <= runtime.held.lost && old(runtime.past) <= runtime.past
    {
      var invalidated := protocol.ResetProtocolState();
      forall plan: PendingPlan ensures SoundPlan(plan) { assert old(SoundPlan(plan)); }
      DropPending(handled);
    }

    /** SET_CONTROLLER_ENABLE and SET_DISPLAY_ENABLE. */
    method HandleEnable(request: Request)
      requires Inv() && (request.Controller? || request.Display?)
      modifies protocol`controllerEnabled, protocol`displayEnabled
      ensures Inv() && protocol.Seen() == Next(protocol.validation, old(protocol.Seen()), request)
    {
      if request.Controller? {
        protocol.UpdateControllerEnabled(request.enable);
      } else {
        var ok := protocol.UpdateDisplayEnabled(request.enable);
      }
      forall plan: PendingPlan ensures SoundPlan(plan) { assert old(SoundPlan(plan)); }
    }

    ghost function Fixed(): Setting { Setting(protocol.validation, catalog, Kernel()) }

    /** What there is to see at the head of the event loop. */
    ghost function Now(): Moment
      reads this, runtime, runtime.device, runtime.routes, protocol
    {
      var routes := runtime.routes;
      Moment(protocol.Seen(), routes.pendingPlan, routes.presentationRoute, routes.currentPhysicalKey, routes.candidateKey,
             routes.failedRoutes, runtime.held, runtime.active, runtime.candidate, runtime.observedPeakLiveBytes, runtime.past,
             runtime.device.answers, runtime.device.modesets, mismatches, runtime.device.shown)
    }

    lemma NowRecorded()
      requires Inv()
      ensures Recorded(Now().past, Now().held, Now().peak)
    {
      ReadyMeans();
      ScanoutsObey();
    }

    /** The end of an event that neither passes as a check nor commits anything. */
    twostate lemma FollowsQuietly(event: DisplayEvent)
      requires Inv() && protocol.Seen() == Next(protocol.validation, old(protocol.Seen()), RequestOf(event))
      requires event.StateCheck? ==> !Passes(protocol.validation, old(protocol.Seen()), event.request)
      requires event.StateCommit? ==> old(protocol.pendingState).None?
      requires protocol.pendingState.Some? ==> unchanged(runtime.routes`pendingPlan)
      requires mismatches == old(mismatches)
      requires Invalidates(Fixed(), event, old(Now())) ==>
        Dropped(event.handled, old(runtime.held), old(runtime.candidate), old(runtime.routes.pendingPlan))
      requires old(runtime.past) <= runtime.past && old(runtime.held.lost) <= runtime.held.lost
      requires Shows(Fixed(), event, old(Now()), Now())
      ensures Follows(Fixed(), event, old(Now()), Now())
    {
      NowRecorded();
    }

    /** The plan of what is pending can be carried out. */
    lemma PlannedIsExecutable()
      requires Inv() && protocol.pendingState.Some? && Planned(protocol.pendingState.value)
      ensures Executable(runtime.routes.pendingPlan.value)
      ensures runtime.routes.pendingPlan.value.logicalKey == protocol.pendingState.value.Key()
      ensures runtime.candidate.Some? ==> runtime.candidate.value < 3 && runtime.candidate.value != runtime.active
    {
      assert SoundPlan(runtime.routes.pendingPlan.value);
      ReadyMeans();
      ScanoutsObey();
    }

    /** A check keeps a staged candidate exactly if it was staged for the timing that is asked for. */
    ghost predicate KeepsStaged(key: ModeKey)
      reads this, runtime, runtime.device, runtime.routes, protocol
    {
      && (Refuses(key) <==> !Now().StagedFor(key) && Stuck(Kernel(), Staged()))
      && (Now().StagedFor(key) ==> Stages(key) && key != runtime.routes.currentPhysicalKey)
    }

    lemma KeptIfStaged(key: ModeKey)
      requires Inv()
      ensures KeepsStaged(key)
    {
      ReadyMeans();
      ScanoutsObey();
      StagedForItsKey();
    }

    /** A check that passes, once it has been handled. */
    twostate lemma FollowsPassing(event: DisplayEvent)
      requires old(Inv()) && Inv() && event.StateCheck?
      requires Passes(protocol.validation, old(protocol.Seen()), event.request)
      requires protocol.Seen() == Next(protocol.validation, old(protocol.Seen()), Check(event.request))
      requires protocol.pendingState.Some?
      requires Planned(protocol.pendingState.value) <==> !old(Refuses(RequestedKey(event.request)))
      requires Planned(protocol.pendingState.value) ==>
        && Decided(runtime.routes.pendingPlan.value.kind, RequestedKey(event.request), old(Keeps(RequestedKey(event.request))),
                   old(runtime.routes.failedRoutes), old(Obtains(RequestedKey(event.request))), old(runtime.device.answers))
        && (!runtime.routes.pendingPlan.value.kind.ExactCandidate? ==>
              runtime.held == Released(old(runtime.held), old(runtime.candidate)))
        && (old(Stages(RequestedKey(event.request)))
            && RequestedKey(event.request) != old(runtime.routes.currentPhysicalKey) ==>
              && runtime.routes.pendingPlan.value.kind == ExactCandidate(old(runtime.candidate).value)
              && unchanged(runtime) && unchanged(runtime.device) && unchanged(runtime.routes`failedRoutes))
      requires !Planned(protocol.pendingState.value) ==> unchanged(runtime.routes`pendingPlan)
      requires runtime.held.lost
            == old(runtime.held.lost) + if old(Refuses(RequestedKey(event.request))) then Contents(old(Staged())) else []
      requires unchanged(runtime.routes`currentPhysicalKey) && unchanged(runtime`active) && mismatches == old(mismatches)
      requires unchanged(runtime.device`shown) && old(runtime.past) <= runtime.past
      requires old(KeepsStaged(RequestedKey(event.request)))
      ensures Follows(Fixed(), event, old(Now()), Now())
    {
      NowRecorded();
      ReadyMeans();
      StagedForItsKey();
      if Planned(protocol.pendingState.value) { PlannedIsExecutable(); }
      PassingFollows(Fixed(), event, old(Now()), Now());
    }

    method StepPassingCheck(event: DisplayEvent)
      requires Inv() && event.StateCheck? && Passes(protocol.validation, protocol.Seen(), event.request)
      modifies runtime, runtime.device, runtime.routes, protocol
      ensures Inv() && Follows(Fixed(), event, old(Now()), Now())
    {
      KeptIfStaged(RequestedKey(event.request));
      var error := HandleCheck(event.request, event.handled);
      FollowsPassing(event);
    }

    method StepCheck(event: DisplayEvent)
      requires Inv() && event.StateCheck?
      modifies runtime, runtime.device, runtime.routes, protocol
      ensures Inv() && Follows(Fixed(), event, old(Now()), Now())
    {
      if Passes(protocol.validation, protocol.Seen(), event.request) {
        StepPassingCheck(event);
      } else {
        var error := HandleCheck(event.request, event.handled);
        FollowsQuietly(event);
      }
    }

    method StepCommit(event: DisplayEvent) returns (fault: Option<ScanoutError>)
      requires Inv() && event.StateCommit?
      modifies this, runtime, runtime.device, runtime.routes, shadow, shadow.pixels, protocol
      ensures fault.None? ==> Inv() && Follows(Fixed(), event, old(Now()), Now())
      ensures fault.Some? ==>
        Obeys(Conservation) && fault.value in {ReleaseFailed, CreateFailed, RenderFailed, ByteOverflow, ModesetFailed}
      ensures old(Planless()) ==> fault.None?
    {
      fault := HandleCommit(event.handled, event.waitingVisible, event.drawn);
      if fault.None? { NowRecorded(); }
    }

    lemma SurfacesExactly(drawn: bool)
      requires Inv()
      ensures SurfaceError(drawn).None? <==> Surfaces(Kernel(), Now(), drawn)
    {
      ReadyMeans();
      ScanoutsObey();
    }

    method StepWaiting(event: DisplayEvent)
      requires Inv() && event.PresentWaiting?
      modifies runtime, runtime.device
      ensures Inv() && Follows(Fixed(), event, old(Now()), Now())
    {
      SurfacesExactly(event.drawn);
      var error := PresentWaitingSurface(event.drawn);   // only reported
      NowRecorded();
      WaitingFollows(Fixed(), event.drawn, old(Now()), Now());
    }

    method StepOther(event: DisplayEvent)
      requires Inv() && !event.StateCheck? && !event.StateCommit?
      modifies this, runtime, runtime.device, runtime.routes, protocol
      ensures Inv() && Follows(Fixed(), event, old(Now()), Now())
    {
      match event {
        case PresentWaiting(_) =>
          StepWaiting(event);
          return;
        case SessionEvent(handled) =>
          HandleSession(handled);
        case ControllerEnable(enable) =>
          HandleEnable(Controller(enable));
        case DisplayEnable(enable) =>
          HandleEnable(Request.Display(enable));
      }
      FollowsQuietly(event);
    }

    /** One event. The device has no influence on the protocol state. */
    method Step(event: DisplayEvent) returns (fault: Option<ScanoutError>)
      requires Inv()
      modifies this, runtime, runtime.device, runtime.routes, shadow, shadow.pixels, protocol
      ensures fault.None? ==> Inv() && Follows(Fixed(), event, old(Now()), Now())
      ensures fault.Some? ==>
        && event.StateCommit? && Obeys(Conservation)
        && fault.value in {ReleaseFailed, CreateFailed, RenderFailed, ByteOverflow, ModesetFailed}
      ensures old(Planless()) ==> fault.None?
    {
      fault := None;
      if event.StateCheck? {
        StepCheck(event);
      } else if event.StateCommit? {
        fault := StepCommit(event);
      } else {
        StepOther(event);
      }
    }

    /** The loop has gone through the events, moment by moment, or stopped at an error of a commit. */
    ghost predicate WentThrough(events: seq<DisplayEvent>, ms: seq<Moment>, fault: Option<ScanoutError>)
      reads this, runtime, runtime.device, runtime.routes, shadow, protocol
    {
      forall law: RunLaw :: Went(law, events, ms, fault)
    }

    ghost predicate Went(law: RunLaw, events: seq<DisplayEvent>, ms: seq<Moment>, fault: Option<ScanoutError>)
      reads this, runtime, runtime.device, runtime.routes, shadow, protocol
    {
      match law
      case MomentByMoment => Trace(Fixed(), events, ms)
      case UpToNow => fault.None? ==> Inv() && |ms| == |events| + 1 && ms[|events|] == Now()
      case OrStopped =>
        fault.Some? ==>
          && Obeys(Conservation) && fault.value in {ReleaseFailed, CreateFailed, RenderFailed, ByteOverflow, ModesetFailed}
          && 0 < |ms| <= |events| && events[|ms| - 1].StateCommit?
    }

    lemma WentThroughMeans(events: seq<DisplayEvent>, ms: seq<Moment>, fault: Option<ScanoutError>)
      requires WentThrough(events, ms, fault)
      ensures Trace(Fixed(), events, ms)
      ensures if fault.None? then Inv() && |ms| == |events| + 1 && ms[|events|] == Now()
              else Obeys(Conservation) && |ms| <= |events| && events[|ms| - 1].StateCommit?
    {
      assert Went(MomentByMoment, events, ms, fault) && Went(UpToNow, events, ms, fault) && Went(OrStopped, events, ms, fault);
    }

    /**
     Whatever the host and the device do, the loop stays sound, or it stops at one of five device errors. The moments of
     the run follow one another event by event.
     */
    method Run(events: seq<DisplayEvent>) returns (fault: Option<ScanoutError>, ghost ms: seq<Moment>)
      requires Inv()
      modifies this, runtime, runtime.device, runtime.routes, shadow, shadow.pixels, protocol
      ensures WentThrough(events, ms, fault)
      ensures Trace(Fixed(), events, ms) && ms[0] == old(Now())
      ensures if fault.None? then Inv() && |ms| == |events| + 1 && ms[|events|] == Now()
              else Obeys(Conservation) && |ms| <= |events| && events[|ms| - 1].StateCommit?
                   && fault.value in {ReleaseFailed, CreateFailed, RenderFailed, ByteOverflow, ModesetFailed}
    {
      fault, ms := None, [Now()];
      NowRecorded();
      for i := 0 to |events|
        invariant fault.None? && Inv() && |ms| == i + 1
        invariant ms[0] == old(Now()) && ms[i] == Now() && Trace(Fixed(), events, ms)
      {
        fault := Step(events[i]);
        if fault.Some? { return; }
        ms := ms + [Now()];
      }
    }

    /** The regular end: the kernel is left with nothing but what it refused to give up, and with no mapping. */
    method TearDown() returns (ok: bool)
      requires Inv()
      modifies runtime, runtime.device
      ensures runtime.device.ledger.buffers == {} && runtime.device.ledger.framebuffers == {}
      ensures runtime.device.maps == runtime.device.unmaps && runtime.currentLiveBytes == 0
      ensures runtime.device.ledger.Clean() <==> ok && old(runtime.device.ledger.Clean())
    {
      ReadyMeans();
      ScanoutsObey();
      runtime.Unmap(mapped);
      ok := runtime.ReleaseAll();
    }

    // ---------- consequences ----------

    /** A pair of a logical and a physical key fails at most once, so failures are quadratic in the catalog at most. */
    lemma FailuresAreBounded()
      requires Inv()
      ensures runtime.routes.failures <= |catalog.byKey.Keys| * |catalog.byKey.Keys|
    {
      ReadyMeans();
      forall f | f in runtime.routes.failedRoutes
        ensures f.logical in catalog.byKey.Keys && f.currentPhysical in catalog.byKey.Keys
      {
        assert Known(runtime.routes.failedRoutes, f);
      }
      FailuresBounded(runtime.routes.failedRoutes, catalog.byKey.Keys, catalog.byKey.Keys);
    }

    /** Outside a check or commit a slot is free for the next candidate, and no other slot is occupied or mapped. */
    lemma ASlotIsFree(i: nat)
      requires Inv() && i < 3
      ensures runtime.held.Get(i).Some? <==> i == BASELINE || i == runtime.active || runtime.candidate == Some(i)
      ensures i in runtime.mapped <==> i == runtime.active
      ensures runtime.candidate.None? ==> runtime.held.Get(Primary()).None? && Primary() !in runtime.mapped
    {
      ReadyMeans();
      ScanoutsObey();
    }

    /** Of the resources of the kernel each is held once, by a slot or by the waiting scanout, or is a failed release; and
        the peak is that of everything that was ever held. */
    lemma EverythingIsAccounted()
      requires Inv()
      ensures Accounts(runtime.device.ledger, runtime.held)
      ensures runtime.currentLiveBytes == runtime.held.Bytes() <= runtime.observedPeakLiveBytes
      ensures runtime.past != [] && runtime.past[|runtime.past| - 1] == runtime.held
      ensures forall j :: Linked(runtime.past, j)
      ensures runtime.observedPeakLiveBytes == PeakOf(runtime.past)
      ensures runtime.device.maps == runtime.device.unmaps + 2
      ensures forall i :: 0 <= i < 3 && runtime.held.Get(i).Some? ==>
        var a := runtime.held.Get(i).value;
        && a.liveBytes == a.first.mappingLen + a.second.mappingLen
        && a.width == a.mode.timing.hdisplay > 0 && a.height == a.mode.timing.vdisplay > 0
        && a.first.buffer.Some? && a.first.framebuffer.Some? && a.second.buffer.Some? && a.second.framebuffer.Some?
      ensures runtime.held.waiting.Some? ==> runtime.held.waiting.value.liveBytes == runtime.held.waiting.value.only.mappingLen
      ensures runtime.currentLiveBytes ==
        (if runtime.held.s0.Some? then runtime.held.s0.value.liveBytes else 0)
        + (if runtime.held.s1.Some? then runtime.held.s1.value.liveBytes else 0)
        + (if runtime.held.s2.Some? then runtime.held.s2.value.liveBytes else 0)
        + (if runtime.held.waiting.Some? then runtime.held.waiting.value.liveBytes else 0)
    {
      ReadyMeans();
      ScanoutsObey();
      AccountsMean(runtime.device.ledger, runtime.held);
      forall i | 0 <= i < 3 && runtime.held.Get(i).Some?
        ensures runtime.held.Get(i).value.Complete()
      {
        SlotIsWhole(runtime.device.ledger, runtime.held, i);
      }
      RecordedMeans(runtime.past, runtime.held, runtime.observedPeakLiveBytes);
    }

    /** As long as no release was refused, nothing is lost. */
    lemma LossIsRefusal()
      requires Inv() && runtime.held.lost != []
      ensures !runtime.device.ledger.Clean()
    {
      ReadyMeans();
      ScanoutsObey();
      AccountsMean(runtime.device.ledger, runtime.held);
      assert runtime.held.lost[0] in runtime.held.lost;
    }

    /** What an exact or a scaled route means for the panel. */
    lemma RoutesAgree()
      requires Inv()
      ensures KeyOfSlot(runtime.active) == Some(runtime.routes.currentPhysicalKey)
      ensures protocol.committedState.Some? ==>
        && runtime.routes.presentationRoute.Some?
        && Presents(runtime.routes.presentationRoute.value, protocol.committedState.value)
      ensures protocol.committedState.Some? && !runtime.routes.presentationRoute.value.DirectExact? ==>
        var mode, format := protocol.committedState.value.mode, protocol.committedState.value.format;
        && shadow.contentValid && shadow.width == mode.hdisplay && shadow.height == mode.vdisplay
        && shadow.identity.Some? && shadow.identity.value.format == format
        && (format == 0x40 || format == 0x50 || format == 0x80)
        && shadow.pitch == mode.hdisplay * (if format == 0x40 then 2 else if format == 0x50 then 3 else 4)
      ensures protocol.committedState.Some? && runtime.routes.presentationRoute.value.DirectExact? ==>
        var mode := protocol.committedState.value.mode;
        && !shadow.contentValid && ModeOfSlot(runtime.active).Some?
        && ModeOfSlot(runtime.active).value.timing.hdisplay == mode.hdisplay
        && ModeOfSlot(runtime.active).value.timing.vdisplay == mode.vdisplay
    {
      ReadyMeans();
      if protocol.committedState.Some? {
        assert PresentedAs(runtime.routes.presentationRoute.value);
        assert protocol.Sound(protocol.committedState.value);
        assert Served(protocol.validation, catalog, shadow.capacity, protocol.committedState.value);
      }
    }
  }

  lemma OfferedIsCatalogued(catalog: RouteCatalog, offered: seq<CatalogEntry>, preferred: ModeKey, i: nat)
    requires Faithful(catalog, offered, preferred) && i < |offered|
    ensures offered[i].key in catalog.byKey
  {
    FirstMatchIsFirst(offered, offered[i].key);
    assert catalog.EntryForKey(offered[i].key).Some?;
  }

  lemma NothingHeldYet(l: Ledger)
    requires l.buffers == {} && l.framebuffers == {}
    ensures Accounts(l, NOTHING)
  {}

  /** Everything the loop needs to know about the catalog, for the modes of a connector. */
  lemma CatalogServes(catalog: RouteCatalog, modes: seq<DrmMode>, synthetic: seq<DisplayMode>, preferred: ModeKey, format: u8)
    requires Faithful(catalog, Offered(0, FromModes(modes), synthetic), preferred)
    requires catalog.connector == 0 && BytesPerPixel(format).Some?
    ensures forall key: ModeKey :: WellKeyed(catalog, key)
    ensures forall s: DisplayStateSnapshot ::
      Served(CatalogValidation(catalog, format), catalog,
             MaxShadowBytes(catalog.AdvertisedModes(), BytesPerPixel(format).value), s)
    ensures forall i :: 0 <= i < |modes| ==> KeyOf(0, modes[i].timing) in catalog.byKey
  {
    var offered := Offered(0, FromModes(modes), synthetic);
    ExactRoutesAreKeyed(catalog, modes, synthetic, preferred);
    forall key: ModeKey ensures WellKeyed(catalog, key) { CatalogIsWellKeyed(catalog, key); }
    forall s: DisplayStateSnapshot
      ensures Served(CatalogValidation(catalog, format), catalog,
                     MaxShadowBytes(catalog.AdvertisedModes(), BytesPerPixel(format).value), s)
    {
      if CatalogValidation(catalog, format).Admits(s) { AcceptedStateIsServed(catalog, offered, preferred, format, s); }
    }
    forall i | 0 <= i < |modes| ensures KeyOf(0, modes[i].timing) in catalog.byKey {
      OfferedIsCatalogued(catalog, offered, preferred, i);
      assert offered[i].key == KeyOf(0, modes[i].timing);
    }
  }

  /** A mode with pixels makes the shadow worth having. */
  lemma CapacityIsPositive(catalog: RouteCatalog, modes: seq<DrmMode>, synthetic: seq<DisplayMode>, preferred: ModeKey,
                           bpp: nat, i: nat)
    requires Faithful(catalog, Offered(0, FromModes(modes), synthetic), preferred) && catalog.connector == 0
    requires 0 < bpp <= 4 && i < |modes| && HasPixels(modes[i])
    ensures MaxShadowBytes(catalog.AdvertisedModes(), bpp) > 0
  {
    var offered := Offered(0, FromModes(modes), synthetic);
    OfferedIsCatalogued(catalog, offered, preferred, i);
    assert offered[i].key == KeyOf(0, modes[i].timing);
    var k := catalog.byKey[offered[i].key];
    var mode := catalog.AdvertisedModes()[k];
    assert KeyOf(0, mode) == KeyOf(0, modes[i].timing);
    ProductPositive(mode.hdisplay, mode.vdisplay, bpp);
    MaxShadowBytesCover(catalog.AdvertisedModes(), bpp, k);
  }

  lemma ProductPositive(w: nat, h: nat, bpp: nat)
    requires w > 0 && h > 0 && bpp > 0
    ensures w * h * bpp > 0
  {}

  /** A runtime that holds nothing but the baseline, in the given mode, and possibly the waiting scanout. */
  ghost predicate AtStart(runtime: ScanoutRuntime, mode: DrmMode)
    reads runtime, runtime.device, runtime.routes
  {
    var routes := runtime.routes;
    && runtime.held.lost == []
    && runtime.Resources() && runtime.Roles() && runtime.active == BASELINE && runtime.candidate.None?
    && runtime.held.s0.Some? && runtime.held.s0.value.mode == mode
    && routes.currentPhysicalKey == routes.baselinePhysicalKey == KeyOf(0, mode.timing)
    && routes.pendingPlan.None? && routes.failedRoutes == {} && routes.failures == 0
    && routes.committedSnapshot.None? && routes.presentationRoute.None? && routes.candidateKey.None?
  }

  /** Nothing is held yet. */
  ghost predicate Blank(device: Device)
    reads device
  {
    && device.Valid() && device.ledger.buffers == {} && device.ledger.framebuffers == {}
    && device.maps == device.unmaps
  }

  method StartBaseline(device: Device, mode: DrmMode) returns (runtime: ScanoutRuntime?)
    requires Blank(device)
    modifies device
    ensures var t := Granted(device.kernel, mode, old(device.answers));
      && device.answers == t.answers && (runtime != null <==> t.result.Some?)
      && (runtime != null ==> runtime.currentLiveBytes == t.result.value.Bytes())
    ensures device.modesets == old(device.modesets) && device.shown == old(device.shown)
    ensures runtime != null ==>
      && fresh(runtime) && fresh(runtime.routes) && runtime.device == device
      && AtStart(runtime, mode) && runtime.mapped == {} && runtime.held.waiting.None?
  {
    ghost var before := device.ledger;
    NothingHeldYet(before);
    var baseline := Create(device, mode);
    if baseline.None? { return null; }
    assert baseline.value.liveBytes == baseline.value.Measures().Bytes();
    runtime := new ScanoutRuntime(device, baseline.value, KeyOf(0, mode.timing), before);
  }

  /** The kernel lets the loop have a waiting scanout, draw it and map the baseline. */
  predicate WaitingGranted(k: Kernel, mode: DrmMode, drawn: bool, bytes: nat, log: Log) {
    var waiting := GrantedWaiting(k, mode, log);
    var drawing := MapOne(k, waiting.answers);
    && FirstWaitingError(k, mode, bytes, log, 0).None? && drawn && drawing.result.Some?
    && MapTwo(k, drawing.answers).result.Some?
  }

  /** Draws the waiting scanout and maps the baseline. */
  method DrawAndMap(runtime: ScanoutRuntime, mode: DrmMode, drawn: bool) returns (ok: bool)
    requires AtStart(runtime, mode) && runtime.mapped == {} && runtime.held.WaitsIn(mode)
    modifies runtime`mapped
    modifies runtime.device`maps, runtime.device`refusals, runtime.device`answers, runtime.device`unmaps
    ensures var drawing := MapOne(runtime.device.kernel, old(runtime.device.answers));
      ok <==> drawn && drawing.result.Some? && MapTwo(runtime.device.kernel, drawing.answers).result.Some?
    ensures ok ==> AtStart(runtime, mode) && runtime.mapped == {BASELINE}
  {
    WaitingIsWhole(runtime.device.ledger, runtime.held);
    ok := RenderWaiting(runtime.device, runtime.held.waiting.value, drawn);
    if ok { ok := runtime.Map(BASELINE); }
  }

  /** The waiting scanout in the same mode, drawn, and the mapping of the baseline. */
  method StartWaiting(runtime: ScanoutRuntime, mode: DrmMode, drawn: bool) returns (ok: bool)
    requires AtStart(runtime, mode) && runtime.mapped == {} && runtime.held.waiting.None?
    modifies runtime, runtime.device
    ensures ok <==>
      WaitingGranted(runtime.device.kernel, mode, drawn, old(runtime.currentLiveBytes), old(runtime.device.answers))
    ensures ok ==>
      && AtStart(runtime, mode) && runtime.mapped == {BASELINE} && runtime.held.WaitsIn(mode)
      && runtime.currentLiveBytes == old(runtime.currentLiveBytes) + runtime.held.WaitingBytes()
      && Some(runtime.held.WaitingBytes()) == GrantedWaiting(runtime.device.kernel, mode, old(runtime.device.answers)).result
    ensures runtime.device.modesets == old(runtime.device.modesets) && runtime.device.shown == old(runtime.device.shown)
  {
    var error := runtime.CreateFirstWaiting(mode);
    ok := error.None?;
    if ok { ok := DrawAndMap(runtime, mode, drawn); }
  }

  const CRTC_SET_RETRIES: nat := 20

  /** One of the attempts to set the first mode succeeds. */
  ghost predicate FirstModeSet(k: Kernel, from: nat, attempts: nat) {
    exists n :: from <= n < from + attempts && k.sets(n)
  }

  /** The first mode is set on the waiting scanout; while that fails it is tried again, so many times in all. */
  method SetFirstMode(device: Device, framebuffer: nat, mode: DrmMode) returns (ok: bool)
    requires framebuffer in device.ledger.framebuffers
    modifies device`shown, device`refusals, device`modesets
    ensures ok <==> FirstModeSet(device.kernel, old(device.modesets), CRTC_SET_RETRIES)
    ensures ok <==> exists n :: old(device.modesets) <= n < old(device.modesets) + 20 && device.kernel.sets(n)
    ensures device.shown == old(device.shown) + if ok then [Modeset(framebuffer, mode)] else []
    ensures old(device.modesets) < device.modesets <= old(device.modesets) + CRTC_SET_RETRIES
    ensures !FirstModeSet(device.kernel, old(device.modesets), device.modesets - 1 - old(device.modesets))
  {
    ok := false;
    for attempt := 0 to CRTC_SET_RETRIES
      invariant !ok && device.modesets == old(device.modesets) + attempt && device.shown == old(device.shown)
      invariant !FirstModeSet(device.kernel, old(device.modesets), attempt)
    {
      ok := device.SetCrtc(framebuffer, mode);
      if ok { return; }
    }
  }

  /** The catalog of the modes, and the capacity of the shadow. */
  method StartCatalog(modes: seq<DrmMode>, preferred: nat, synthetic: seq<DisplayMode>, format: u8)
    returns (catalog: RouteCatalog, capacity: u64)
    requires preferred < |modes| && BytesPerPixel(format).Some?
    ensures Faithful(catalog, Offered(0, FromModes(modes), synthetic), KeyOf(0, modes[preferred].timing))
    ensures catalog.connector == 0
    ensures forall key: ModeKey :: WellKeyed(catalog, key)
    ensures forall s: DisplayStateSnapshot :: Served(CatalogValidation(catalog, format), catalog, capacity, s)
    ensures forall i :: 0 <= i < |modes| ==> KeyOf(0, modes[i].timing) in catalog.byKey
    ensures forall i :: 0 <= i < |modes| && HasPixels(modes[i]) ==> capacity > 0
  {
    var built := Build(0, FromModes(modes), preferred, synthetic);
    catalog := built.catalog;
    CatalogServes(catalog, modes, synthetic, KeyOf(0, modes[preferred].timing), format);
    capacity := MaxShadowBytes(catalog.AdvertisedModes(), BytesPerPixel(format).value);
    forall i | 0 <= i < |modes| && HasPixels(modes[i]) ensures capacity > 0 {
      CapacityIsPositive(catalog, modes, synthetic, KeyOf(0, modes[preferred].timing), BytesPerPixel(format).value, i);
    }
  }

  /** Startup succeeds: the kernel grants both scanouts and the mappings, and sets the first mode in time. */
  ghost predicate StartGranted(k: Kernel, mode: DrmMode, drawn: bool, log: Log, modesets: nat) {
    var baseline := Granted(k, mode, log);
    && baseline.result.Some?
    && WaitingGranted(k, mode, drawn, baseline.result.value.Bytes(), baseline.answers)
    && FirstModeSet(k, modesets, CRTC_SET_RETRIES)
  }

  /** The live bytes after startup: the baseline and the waiting scanout. */
  ghost function StartBytes(k: Kernel, mode: DrmMode, log: Log): nat {
    var baseline := Granted(k, mode, log);
    var waiting := GrantedWaiting(k, mode, baseline.answers);
    (if baseline.result.Some? then baseline.result.value.Bytes() else 0)
    + (if waiting.result.Some? then waiting.result.value else 0)
  }

  /** The baseline and the waiting scanout, the latter on the CRTC. */
  method StartScanouts(device: Device, mode: DrmMode, drawn: bool) returns (runtime: ScanoutRuntime?)
    requires Blank(device)
    modifies device
    ensures runtime != null <==> StartGranted(device.kernel, mode, drawn, old(device.answers), old(device.modesets))
    ensures runtime != null ==>
      && fresh(runtime) && fresh(runtime.routes) && runtime.device == device
      && AtStart(runtime, mode) && runtime.mapped == {BASELINE} && runtime.held.WaitsIn(mode)
      && device.shown == old(device.shown) + runtime.held.waiting.value.Front()
      && runtime.currentLiveBytes == StartBytes(device.kernel, mode, old(device.answers))
  {
    runtime := StartBaseline(device, mode);
    if runtime == null { return; }
    var ok := StartWaiting(runtime, mode, drawn);
    if !ok { return null; }
    WaitingIsWhole(device.ledger, runtime.held);
    ok := SetFirstMode(device, runtime.held.waiting.value.only.framebuffer.value, mode);
    if !ok { return null; }
  }

  /** The event loop is entered. */
  method Enter(catalog: RouteCatalog, capacity: u64, runtime: ScanoutRuntime, mode: DrmMode, format: u8)
    returns (display: DisplayLoop)
    requires AtStart(runtime, mode) && runtime.mapped == {BASELINE}
    requires KeyOf(0, mode.timing) in catalog.byKey && capacity > 0
    requires forall key: ModeKey :: WellKeyed(catalog, key)
    requires forall s: DisplayStateSnapshot :: Served(CatalogValidation(catalog, format), catalog, capacity, s)
    ensures fresh(display) && fresh(display.shadow) && fresh(display.shadow.pixels) && fresh(display.protocol)
    ensures display.runtime == runtime && display.catalog == catalog && display.Inv() && display.mismatches == 0
    ensures display.protocol.validation == CatalogValidation(catalog, format) && display.protocol.Seen() == UNCONFIGURED
    ensures unchanged(runtime) && unchanged(runtime.device)
  {
    var shadow := new ShadowFramebuffer.Preallocated(capacity);
    var protocol := new ProtocolState(CatalogValidation(catalog, format));
    display := new DisplayLoop(catalog, runtime, shadow, protocol, mode);
  }

  /** Startup: the catalog, the shadow and the scanouts. Any error ends the program before the gadget is bound. */
  method Start(device: Device, modes: seq<DrmMode>, preferred: nat, chosen: nat, synthetic: seq<DisplayMode>, format: u8,
               drawn: bool)
    returns (display: DisplayLoop?)
    requires preferred < |modes| && chosen < |modes| && BytesPerPixel(format).Some? && Blank(device)
    modifies device
    ensures display != null <==>
      StartGranted(device.kernel, modes[chosen], drawn, old(device.answers), old(device.modesets))
    ensures display != null ==>
      && fresh(display) && fresh(display.runtime) && display.runtime.device == device && fresh(display.runtime.routes)
      && fresh(display.shadow) && fresh(display.shadow.pixels) && fresh(display.protocol)
      && display.Inv() && display.mismatches == 0 && display.protocol.Seen() == UNCONFIGURED
      && device.shown == old(device.shown) + display.WaitingFront()
      && AtStart(display.runtime, modes[chosen])
      && display.runtime.currentLiveBytes == StartBytes(device.kernel, modes[chosen], old(device.answers))
    ensures display != null ==>
      drawn && exists n :: old(device.modesets) <= n < old(device.modesets) + 20 && device.kernel.sets(n)
    ensures display != null ==>
      && Faithful(display.catalog, Offered(0, FromModes(modes), synthetic), KeyOf(0, modes[preferred].timing))
      && display.protocol.validation == CatalogValidation(display.catalog, format)
  {
    display := null;
    var catalog, capacity := StartCatalog(modes, preferred, synthetic, format);
    if capacity == 0 { return; }
    var runtime := StartScanouts(device, modes[chosen], drawn);
    if runtime != null { display := Enter(catalog, capacity, runtime, modes[chosen], format); }
  }
}

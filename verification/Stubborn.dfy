/** A run in which a commit misses its plan, from startup on: the kernel never gives a framebuffer back. */
module Stubborn {
  import opened Wire
  import opened Modes
  import opened Protocol
  import opened Shadow
  import opened Backend
  import opened Scanout
  import opened Holdings
  import opened Routes
  import opened Runtime
  import opened Moments
  import opened Display

  /** Everything succeeds, except that no framebuffer can be removed. */
  function KeepsFramebuffers(): Kernel {
    Kernel(_ => Some(4), _ => true, _ => Some(4), _ => false, _ => true, _ => true)
  }

  function CheckOf(mode: DrmMode): StateRequest {
    StateRequest(mode.timing, GUD_PIXEL_FORMAT_RGB565, 0)
  }

  lemma EverythingGranted(mode: DrmMode, log: Log)
    requires HasPixels(mode)
    ensures Granted(KeepsFramebuffers(), mode, log).result == Some(Extent(4, 4, 4))
    ensures GrantedWaiting(KeepsFramebuffers(), mode, log).result == Some(4)
  {
    var k := KeepsFramebuffers();
    var one := MakeOne(k, mode, log);
    var two := MakeOne(k, mode, one.answers);
    assert one.result == Some(4) && two.result == Some(4);
    assert MapOne(k, two.answers).result == Some(4) && MapOne(k, one.answers).result == Some(4);
  }

  lemma StartupGranted(mode: DrmMode, modesets: nat)
    requires HasPixels(mode)
    ensures StartGranted(KeepsFramebuffers(), mode, true, Nothing, modesets)
    ensures StartBytes(KeepsFramebuffers(), mode, Nothing) == 12
  {
    var k := KeepsFramebuffers();
    var baseline := Granted(k, mode, Nothing);
    EverythingGranted(mode, Nothing);
    EverythingGranted(mode, baseline.answers);
    assert k.sets(modesets);
  }

  /** A physical mode whose timing no other has can be checked, and its route is exact. */
  lemma PhysicalIsExact(catalog: RouteCatalog, home: DrmMode, other: DrmMode, preferred: ModeKey, mode: DrmMode)
    requires Faithful(catalog, Offered(0, FromModes([home, other]), []), preferred) && catalog.connector == 0
    requires KeyOf(0, home.timing) != KeyOf(0, other.timing) && mode in [home, other]
    ensures Routed(catalog, KeyOf(0, mode.timing), Exact(mode))
    ensures CatalogValidation(catalog, GUD_PIXEL_FORMAT_RGB565).Accepts(CheckOf(mode))
  {
    var offered, key := Offered(0, FromModes([home, other]), []), KeyOf(0, mode.timing);
    assert offered[0].key == KeyOf(0, home.timing) && offered[1].key == KeyOf(0, other.timing);
    FirstMatchIsFirst(offered, key);
    assert catalog.EntryForKey(key).Some?;
    var i := catalog.byKey[key];
    assert SameUserTiming(catalog.AdvertisedModes()[i], mode.timing);
  }

  /** Both modes have exact routes, and both can be checked. */
  ghost predicate Suits(display: DisplayLoop, home: DrmMode, other: DrmMode) {
    && display.Kernel() == KeepsFramebuffers() && HasPixels(other)
    && KeyOf(0, home.timing) != KeyOf(0, other.timing)
    && Routed(display.catalog, KeyOf(0, other.timing), Exact(other))
    && display.protocol.validation.Accepts(CheckOf(home)) && display.protocol.validation.Accepts(CheckOf(other))
  }

  /** The baseline is shown, and no commit has missed its plan. */
  ghost predicate AtHome(display: DisplayLoop, home: DrmMode)
    reads display, display.runtime, display.runtime.device, display.runtime.routes, display.shadow, display.protocol
  {
    && display.Inv() && display.runtime.active == BASELINE && display.mismatches == 0
    && display.runtime.routes.currentPhysicalKey == KeyOf(0, home.timing)
  }

  /** A staged candidate that the kernel will not take back. */
  ghost predicate StuckWith(display: DisplayLoop, key: ModeKey)
    reads display.runtime`held, display.runtime`candidate, display.runtime.routes`candidateKey
  {
    && display.Staged().Some? && Stuck(display.Kernel(), display.Staged())
    && display.runtime.routes.candidateKey == Some(key)
  }

  /** A plan with a candidate means that one is staged, and the kernel of this run will not take it back. */
  lemma StagedIsStuck(display: DisplayLoop)
    requires display.Inv() && display.protocol.pendingState.Some? && display.Planned(display.protocol.pendingState.value)
    requires display.runtime.routes.pendingPlan.value.kind.ExactCandidate? && display.Kernel() == KeepsFramebuffers()
    ensures StuckWith(display, display.protocol.pendingState.value.Key())
  {
    var plan := display.runtime.routes.pendingPlan.value;
    assert display.SoundPlan(plan);
    display.ReadyMeans();
    display.ScanoutsObey();
    SlotIsWhole(display.runtime.device.ledger, display.runtime.held, plan.kind.slot);
  }

  /** A check of `other` stages a candidate. */
  method StageOther(display: DisplayLoop, home: DrmMode, other: DrmMode)
    requires Suits(display, home, other) && AtHome(display, home) && display.protocol.Seen() == UNCONFIGURED
    requires display.runtime.candidate.None? && display.runtime.routes.failedRoutes == {}
    requires display.runtime.held.Bytes() == 12
    modifies display.runtime, display.runtime.device, display.runtime.routes, display.protocol
    ensures AtHome(display, home) && display.protocol.nextGeneration == 1
    ensures StuckWith(display, KeyOf(0, other.timing))
  {
    EverythingGranted(other, display.runtime.device.answers);
    assert display.Obtains(KeyOf(0, other.timing));
    var error := display.HandleCheck(CheckOf(other), true);
    StagedIsStuck(display);
  }

  /** A check of `home` has to give the candidate up, and is refused its plan. */
  method RefuseHome(display: DisplayLoop, home: DrmMode, other: DrmMode)
    requires Suits(display, home, other) && AtHome(display, home) && display.protocol.nextGeneration == 1
    requires StuckWith(display, KeyOf(0, other.timing))
    modifies display.runtime, display.runtime.device, display.runtime.routes, display.protocol
    ensures AtHome(display, home)
    ensures display.Planless() && display.protocol.pendingState == Some(SnapshotOf(CheckOf(home), 2))
  {
    assert display.CheckRefused(CheckOf(home));
    var error := display.HandleCheck(CheckOf(home), true);
  }

  /** Startup, as far as this run needs it. */
  method StartUp(home: DrmMode, other: DrmMode) returns (display: DisplayLoop)
    requires HasPixels(home) && HasPixels(other) && KeyOf(0, home.timing) != KeyOf(0, other.timing)
    ensures fresh(display) && fresh(display.runtime) && fresh(display.runtime.device) && fresh(display.runtime.routes)
    ensures fresh(display.shadow) && fresh(display.shadow.pixels) && fresh(display.protocol)
    ensures Suits(display, home, other) && AtHome(display, home) && display.protocol.Seen() == UNCONFIGURED
    ensures display.runtime.candidate.None? && display.runtime.routes.failedRoutes == {}
    ensures display.runtime.held.Bytes() == 12
  {
    var device := new Device(KeepsFramebuffers());
    StartupGranted(home, 0);
    display := Start(device, [home, other], 0, 0, [], GUD_PIXEL_FORMAT_RGB565, true);
    PhysicalIsExact(display.catalog, home, other, KeyOf(0, home.timing), home);
    PhysicalIsExact(display.catalog, home, other, KeyOf(0, home.timing), other);
  }

  /** So does its commit. */
  method MissHome(display: DisplayLoop, home: DrmMode)
    requires AtHome(display, home)
    requires display.Planless() && display.protocol.pendingState == Some(SnapshotOf(CheckOf(home), 2))
    modifies display, display.runtime, display.runtime.device, display.runtime.routes
    modifies display.shadow, display.shadow.pixels, display.protocol
    ensures display.Inv() && display.mismatches == 1
    ensures display.protocol.committedState == Some(SnapshotOf(CheckOf(home), 2))
    ensures display.runtime.active == BASELINE
    ensures display.runtime.routes.presentationRoute == Some(CurrentAfterFailure(KeyOf(0, home.timing), PlanMismatch))
  {
    var fault := display.HandleCommit(true, false, true);
  }

  /**
   The gadget starts up on `home`. A check of `other` stages a candidate; a check of `home` has to give it up, which the
   kernel refuses; the commit of `home` misses its plan, although `home` is what is shown.
   */
  method RefusedCheckMisses(home: DrmMode, other: DrmMode) returns (display: DisplayLoop)
    requires HasPixels(home) && HasPixels(other) && KeyOf(0, home.timing) != KeyOf(0, other.timing)
    ensures display.Inv() && display.mismatches == 1
    ensures display.protocol.committedState == Some(SnapshotOf(CheckOf(home), 2))
    ensures display.runtime.active == BASELINE
    ensures display.runtime.routes.presentationRoute == Some(CurrentAfterFailure(KeyOf(0, home.timing), PlanMismatch))
  {
    display := StartUp(home, other);
    StageOther(display, home, other);
    RefuseHome(display, home, other);
    MissHome(display, home);
  }
}

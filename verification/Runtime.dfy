/**
 The scanout runtime: three stable slots with their roles, the waiting scanout, byte accounting, and the set of slots
 whose mapping is alive. A method that borrows a slot mutably requires that the slot is not mapped: this is the
 discipline that the event loop's raw slot pointer relies on.
 */
module Runtime {
  import opened Wire
  import opened Modes
  import opened Backend
  import opened Scanout
  import opened Holdings
  import opened Routes

  const BASELINE: nat := 0

  datatype ScanoutError =
    | NotTheCandidate | AliasesActive | SlotEmpty | NoEmptySlot | NotATarget
    | ByteOverflow | ByteUnderflow | CreateFailed | ReleaseFailed | RenderFailed | ModesetFailed

  // ---------- what was ever held ----------

  /** The live bytes at the moment of a change: a new waiting scanout exists next to the one it replaces. */
  function Transient(h: Held, next: Held): nat {
    if next.waiting.Some? && h.waiting != next.waiting then h.Bytes() + next.WaitingBytes() else next.Bytes()
  }

  function Larger(m: nat, n: nat): nat { if m > n then m else n }

  /** The most live bytes there ever were, for everything that was ever held, in order. */
  function PeakOf(past: seq<Held>): nat {
    if past == [] then 0
    else if |past| == 1 then past[0].Bytes()
    else Larger(PeakOf(past[..|past| - 1]), Larger(Transient(past[|past| - 2], past[|past| - 1]), past[|past| - 1].Bytes()))
  }

  lemma PeakNext(past: seq<Held>, h: Held)
    requires past != []
    ensures PeakOf(past + [h]) == Larger(PeakOf(past), Larger(Transient(past[|past| - 1], h), h.Bytes()))
  {
    assert (past + [h])[..|past|] == past;
  }

  /** The largest of the two totals that the `i`-th holding stands for: at its beginning and from then on. */
  function TotalAt(past: seq<Held>, i: nat): nat
    requires i < |past|
  {
    if i == 0 then past[0].Bytes() else Larger(Transient(past[i - 1], past[i]), past[i].Bytes())
  }

  /** No total was ever larger. */
  lemma {:induction false} PeakIsLargest(past: seq<Held>, i: nat)
    requires i < |past|
    ensures TotalAt(past, i) <= PeakOf(past)
  {
    if |past| > 1 {
      var before := past[..|past| - 1];
      if i < |before| {
        PeakIsLargest(before, i);
        assert TotalAt(before, i) == TotalAt(past, i);
      }
    }
  }

  /** Some total was as large. */
  lemma {:induction false} PeakIsReached(past: seq<Held>) returns (i: nat)
    requires past != []
    ensures i < |past| && TotalAt(past, i) == PeakOf(past)
  {
    i := |past| - 1;
    if i > 0 && PeakOf(past[..i]) == PeakOf(past) {
      var before := past[..i];
      i := PeakIsReached(before);
      assert TotalAt(before, i) == TotalAt(past, i);
    }
  }

  lemma PeakGrows(past: seq<Held>, later: seq<Held>)
    requires past <= later
    ensures PeakOf(past) <= PeakOf(later)
  {
    if past != [] {
      var i := PeakIsReached(past);
      PeakIsLargest(later, i);
    }
  }

  /** Something was put into an empty slot, a slot was given back, or the waiting scanout changed. */
  ghost predicate OneChange(h: Held, next: Held) {
    || (exists i, a: ScanoutAllocation :: 0 <= i < 3 && h.Get(i).None? && next == h.With(i, Some(a)))
    || (exists i, ok :: 0 <= i < 3 && h.Get(i).Some? && next == h.Without(i, ok))
    || (next == h.(waiting := next.waiting))
  }

  ghost predicate Linked(past: seq<Held>, j: int) {
    0 < j < |past| ==> OneChange(past[j - 1], past[j])
  }

  datatype RecordRule = LatestIsHeld | PeakIsRecorded | ChangeByChange

  /** Everything that was ever held is on record, change by change, up to what is held now; so is the peak. */
  ghost predicate Recorded(past: seq<Held>, h: Held, peak: nat) {
    forall rule: RecordRule :: Records(rule, past, h, peak)
  }

  ghost predicate Records(rule: RecordRule, past: seq<Held>, h: Held, peak: nat) {
    match rule
    case LatestIsHeld => past != [] && past[|past| - 1] == h
    case PeakIsRecorded => peak == PeakOf(past)
    case ChangeByChange => forall j :: Linked(past, j)
  }

  lemma RecordedMeans(past: seq<Held>, h: Held, peak: nat)
    requires Recorded(past, h, peak)
    ensures past != [] && past[|past| - 1] == h && peak == PeakOf(past)
    ensures forall j :: Linked(past, j)
    ensures h.Bytes() <= peak
  {
    assert Records(LatestIsHeld, past, h, peak) && Records(PeakIsRecorded, past, h, peak);
    assert Records(ChangeByChange, past, h, peak);
    PeakIsLargest(past, |past| - 1);
  }

  lemma RecordedNext(past: seq<Held>, h: Held, peak: nat, next: Held)
    requires Recorded(past, h, peak) && OneChange(h, next)
    ensures Recorded(past + [next], next, Larger(peak, Larger(Transient(h, next), next.Bytes())))
  {
    RecordedMeans(past, h, peak);
    PeakNext(past, next);
    forall j ensures Linked(past + [next], j) { assert Linked(past, j); }
  }

  // ---------- what the kernel makes of the waiting scanout ----------

  /** What is reported when something new cannot be counted and is given back again. */
  function OverflowError(takenBack: bool): ScanoutError {
    if takenBack then ByteOverflow else ReleaseFailed
  }

  /** The kernel takes back a waiting scanout that was made of the next two handles. */
  predicate TakesNewBack(k: Kernel, next: nat) {
    k.removes(next + 1) && k.destroys(next)
  }

  /** Why a replacement drawn for the mode cannot be had next to `bytes`; it is drawn before it is counted. */
  function ReplacementError(k: Kernel, mode: DrmMode, drawn: bool, bytes: nat, log: Log, next: nat): Option<ScanoutError> {
    var t := GrantedWaiting(k, mode, log);
    if t.result.None? then Some(CreateFailed)
    else if !drawn || MapOne(k, t.answers).result.None? then Some(RenderFailed)
    else if bytes + t.result.value >= TWO_TO_THE_64 then Some(OverflowError(TakesNewBack(k, next)))
    else None
  }

  /** The same for the first one, which is counted before it is drawn. */
  function FirstWaitingError(k: Kernel, mode: DrmMode, bytes: nat, log: Log, next: nat): Option<ScanoutError> {
    var t := GrantedWaiting(k, mode, log);
    if t.result.None? then Some(CreateFailed)
    else if bytes + t.result.value >= TWO_TO_THE_64 then Some(OverflowError(TakesNewBack(k, next)))
    else None
  }

  /** A new candidate for the mode can be had next to `bytes`. */
  predicate Affordable(k: Kernel, mode: DrmMode, bytes: nat, log: Log) {
    var t := Granted(k, mode, log).result;
    t.Some? && bytes + t.value.Bytes() < TWO_TO_THE_64
  }

  /** The kernel lets the loop map another scanout and show it. */
  predicate Showable(k: Kernel, log: Log, modesets: nat) {
    MapTwo(k, log).result.Some? && k.sets(modesets)
  }

  /** The six answers that a new candidate takes, in order, and the count of its bytes. */
  lemma AffordableExactly(k: Kernel, mode: DrmMode, bytes: nat, log: Log)
    ensures Affordable(k, mode, bytes, log) <==>
      var w, h := mode.timing.hdisplay, mode.timing.vdisplay;
      && w > 0 && h > 0 && k.creates(log).Some?
      && var p := k.creates(log).value;
         var a := Then(log, Made(w, h, p));
         var b := Then(a, Framed);
         var c := Then(b, Made(w, h, p));
         var d := Then(c, Framed);
      && k.frames(a) && k.creates(b) == Some(p) && k.frames(c) && k.maps(d).Some?
      && var first := k.maps(d).value;
      && k.maps(Then(d, Mapped(first))).Some?
      && bytes + first + k.maps(Then(d, Mapped(first))).value < 0x1_0000_0000_0000_0000
  {
    var one := MakeOne(k, mode, log);
    var two := MakeOne(k, mode, one.answers);
    var first := MapOne(k, two.answers);
    var second := MapOne(k, first.answers);
    assert Granted(k, mode, log).result.Some? ==> first.result.Some? && second.result.Some?;
  }

  /** What a switch takes: two mappings and a mode set. */
  lemma ShowableExactly(k: Kernel, log: Log, modesets: nat)
    ensures Showable(k, log, modesets) <==>
      && k.maps(log).Some? && k.maps(Then(log, Mapped(k.maps(log).value))).Some? && k.sets(modesets)
  {}

  /** What a waiting scanout takes: a buffer of the size of the mode, a framebuffer, and a mapping that tells its bytes. */
  lemma WaitingGrantedExactly(k: Kernel, mode: DrmMode, log: Log)
    ensures var w, h := mode.timing.hdisplay, mode.timing.vdisplay;
      if w > 0 && h > 0 && k.creates(log).Some? then
        var made := Then(log, Made(w, h, k.creates(log).value));
        GrantedWaiting(k, mode, log).result == if k.frames(made) then k.maps(Then(made, Framed)) else None
      else GrantedWaiting(k, mode, log).result.None?
  {}

  /** When a replacement can be had, and otherwise why not: it is made, then drawn, then counted. */
  lemma ReplacementExactly(k: Kernel, mode: DrmMode, drawn: bool, bytes: nat, log: Log, next: nat)
    ensures var t, error := GrantedWaiting(k, mode, log), ReplacementError(k, mode, drawn, bytes, log, next);
      if t.result.None? then error == Some(CreateFailed)
      else if !drawn || k.maps(t.answers).None? then error == Some(RenderFailed)
      else if bytes + t.result.value < 0x1_0000_0000_0000_0000 then error == None
      else error == Some(if k.removes(next + 1) && k.destroys(next) then ByteOverflow else ReleaseFailed)
  {}

  /** The plan needs a switch that the kernel refuses. */
  predicate SwitchRefused(kind: PendingPlanKind, k: Kernel, log: Log, modesets: nat) {
    Switches(kind) && !Showable(k, log, modesets)
  }

  class ScanoutRuntime {
    const device: Device
    const routes: DynamicRouteState
    var held: Held
    var active: nat
    var candidate: Option<nat>
    var currentLiveBytes: nat
    var observedPeakLiveBytes: nat
    ghost var past: seq<Held>          // everything that was ever held, in order
    ghost var mapped: set<nat>         // the slots with a live mapping

    /** Conservation of handles, bytes and mappings. */
    ghost predicate Resources()
      reads `held, `currentLiveBytes, `observedPeakLiveBytes, `past, `mapped
      reads device`next, device`ledger, device`maps, device`unmaps
    {
      && device.Valid() && Accounts(device.ledger, held)
      && currentLiveBytes == held.Bytes() < TWO_TO_THE_64
      && Recorded(past, held, observedPeakLiveBytes)
      && device.maps - device.unmaps == 2 * |mapped|
      && (forall i :: i in mapped ==> i < 3 && held.Get(i).Some?)
    }

    /** The occupied slots are exactly the baseline, the active one and the candidate. */
    ghost predicate Roles()
      reads `held, `active, `candidate
    {
      && active < 3 && held.s0.Some? && held.Get(active).Some?
      && (candidate.Some? ==> 0 < candidate.value < 3 && candidate.value != active && held.Get(candidate.value).Some?)
      && (held.s1.Some? ==> active == 1 || candidate == Some(1))
      && (held.s2.Some? ==> active == 2 || candidate == Some(2))
    }

    /** The baseline scanout, with nothing mapped yet. */
    constructor (device: Device, baseline: ScanoutAllocation, key: ModeKey, ghost before: Ledger)
      requires device.Valid() && Accounts(before, NOTHING) && device.maps == device.unmaps
      requires Gained(before, device.ledger, baseline.Buffers(), baseline.Framebuffers())
      requires baseline.Complete() && baseline.HeldIn(device.ledger)
      ensures this.device == device && fresh(routes) && Resources() && Roles() && mapped == {}
      ensures held == Held(Some(baseline), None, None, None, []) && active == BASELINE && candidate.None?
      ensures past == [held]
      ensures routes.pendingPlan.None? && routes.failedRoutes == {} && routes.failures == 0
      ensures routes.baselinePhysicalKey == routes.currentPhysicalKey == key
      ensures routes.committedSnapshot.None? && routes.presentationRoute.None? && routes.candidateKey.None?
    {
      this.device := device;
      routes := new DynamicRouteState(key);
      held := Held(Some(baseline), None, None, None, []);
      active, candidate, mapped := BASELINE, None, {};
      currentLiveBytes, observedPeakLiveBytes := baseline.liveBytes, baseline.liveBytes;
      past := [Held(Some(baseline), None, None, None, [])];
      PutSlot(before, device.ledger, NOTHING, 0, baseline);
    }

    /** Holds something else from now on, and accounts for it. */
    method Account(next: Held, bytes: nat)
      requires Recorded(past, held, observedPeakLiveBytes) && OneChange(held, next)
      requires bytes == next.Bytes() == Transient(held, next)
      modifies `held, `currentLiveBytes, `observedPeakLiveBytes, `past
      ensures held == next && currentLiveBytes == bytes && past == old(past) + [next]
      ensures Recorded(past, held, observedPeakLiveBytes)
    {
      RecordedNext(past, held, observedPeakLiveBytes, next);
      held, past := next, past + [next];
      currentLiveBytes := bytes;
      if bytes > observedPeakLiveBytes { observedPeakLiveBytes := bytes; }
    }

    /** Accounts for the moment at which a replacement exists next to what it replaces, and for the moment after. */
    method AccountReplacement(next: Held, added: nat, replaced: nat)
      requires Recorded(past, held, observedPeakLiveBytes) && OneChange(held, next)
      requires replaced <= currentLiveBytes && currentLiveBytes + added == Transient(held, next)
      requires currentLiveBytes + added - replaced == next.Bytes()
      modifies `held, `currentLiveBytes, `observedPeakLiveBytes, `past
      ensures held == next && currentLiveBytes == next.Bytes() && past == old(past) + [next]
      ensures observedPeakLiveBytes == if old(currentLiveBytes) + added > old(observedPeakLiveBytes)
                                       then old(currentLiveBytes) + added else old(observedPeakLiveBytes)
      ensures Recorded(past, held, observedPeakLiveBytes)
    {
      RecordedNext(past, held, observedPeakLiveBytes, next);
      var transient := currentLiveBytes + added;
      held, past := next, past + [next];
      currentLiveBytes := currentLiveBytes - replaced + added;
      if transient > observedPeakLiveBytes { observedPeakLiveBytes := transient; }
    }

    // ---------- mappings ----------

    /** Maps both buffers of a slot. */
    method Map(i: nat) returns (ok: bool)
      requires Resources() && i < 3 && held.Get(i).Some? && i !in mapped
      modifies `mapped, device`maps, device`refusals, device`answers, device`unmaps
      ensures Resources() && mapped == old(mapped) + if ok then {i} else {}
      ensures device.refusals == old(device.refusals) + if ok then 0 else 1
      ensures var t := MapTwo(device.kernel, old(device.answers)); (ok <==> t.result.Some?) && device.answers == t.answers
    {
      var a := held.Get(i).value;
      SlotIsWhole(device.ledger, held, i);
      var lengths := MapBoth(device, a.first.buffer.value, a.second.buffer.value);
      ok := lengths.Some?;
      if ok {
        mapped := mapped + {i};
        assert |mapped| == |old(mapped)| + 1;
      }
    }

    method Unmap(i: nat)
      requires Resources() && i in mapped
      modifies `mapped, device`unmaps
      ensures Resources() && mapped == old(mapped) - {i}
    {
      UnmapBoth(device);
      mapped := mapped - {i};
      assert |old(mapped)| == |mapped| + 1;
    }

    // ---------- slots ----------

    /** Stages an allocation that is not yet accounted; `before` is the ledger before it was made. */
    method StageCandidate(i: nat, a: ScanoutAllocation, ghost before: Ledger) returns (error: Option<ScanoutError>)
      requires i < 3 && i !in mapped && device.Valid() && Accounts(before, held)
      requires Gained(before, device.ledger, a.Buffers(), a.Framebuffers()) && a.Complete() && a.HeldIn(device.ledger)
      requires currentLiveBytes == held.Bytes() < TWO_TO_THE_64 && Recorded(past, held, observedPeakLiveBytes)
      requires device.maps - device.unmaps == 2 * |mapped| && (forall i :: i in mapped ==> i < 3 && held.Get(i).Some?)
      requires candidate.None? && i != active && held.Get(i).None?
      modifies `held, `candidate, `currentLiveBytes, `observedPeakLiveBytes, `past, device`ledger
      ensures Resources() && mapped == old(mapped) && active == old(active) && held.waiting == old(held).waiting
      ensures error == if old(held.Bytes()) + a.liveBytes < TWO_TO_THE_64 then None
                       else Some(OverflowError(a.TakenBack(device.kernel)))
      ensures error.None? ==> held == old(held).With(i, Some(a)) && candidate == Some(i) && past == old(past) + [held]
      ensures error.Some? ==> held == old(held) && candidate.None? && past == old(past)
      ensures device.ledger.Clean() ==> before.Clean()
    {
      if currentLiveBytes + a.liveBytes >= TWO_TO_THE_64 {
        var ok := Discard(device, a, before);
        HeldUnchanged(before, device.ledger, held);
        return Some(OverflowError(ok));
      }
      PutSlot(before, device.ledger, held, i, a);
      GainedMeans(before, device.ledger, a.Buffers(), a.Framebuffers());
      candidate := Some(i);
      Account(held.With(i, Some(a)), currentLiveBytes + a.liveBytes);
      return None;
    }

    /** Makes a candidate for a mode in an empty slot, exactly if the kernel and the accounts allow it. */
    method CreateCandidate(i: nat, mode: DrmMode) returns (error: Option<ScanoutError>)
      requires Resources() && i < 3 && i !in mapped && candidate.None? && i != active && held.Get(i).None?
      modifies `held, `candidate, `currentLiveBytes, `observedPeakLiveBytes, `past
      modifies device`next, device`ledger, device`maps, device`refusals, device`answers, device`unmaps
      ensures Resources()
      ensures error.None? <==> Affordable(device.kernel, mode, old(held.Bytes()), old(device.answers))
      ensures device.answers == Granted(device.kernel, mode, old(device.answers)).answers
      ensures error.None? ==>
        && held.Get(i).Some? && held.Get(i).value.mode == mode && held == old(held).With(i, held.Get(i))
        && candidate == Some(i) && past == old(past) + [held]
      ensures error.Some? ==> held == old(held) && candidate.None? && past == old(past)
      ensures device.ledger.Clean() ==> old(device.ledger.Clean())
    {
      ghost var before := device.ledger;
      var made := Create(device, mode);
      if made.None? {
        HeldUnchanged(before, device.ledger, held);
        return Some(CreateFailed);
      }
      assert made.value.liveBytes == made.value.Measures().Bytes();
      error := StageCandidate(i, made.value, before);
    }

    /** Takes an occupied slot that is not mapped and gives its contents back; an error is only reported. */
    method TakeAndRelease(i: nat) returns (ok: bool)
      requires Resources() && i < 3 && i !in mapped && held.Get(i).Some?
      modifies `held, `currentLiveBytes, `observedPeakLiveBytes, `past, device`ledger
      ensures Resources() && held == old(held).Without(i, ok) && past == old(past) + [held]
      ensures ok <==> !Stuck(device.kernel, old(held.Get(i)))
      ensures device.ledger.Clean() <==> ok && old(device.ledger.Clean())
    {
      var a := held.Get(i).value;
      SlotIsWhole(device.ledger, held, i);
      ghost var before := device.ledger;
      ok := Release(device, a);
      TakeSlot(before, device.ledger, held, i, ok);
      Account(held.Without(i, ok), currentLiveBytes - a.liveBytes);
    }

    /** When `i` is the candidate it is gone afterwards, and only a failed device call is an error. */
    method ReleaseCandidate(i: nat) returns (error: Option<ScanoutError>)
      requires Resources() && Roles() && i < 3 && i !in mapped
      modifies `held, `candidate, `currentLiveBytes, `observedPeakLiveBytes, `past, device`ledger
      modifies routes`candidateKey
      ensures Resources() && Roles()
      ensures old(candidate) != Some(i) ==>
        && error == Some(NotTheCandidate) && held == old(held) && candidate == old(candidate)
        && device.ledger == old(device.ledger) && past == old(past)
      ensures old(candidate) == Some(i) ==>
        && candidate.None? && routes.candidateKey.None? && held == old(held).Without(i, error.None?)
        && past == old(past) + [held]
        && error == (if Stuck(device.kernel, old(held.Get(i))) then Some(ReleaseFailed) else None)
        && (device.ledger.Clean() <==> error.None? && old(device.ledger.Clean()))
    {
      if candidate != Some(i) { return Some(NotTheCandidate); }
      if i == active { return Some(AliasesActive); }
      if held.Get(i).None? { return Some(SlotEmpty); }
      if currentLiveBytes < held.Get(i).value.liveBytes { return Some(ByteUnderflow); }
      var ok := TakeAndRelease(i);
      candidate := None;
      routes.candidateKey := None;
      return if ok then None else Some(ReleaseFailed);
    }

    /** Makes the candidate or the baseline active. */
    method ActivateSlot(target: nat) returns (oldActive: nat, error: Option<ScanoutError>)
      modifies `active, `candidate
      ensures oldActive == old(active)
      ensures error == if target < 3 && (old(candidate) == Some(target) || target == BASELINE) then None else Some(NotATarget)
      ensures active == if error.None? then target else old(active)
      ensures candidate == if error.None? && old(candidate) == Some(target) then None else old(candidate)
    {
      oldActive := active;
      if target >= 3 { return oldActive, Some(NotATarget); }
      if candidate == Some(target) {
        candidate := None;
      } else if target != BASELINE {
        return oldActive, Some(NotATarget);
      }
      active := target;
      error := None;
    }

    /** The baseline is kept; any other inactive slot is emptied. */
    method ReleaseInactive(i: nat) returns (error: Option<ScanoutError>)
      requires Resources() && i < 3 && i !in mapped
      modifies `held, `currentLiveBytes, `observedPeakLiveBytes, `past, device`ledger
      ensures Resources()
      ensures i == active ==> error == Some(AliasesActive) && held == old(held) && device.ledger == old(device.ledger)
      ensures past == if i == active || i == BASELINE || old(held.Get(i)).None? then old(past) else old(past) + [held]
      ensures i != active ==>
        && held == (if i == BASELINE then old(held) else old(held).Without(i, error.None?))
        && error == (if i != BASELINE && Stuck(device.kernel, old(held.Get(i))) then Some(ReleaseFailed) else None)
        && (device.ledger.Clean() <==> error.None? && old(device.ledger.Clean()))
    {
      if i == active { return Some(AliasesActive); }
      if i == BASELINE || held.Get(i).None? { return None; }
      if currentLiveBytes < held.Get(i).value.liveBytes { return Some(ByteUnderflow); }
      var ok := TakeAndRelease(i);
      return if ok then None else Some(ReleaseFailed);
    }

    /** Shows the front buffer of a slot. */
    method ShowSlot(i: nat) returns (ok: bool)
      requires device.Valid() && Accounts(device.ledger, held) && i < 3 && held.Get(i).Some?
      modifies device`refusals, device`shown, device`modesets
      ensures ok == device.kernel.sets(old(device.modesets))
      ensures device.refusals == old(device.refusals) + if ok then 0 else 1
      ensures device.shown == old(device.shown) + if ok then held.Get(i).value.Front() else []
      ensures held.Get(i).value.first.framebuffer.Some?
    {
      SlotIsWhole(device.ledger, held, i);
      var a := held.Get(i).value;
      ok := device.SetCrtc(a.first.framebuffer.value, a.mode);
    }

    /** Maps the target, sets the CRTC, and drops the mapping of whichever scanout is not shown any more. */
    method AttemptMappedSwitch(from: nat, target: nat) returns (switched: bool)
      requires Resources() && mapped == {from} && target < 3 && target != from && held.Get(target).Some?
      modifies `mapped, device`maps, device`refusals, device`answers, device`unmaps, device`shown, device`modesets
      ensures switched ==>
        && held.Get(target).value.first.framebuffer.Some?
        && device.shown
           == old(device.shown) + [Modeset(held.Get(target).value.first.framebuffer.value, held.Get(target).value.mode)]
      ensures Resources() && mapped == {if switched then target else from}
      ensures switched <==> Showable(device.kernel, old(device.answers), old(device.modesets))
      ensures device.refusals == old(device.refusals) + if switched then 0 else 1
      ensures device.shown == old(device.shown) + if switched then held.Get(target).value.Front() else []
    {
      var ok := Map(target);
      if !ok { return false; }
      switched := ShowSlot(target);
      Unmap(if switched then from else target);
    }

    // ---------- the waiting scanout ----------

    /** Gives an unaccounted replacement back. */
    method DropReplacement(w: WaitingScanout, ghost before: Ledger) returns (ok: bool)
      requires device.Valid() && Accounts(before, held) && w.only.HeldIn(device.ledger)
      requires Gained(before, device.ledger, w.only.Buffers(), w.only.Framebuffers())
      modifies device`ledger
      ensures device.Valid() && Accounts(device.ledger, held) && (ok <==> w.only.TakenBack(device.kernel))
      ensures device.ledger.Clean() ==> before.Clean()
    {
      ok := DiscardWaiting(device, w, before);
      HeldUnchanged(before, device.ledger, held);
    }

    /** Gives the old waiting scanout back, if there was one, to make room for a new one that exists already. */
    method MakeRoom(w: WaitingScanout, ghost before: Ledger)
      requires device.Valid() && Accounts(before, held) && w.Complete() && w.only.HeldIn(device.ledger)
      requires Gained(before, device.ledger, w.only.Buffers(), w.only.Framebuffers())
      modifies device`ledger
      ensures device.Valid() && Accounts(device.ledger, held.(waiting := Some(w)))
      ensures device.ledger.Clean() ==> before.Clean()
    {
      GainedMeans(before, device.ledger, w.only.Buffers(), w.only.Framebuffers());
      if held.waiting.Some? {
        ghost var made := device.ledger;
        OldWaitingHeld(before, made, held, w);
        var ok := ReleaseWaiting(device, held.waiting.value);
        StillHeldAfter(made, device.ledger, w.only, held.WaitingBuffers(), held.WaitingFramebuffers(), ok);
        ReplaceWaiting(before, made, device.ledger, held, w, ok);
      } else {
        PutWaiting(before, device.ledger, held, w);
      }
    }

    /** Installs a replacement and accounts for it: first next to the old one, then in its place. */
    method InstallWaiting(w: WaitingScanout, ghost before: Ledger)
      requires device.Valid() && Accounts(before, held) && w.Complete() && w.only.HeldIn(device.ledger)
      requires Gained(before, device.ledger, w.only.Buffers(), w.only.Framebuffers())
      requires held.waiting != Some(w)
      requires currentLiveBytes == held.Bytes() && currentLiveBytes + w.liveBytes < TWO_TO_THE_64
      requires Recorded(past, held, observedPeakLiveBytes)
      requires device.maps - device.unmaps == 2 * |mapped| && (forall i :: i in mapped ==> i < 3 && held.Get(i).Some?)
      modifies `held, `currentLiveBytes, `observedPeakLiveBytes, `past, device`ledger
      ensures Resources() && held == old(held).(waiting := Some(w)) && past == old(past) + [held]
      ensures observedPeakLiveBytes == if old(currentLiveBytes) + w.liveBytes > old(observedPeakLiveBytes)
                                       then old(currentLiveBytes) + w.liveBytes else old(observedPeakLiveBytes)
      ensures device.ledger.Clean() ==> before.Clean()
    {
      MakeRoom(w, before);
      AccountReplacement(held.(waiting := Some(w)), w.liveBytes, held.WaitingBytes());
    }

    /** The first waiting scanout. */
    method CreateFirstWaiting(mode: DrmMode) returns (error: Option<ScanoutError>)
      requires Resources() && held.waiting.None?
      modifies `held, `currentLiveBytes, `observedPeakLiveBytes, `past
      modifies device`next, device`ledger, device`maps, device`refusals, device`answers, device`unmaps
      ensures Resources() && held == old(held).(waiting := held.waiting)
      ensures past == if error.None? then old(past) + [held] else old(past)
      ensures error == FirstWaitingError(device.kernel, mode, old(held.Bytes()), old(device.answers), old(device.next))
      ensures device.answers == GrantedWaiting(device.kernel, mode, old(device.answers)).answers
      ensures if error.None? then held.WaitsIn(mode) else held == old(held)
      ensures error.None? ==>
        Some(held.WaitingBytes()) == GrantedWaiting(device.kernel, mode, old(device.answers)).result
    {
      ghost var before := device.ledger;
      var made := CreateWaiting(device, mode);
      if made.None? {
        HeldUnchanged(before, device.ledger, held);
        return Some(CreateFailed);
      }
      if currentLiveBytes + made.value.liveBytes >= TWO_TO_THE_64 {
        var ok := DropReplacement(made.value, before);
        return Some(OverflowError(ok));
      }
      PutWaiting(before, device.ledger, held, made.value);
      Account(held.(waiting := made), currentLiveBytes + made.value.liveBytes);
      error := None;
    }

    /** A drawn replacement that is not accounted yet, or nothing. */
    method MakeReplacement(mode: DrmMode, drawn: bool)
      returns (made: Option<WaitingScanout>, error: Option<ScanoutError>, ghost before: Ledger)
      requires Resources()
      modifies device`next, device`ledger, device`maps, device`refusals, device`answers, device`unmaps
      ensures device.Valid() && device.maps - device.unmaps == old(device.maps - device.unmaps)
      ensures error == ReplacementError(device.kernel, mode, drawn, held.Bytes(), old(device.answers), old(device.next))
      ensures made.None? <==> error.Some?
      ensures made.None? ==> Accounts(device.ledger, held) && (device.ledger.Clean() ==> old(device.ledger.Clean()))
      ensures made.Some? ==>
        && device.refusals == old(device.refusals)
        && before == old(device.ledger) && made.value.mode == mode && made.value.Complete()
        && made.value.only.HeldIn(device.ledger)
        && Gained(before, device.ledger, made.value.only.Buffers(), made.value.only.Framebuffers())
        && currentLiveBytes + made.value.liveBytes < TWO_TO_THE_64
    {
      before, error := device.ledger, Some(CreateFailed);
      made := CreateWaiting(device, mode);
      if made.None? {
        HeldUnchanged(before, device.ledger, held);
        return;
      }
      var rendered := RenderWaiting(device, made.value, drawn);
      error := None;
      if !rendered || currentLiveBytes + made.value.liveBytes >= TWO_TO_THE_64 {
        var ok := DropReplacement(made.value, before);
        made, error := None, Some(if !rendered then RenderFailed else OverflowError(ok));
      }
    }

    /**
     Recreates the waiting scanout for another mode. The old one is kept until the new one is drawn, so for a moment
     both are accounted. Any error leaves the old one in place.
     */
    method EnsureWaitingMode(mode: DrmMode, drawn: bool) returns (recreated: bool, error: Option<ScanoutError>)
      requires Resources()
      modifies `held, `currentLiveBytes, `observedPeakLiveBytes, `past
      modifies device`next, device`ledger, device`maps, device`refusals, device`answers, device`unmaps
      ensures Resources()
      ensures device.ledger.Clean() ==> old(device.ledger.Clean())
      ensures held == old(held).(waiting := held.waiting)
      ensures recreated <==> !old(held).WaitsIn(mode) && error.None?
      ensures error == old(EnsureError(mode, drawn))
      ensures !recreated ==> held == old(held) && past == old(past)
      ensures error.None? ==> device.refusals == old(device.refusals) && held.WaitsIn(mode)
      ensures recreated ==> past == old(past) + [held] && Transient(old(held), held) == old(held.Bytes()) + held.WaitingBytes()
      ensures recreated ==>
        && held.waiting.Some? && held.waiting.value.mode == mode
        && observedPeakLiveBytes >= old(observedPeakLiveBytes)
        && observedPeakLiveBytes >= old(currentLiveBytes) + held.waiting.value.liveBytes
        && observedPeakLiveBytes in {old(observedPeakLiveBytes), old(currentLiveBytes) + held.waiting.value.liveBytes}
    {
      if held.WaitsIn(mode) { return false, None; }
      var made;
      ghost var before;
      made, error, before := MakeReplacement(mode, drawn);
      if made.None? { return false, error; }
      InstallWaiting(made.value, before);
      return true, None;
    }

    /** Why there cannot be a waiting scanout in the mode. */
    function EnsureError(mode: DrmMode, drawn: bool): Option<ScanoutError>
      reads `held, device`answers, device`next
    {
      if held.WaitsIn(mode) then None
      else ReplacementError(device.kernel, mode, drawn, held.Bytes(), device.answers, device.next)
    }

    /** Shows the waiting scanout there is. */
    method ShowWaiting(mode: DrmMode) returns (ok: bool)
      requires Resources() && held.WaitsIn(mode)
      modifies device`shown, device`refusals, device`modesets
      ensures device.shown == old(device.shown) + if ok then held.waiting.value.Front() else []
      ensures device.refusals == old(device.refusals) + if ok then 0 else 1
      ensures ok == device.kernel.sets(old(device.modesets)) && device.modesets == old(device.modesets) + 1
    {
      WaitingIsWhole(device.ledger, held);
      ok := device.SetCrtc(held.waiting.value.only.framebuffer.value, mode);
    }

    /** Shows the waiting scanout in the given mode. */
    method PresentWaiting(mode: DrmMode, drawn: bool) returns (error: Option<ScanoutError>)
      requires Resources()
      modifies `held, `currentLiveBytes, `observedPeakLiveBytes, `past
      modifies device`next, device`ledger, device`maps, device`refusals, device`answers, device`unmaps
      modifies device`shown, device`modesets
      ensures Resources()
      ensures device.ledger.Clean() ==> old(device.ledger.Clean())
      ensures held == old(held).(waiting := held.waiting) && old(past) <= past
      ensures error.None? ==> held.WaitsIn(mode)
      ensures device.shown == old(device.shown) + if error.None? then held.waiting.value.Front() else []
      ensures error ==
        if old(EnsureError(mode, drawn)).Some? then old(EnsureError(mode, drawn))
        else if device.kernel.sets(old(device.modesets)) then None else Some(ModesetFailed)
    {
      var recreated;
      recreated, error := EnsureWaitingMode(mode, drawn);
      if error.None? {
        var ok := ShowWaiting(mode);
        if !ok { error := Some(ModesetFailed); }
      }
    }

    // ---------- the end ----------

    /** Gives the waiting scanout back, if there is one. */
    method TakeWaitingScanout() returns (ok: bool)
      requires Resources()
      modifies `held, `currentLiveBytes, `observedPeakLiveBytes, `past, device`ledger
      ensures Resources() && held == old(held).(waiting := None)
      ensures past == if old(held).waiting.Some? then old(past) + [held] else old(past)
      ensures device.ledger.Clean() <==> ok && old(device.ledger.Clean())
    {
      ok := true;
      if held.waiting.Some? {
        WaitingIsWhole(device.ledger, held);
        ghost var before := device.ledger;
        ok := ReleaseWaiting(device, held.waiting.value);
        TakeWaiting(before, device.ledger, held, ok);
        Account(held.(waiting := None), currentLiveBytes - held.waiting.value.liveBytes);
      }
    }

    /** Empties a slot, if anything is in it. */
    method EmptySlot(i: nat) returns (ok: bool)
      requires Resources() && mapped == {} && i < 3
      modifies `held, `currentLiveBytes, `observedPeakLiveBytes, `past, device`ledger
      ensures Resources() && held == (if old(held.Get(i)).Some? then old(held).Without(i, ok) else old(held))
      ensures device.ledger.Clean() <==> ok && old(device.ledger.Clean())
      ensures old(past) <= past
    {
      ok := true;
      if held.Get(i).Some? { ok := TakeAndRelease(i); }
    }

    /** Gives everything back. Afterwards the kernel holds only what it refused to give up. */
    method ReleaseAll() returns (ok: bool)
      requires Resources() && mapped == {}
      modifies this, device`ledger
      ensures device.Valid() && device.maps == device.unmaps && currentLiveBytes == 0
      ensures device.ledger.buffers == {} && device.ledger.framebuffers == {}
      ensures device.ledger.Clean() <==> ok && old(device.ledger.Clean())
      ensures old(past) <= past && observedPeakLiveBytes == PeakOf(past)
    {
      var ok3 := TakeWaitingScanout();
      candidate := None;
      var ok2 := EmptySlot(2);
      var ok1 := EmptySlot(1);
      var ok0 := EmptySlot(0);
      NothingHeld(device.ledger, held);
      RecordedMeans(past, held, observedPeakLiveBytes);
      currentLiveBytes := 0;
      ok := ok3 && ok2 && ok1 && ok0;
    }
  }

  /** The old waiting scanout is still held when its replacement has been made. */
  lemma OldWaitingHeld(l: Ledger, m: Ledger, h: Held, w: WaitingScanout)
    requires Accounts(l, h) && h.waiting.Some? && w.Complete()
    requires Gained(l, m, w.only.Buffers(), w.only.Framebuffers())
    ensures h.waiting.value.only.HeldIn(m)
    ensures w.only.buffer.value.id !in h.WaitingBuffers() && w.only.framebuffer.value !in h.WaitingFramebuffers()
  {
    AccountsMean(l, h);
    GainedMeans(l, m, w.only.Buffers(), w.only.Framebuffers());
    assert BufferBalanced(l, h, w.only.buffer.value.id) && FramebufferBalanced(l, h, w.only.framebuffer.value);
  }
}

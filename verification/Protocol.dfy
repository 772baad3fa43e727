/** The checked, committed and enabled display state, and what a buffer upload must satisfy against it. */
module Protocol {
  import opened Wire
  import opened Modes

  const GUD_PIXEL_FORMAT_RGB565: u8 := 0x40
  const GUD_PIXEL_FORMAT_RGB888: u8 := 0x50
  const GUD_PIXEL_FORMAT_XRGB8888: u8 := 0x80

  function BytesPerPixel(format: u8): Option<nat> {
    if format == GUD_PIXEL_FORMAT_RGB565 then Some(2)
    else if format == GUD_PIXEL_FORMAT_RGB888 then Some(3)
    else if format == GUD_PIXEL_FORMAT_XRGB8888 then Some(4)
    else None
  }

  datatype DisplayStateSnapshot = DisplayStateSnapshot(mode: DisplayMode, format: u8, connector: u8, generation: u64)
  {
    function Key(): ModeKey { KeyOf(connector, mode) }
  }

  /** A decoded SET_STATE_CHECK payload, or one whose length is wrong. */
  datatype StateRequest = StateRequest(mode: DisplayMode, format: u8, connector: u8) | Malformed

  /** What the gadget advertises. */
  datatype Validation = Validation(connectorCount: u8, formats: seq<u8>, modes: seq<DisplayMode>)
  {
    predicate Accepts(request: StateRequest) {
      && request.StateRequest?
      && connectorCount > 0 && request.connector < connectorCount
      && request.format in formats
      && exists i :: 0 <= i < |modes| && SameUserTiming(modes[i], request.mode)
    }

    predicate Admits(snapshot: DisplayStateSnapshot) {
      Accepts(StateRequest(snapshot.mode, snapshot.format, snapshot.connector))
    }
  }

  /** A check is accepted exactly if the connector exists, the format is on offer and some advertised mode has the timing
      of the requested one; so every mode on offer is accepted. */
  lemma AcceptsExactly(v: Validation, state: StateRequest)
    requires state.StateRequest?
    ensures v.Accepts(state) <==>
      && state.connector < v.connectorCount && state.format in v.formats
      && exists i :: 0 <= i < |v.modes| && KeyOf(0, v.modes[i]) == KeyOf(0, state.mode)
    ensures state.mode in v.modes && state.connector < v.connectorCount && state.format in v.formats ==> v.Accepts(state)
  {
    forall i | 0 <= i < |v.modes|
      ensures SameUserTiming(v.modes[i], state.mode) <==> KeyOf(0, v.modes[i]) == KeyOf(0, state.mode)
    {}
  }

  // ---------- the protocol without the gadget ----------

  datatype Request =
    | Check(state: StateRequest)
    | Commit
    | Reset                           // Enable, Bind, Unbind, Suspend, Resume or Disable
    | Controller(enable: bool)
    | Display(enable: bool)
    | Unrelated

  datatype View = View(pending: Option<DisplayStateSnapshot>, committed: Option<DisplayStateSnapshot>,
                       controllerEnabled: bool, displayEnabled: bool, generation: u64)

  const UNCONFIGURED: View := View(None, None, false, false, 0)

  function RequestedKey(state: StateRequest): ModeKey
    requires state.StateRequest?
  {
    KeyOf(state.connector, state.mode)
  }

  function SnapshotOf(state: StateRequest, generation: u64): DisplayStateSnapshot
    requires state.StateRequest?
  {
    DisplayStateSnapshot(state.mode, state.format, state.connector, generation)
  }

  predicate Passes(v: Validation, w: View, state: StateRequest)
    ensures Passes(v, w, state) ==> state.StateRequest?
  {
    v.Accepts(state) && w.generation + 1 < TWO_TO_THE_64
  }

  function Next(v: Validation, w: View, r: Request): View {
    match r
    case Check(state) =>
      if Passes(v, w, state) then w.(pending := Some(SnapshotOf(state, w.generation + 1)), generation := w.generation + 1)
      else w.(pending := None)
    case Commit => if w.pending.Some? then w.(pending := None, committed := w.pending) else w
    case Reset => UNCONFIGURED.(generation := w.generation)
    case Controller(enable) => w.(controllerEnabled := enable, displayEnabled := enable && w.displayEnabled)
    case Display(enable) =>
      if enable && (!w.controllerEnabled || w.committed.None?) then w else w.(displayEnabled := enable)
    case Unrelated => w
  }

  /** The view after the first `n` requests. */
  function After(v: Validation, w: View, rs: seq<Request>, n: nat): View
    requires n <= |rs|
  {
    if n == 0 then w else Next(v, After(v, w, rs, n - 1), rs[n - 1])
  }

  /** The check at `i` made the snapshot, and it is still pending before request `n`. */
  ghost predicate Checked(v: Validation, rs: seq<Request>, i: nat, n: nat, s: DisplayStateSnapshot) {
    && i < n <= |rs| && rs[i].Check?
    && v.Accepts(rs[i].state) && s == SnapshotOf(rs[i].state, s.generation)
    && s.generation == After(v, UNCONFIGURED, rs, i + 1).generation == After(v, UNCONFIGURED, rs, i).generation + 1
    && forall j :: i < j < n ==> !rs[j].Check? && !rs[j].Commit? && !rs[j].Reset?
  }

  lemma NextPending(v: Validation, w: View, r: Request)
    requires Next(v, w, r).pending.Some?
    ensures !r.Commit? && !r.Reset?
    ensures if r.Check?
            then Passes(v, w, r.state) && Next(v, w, r).pending == Some(SnapshotOf(r.state, w.generation + 1))
                 && Next(v, w, r).generation == w.generation + 1
            else Next(v, w, r).pending == w.pending
  {}

  lemma NextCommitted(v: Validation, w: View, r: Request)
    requires Next(v, w, r).committed.Some?
    ensures !r.Reset? && Next(v, w, r).committed == if r.Commit? && w.pending.Some? then w.pending else w.committed
  {}

  /** What is pending comes from the latest check, with no commit or reset since. */
  lemma {:induction false} PendingIsLatestCheck(v: Validation, rs: seq<Request>, n: nat) returns (i: nat)
    requires n <= |rs| && After(v, UNCONFIGURED, rs, n).pending.Some?
    ensures Checked(v, rs, i, n, After(v, UNCONFIGURED, rs, n).pending.value)
  {
    NextPending(v, After(v, UNCONFIGURED, rs, n - 1), rs[n - 1]);
    if rs[n - 1].Check? { i := n - 1; } else { i := PendingIsLatestCheck(v, rs, n - 1); }
  }

  /** Nothing undid the commit at `c` before request `n`. */
  ghost predicate CommitStands(v: Validation, rs: seq<Request>, c: nat, n: nat)
    requires n <= |rs|
  {
    forall j :: c < j < n ==> rs[j] != Reset && (rs[j] == Commit ==> After(v, UNCONFIGURED, rs, j).pending.None?)
  }

  /** What is committed comes from a commit right after its check, and no reset and no other commit of a checked state
      came later. */
  lemma {:induction false} CommittedIsLatestCommit(v: Validation, rs: seq<Request>, n: nat) returns (i: nat, c: nat)
    requires n <= |rs| && After(v, UNCONFIGURED, rs, n).committed.Some?
    ensures c < n && rs[c] == Commit
    ensures Checked(v, rs, i, c, After(v, UNCONFIGURED, rs, n).committed.value)
    ensures CommitStands(v, rs, c, n)
  {
    var w, r := After(v, UNCONFIGURED, rs, n - 1), rs[n - 1];
    NextCommitted(v, w, r);
    if r.Commit? && w.pending.Some? {
      c := n - 1;
      i := PendingIsLatestCheck(v, rs, n - 1);
    } else {
      i, c := CommittedIsLatestCommit(v, rs, n - 1);
    }
  }

  /** Any mode on offer can be brought up from nothing: checked, committed and, with the controller on, displayed. */
  lemma AcceptedComesUp(v: Validation, state: StateRequest)
    requires v.Accepts(state)
    ensures var rs := [Check(state), Commit, Controller(true), Display(true)];
      After(v, UNCONFIGURED, rs, 4)
        == View(None, Some(DisplayStateSnapshot(state.mode, state.format, state.connector, 1)), true, true, 1)
  {
    var rs := [Check(state), Commit, Controller(true), Display(true)];
    var s := SnapshotOf(state, 1);
    assert After(v, UNCONFIGURED, rs, 1) == View(Some(s), None, false, false, 1);
    assert After(v, UNCONFIGURED, rs, 2) == View(None, Some(s), false, false, 1);
    assert After(v, UNCONFIGURED, rs, 3) == View(None, Some(s), true, false, 1);
  }

  /** The display is on only under the controller and with a committed state, both since the last reset. */
  lemma {:induction false} EnabledIsConfigured(v: Validation, rs: seq<Request>, n: nat) returns (d: nat)
    requires n <= |rs| && After(v, UNCONFIGURED, rs, n).displayEnabled
    ensures After(v, UNCONFIGURED, rs, n).controllerEnabled && After(v, UNCONFIGURED, rs, n).committed.Some?
    ensures d < n && rs[d] == Display(true)
    ensures forall j :: d < j < n ==> rs[j] !in {Reset, Controller(false), Display(false)}
  {
    d := n - 1;
    if After(v, UNCONFIGURED, rs, n - 1).displayEnabled { d := EnabledIsConfigured(v, rs, n - 1); }
  }

  // ---------- which commits miss their plans ----------

  /** Whether what is pending before request `n` lacks its plan: so it is exactly when its own check was refused one.
      `lacks` is for what was pending at first. */
  predicate Lacks(rs: seq<Request>, refused: seq<bool>, lacks: bool, n: nat)
    requires n <= |rs| && n <= |refused|
  {
    if n == 0 then lacks
    else if rs[n - 1].Check? then refused[n - 1]
    else Lacks(rs, refused, lacks, n - 1)
  }

  /** The commits among the first `n` requests that find something pending without its plan. */
  function Misses(v: Validation, w: View, rs: seq<Request>, refused: seq<bool>, lacks: bool, n: nat): nat
    requires n <= |rs| && n <= |refused|
  {
    if n == 0 then 0
    else
      Misses(v, w, rs, refused, lacks, n - 1)
      + if rs[n - 1].Commit? && After(v, w, rs, n - 1).pending.Some? && Lacks(rs, refused, lacks, n - 1) then 1 else 0
  }

  function Refusals(refused: seq<bool>): nat {
    if refused == [] then 0
    else Refusals(refused[..|refused| - 1]) + if refused[|refused| - 1] then 1 else 0
  }

  /** A commit misses its plan if and only if its own check, the latest one, was refused it. */
  lemma {:induction false} MissedByItsCheck(v: Validation, rs: seq<Request>, refused: seq<bool>, lacks: bool, n: nat)
    returns (i: nat)
    requires n <= |rs| && n <= |refused| && After(v, UNCONFIGURED, rs, n).pending.Some?
    ensures Checked(v, rs, i, n, After(v, UNCONFIGURED, rs, n).pending.value)
    ensures Lacks(rs, refused, lacks, n) <==> refused[i]
  {
    NextPending(v, After(v, UNCONFIGURED, rs, n - 1), rs[n - 1]);
    if rs[n - 1].Check? { i := n - 1; } else { i := MissedByItsCheck(v, rs, refused, lacks, n - 1); }
  }

  lemma {:induction false} RefusalsNext(refused: seq<bool>, n: nat)
    requires n < |refused|
    ensures Refusals(refused[..n + 1]) == Refusals(refused[..n]) + if refused[n] then 1 else 0
  {
    assert refused[..n + 1][..n] == refused[..n];
  }

  /** Each refused check makes one commit miss its plan at most; none does without one. */
  lemma {:induction false} MissesBounded(v: Validation, w: View, rs: seq<Request>, refused: seq<bool>, lacks: bool, n: nat)
    requires n <= |rs| && n <= |refused|
    ensures Misses(v, w, rs, refused, lacks, n)
            + (if After(v, w, rs, n).pending.Some? && Lacks(rs, refused, lacks, n) then 1 else 0)
         <= Refusals(refused[..n]) + if w.pending.Some? && lacks then 1 else 0
  {
    if n > 0 {
      MissesBounded(v, w, rs, refused, lacks, n - 1);
      RefusalsNext(refused, n - 1);
    }
  }

  class ProtocolState {
    const validation: Validation
    var pendingState: Option<DisplayStateSnapshot>
    var committedState: Option<DisplayStateSnapshot>
    var controllerEnabled: bool
    var displayEnabled: bool
    var nextGeneration: u64
    ghost var lastChecked: Option<DisplayStateSnapshot>    // the latest snapshot SET_STATE_CHECK accepted

    function Seen(): View
      reads `pendingState, `committedState, `controllerEnabled, `displayEnabled, `nextGeneration
    {
      View(pendingState, committedState, controllerEnabled, displayEnabled, nextGeneration)
    }

    ghost predicate Valid()
      reads this
    {
      && (forall s: DisplayStateSnapshot :: Sound(s))
      && (displayEnabled ==> controllerEnabled && committedState.Some?)
    }

    /** A pending state is the one of the latest check; whatever is pending or committed was admitted. */
    ghost predicate Sound(s: DisplayStateSnapshot)
      reads `pendingState, `committedState, `lastChecked, `nextGeneration
    {
      && (pendingState == Some(s) ==> lastChecked == Some(s) && s.generation == nextGeneration && validation.Admits(s))
      && (lastChecked == Some(s) ==> s.generation <= nextGeneration)
      && (committedState == Some(s) ==> s.generation <= nextGeneration && validation.Admits(s))
    }

    constructor (validation: Validation)
      ensures Valid() && this.validation == validation && Seen() == UNCONFIGURED
    {
      this.validation := validation;
      pendingState, committedState, lastChecked := None, None, None;
      controllerEnabled, displayEnabled, nextGeneration := false, false, 0;
    }

    /** SET_STATE_CHECK: a new pending state under a new generation, or none at all. */
    method CheckState(request: StateRequest) returns (snapshot: Option<DisplayStateSnapshot>)
      requires Valid()
      modifies `pendingState, `nextGeneration, `lastChecked
      ensures Valid() && Seen() == Next(validation, old(Seen()), Check(request))
      ensures snapshot == pendingState
      ensures if validation.Accepts(request) && old(nextGeneration) + 1 < 0x1_0000_0000_0000_0000 then
                && nextGeneration == old(nextGeneration) + 1
                && pendingState == Some(DisplayStateSnapshot(request.mode, request.format, request.connector, nextGeneration))
              else pendingState.None? && nextGeneration == old(nextGeneration)
    {
      if !validation.Accepts(request) || nextGeneration + 1 >= TWO_TO_THE_64 {
        pendingState := None;
        forall s: DisplayStateSnapshot ensures Sound(s) { assert old(Sound(s)); }
        return None;
      }
      nextGeneration := nextGeneration + 1;
      snapshot := Some(DisplayStateSnapshot(request.mode, request.format, request.connector, nextGeneration));
      pendingState, lastChecked := snapshot, snapshot;
      forall s: DisplayStateSnapshot ensures Sound(s) { assert old(Sound(s)); }
    }

    /** SET_STATE_COMMIT: what is committed is always the state of the latest successful check. */
    method CommitPendingState() returns (snapshot: Option<DisplayStateSnapshot>)
      requires Valid()
      modifies `pendingState, `committedState
      ensures Valid() && pendingState.None?
      ensures snapshot == old(pendingState) && Seen() == Next(validation, old(Seen()), Commit)
      ensures snapshot.Some? ==> snapshot == lastChecked && snapshot.value.generation == nextGeneration
      ensures committedState == if old(pendingState).Some? then old(pendingState) else old(committedState)
    {
      snapshot := pendingState;
      if snapshot.None? { return; }
      assert Sound(snapshot.value);
      pendingState := None;
      committedState := snapshot;
      forall s: DisplayStateSnapshot ensures Sound(s) { assert old(Sound(s)); }
    }

    /** What Enable, Bind, Unbind, Suspend, Resume and Disable do to the protocol state. */
    method ResetProtocolState() returns (invalidated: Option<u64>)
      requires Valid()
      modifies `pendingState, `committedState, `controllerEnabled, `displayEnabled
      ensures Valid() && Seen() == Next(validation, old(Seen()), Reset)
      ensures pendingState.None? && committedState.None? && !controllerEnabled && !displayEnabled
      ensures invalidated == if old(pendingState).Some? then Some(old(pendingState).value.generation) else None
    {
      invalidated := if pendingState.Some? then Some(pendingState.value.generation) else None;
      pendingState, committedState := None, None;
      controllerEnabled, displayEnabled := false, false;
      forall s: DisplayStateSnapshot ensures Sound(s) { assert old(Sound(s)); }
    }

    method UpdateControllerEnabled(enable: bool)
      requires Valid()
      modifies `controllerEnabled, `displayEnabled
      ensures Valid() && Seen() == Next(validation, old(Seen()), Controller(enable))
      ensures controllerEnabled == enable && displayEnabled == (enable && old(displayEnabled))
    {
      controllerEnabled := enable;
      if !enable { displayEnabled := false; }
      forall s: DisplayStateSnapshot ensures Sound(s) { assert old(Sound(s)); }
    }

    method UpdateDisplayEnabled(enable: bool) returns (ok: bool)
      requires Valid()
      modifies `displayEnabled
      ensures Valid() && Seen() == Next(validation, old(Seen()), Display(enable))
      ensures ok == (enable ==> controllerEnabled && committedState.Some?)
      ensures displayEnabled == if ok then enable else old(displayEnabled)
    {
      if enable && (!controllerEnabled || committedState.None?) { return false; }
      displayEnabled := enable;
      forall s: DisplayStateSnapshot ensures Sound(s) { assert old(Sound(s)); }
      return true;
    }

    predicate ValidateBufferRequest(info: SetBuffer)
      reads this
    {
      committedState.Some? && controllerEnabled && displayEnabled && BufferFits(info, committedState.value)
    }
  }

  /** The formats on the wire. */
  lemma BytesPerPixelExactly(format: u8)
    ensures BytesPerPixel(format) ==
      match format
      case 0x40 => Some(2)
      case 0x50 => Some(3)
      case 0x80 => Some(4)
      case _ => None
  {}

  /** The sums are those of 32-bit words, which may wrap. */
  predicate BufferFits(info: SetBuffer, state: DisplayStateSnapshot) {
    var bpp := BytesPerPixel(state.format);
    && bpp.Some?
    && info.width > 0 && info.height > 0
    && info.x <= state.mode.hdisplay && info.y <= state.mode.vdisplay
    && (info.x + info.width) % TWO_TO_THE_32 <= state.mode.hdisplay
    && (info.y + info.height) % TWO_TO_THE_32 <= state.mode.vdisplay
    && info.width * info.height * bpp.value < TWO_TO_THE_64
    && info.length == info.width * info.height * bpp.value
    && (if info.compression == 0 then info.compressedLength == 0 || info.compressedLength == info.length
        else info.compression == GUD_COMPRESSION_LZ4 && 0 < info.compressedLength <= info.length)
  }
}

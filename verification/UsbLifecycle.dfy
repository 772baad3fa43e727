/** Classification of USB lifecycle events against the proven-idle gate. */
module UsbLifecycle {
  datatype UsbSessionState = WaitingForHost | Active | Suspended | Contained

  /** Why the protocol state was invalidated (the lifecycle events and the two protocol errors). */
  datatype Reason = Enable | Bind | Suspend | Resume | Disconnected | Unbind | InvalidStateCheck | CommitWithoutPending

  datatype Input = ProtocolInvalidation | InBind | InEnable | InSuspend | InResume | InDisable | InUnbind

  datatype Verdict =
    | Continue(next: UsbSessionState)
    | PreserveOwned(next: UsbSessionState)
    | SessionBoundary(next: UsbSessionState)
    | Contain
    | FatalUnbind

  /** Every layer that could still own the bulk endpoint. */
  datatype ProvenIdleGate = ProvenIdleGate(
    aggregateIdle: bool,
    exactAioIdle: bool,
    acceptedOperationAbsent: bool,
    aioQueueEmpty: bool,
    pendingExactReceiveAbsent: bool,
    readyExactPayloadAbsent: bool,
    cleanupDrainAbsent: bool,
    diagnosticGuardInactive: bool,
    prearmedReadInactive: bool)
  {
    predicate IsProvenIdle() {
      && aggregateIdle
      && exactAioIdle
      && acceptedOperationAbsent
      && aioQueueEmpty
      && pendingExactReceiveAbsent
      && readyExactPayloadAbsent
      && cleanupDrainAbsent
      && diagnosticGuardInactive
      && prearmedReadInactive
    }
  }

  function InputOf(reason: Reason): Input {
    match reason
    case Bind => InBind
    case Enable => InEnable
    case Suspend => InSuspend
    case Resume => InResume
    case Disconnected => InDisable
    case Unbind => InUnbind
    case InvalidStateCheck | CommitWithoutPending => ProtocolInvalidation
  }

  /** The events that destroy the endpoint generation the host was using. */
  predicate EndsSession(reason: Reason) {
    reason in {Disconnected, Enable, Unbind, Bind}
  }

  function Classify(state: UsbSessionState, input: Input, provenIdle: bool): Verdict {
    if !provenIdle then
      match input
      case InSuspend => PreserveOwned(Suspended)
      case InResume => PreserveOwned(Active)
      case InDisable => SessionBoundary(WaitingForHost)
      case InEnable => SessionBoundary(Active)
      case InUnbind => SessionBoundary(WaitingForHost)
      case InBind => SessionBoundary(WaitingForHost)
      case ProtocolInvalidation => Contain
    else if state == Contained then
      match input
      case InDisable => SessionBoundary(WaitingForHost)
      case InEnable => SessionBoundary(Active)
      case InUnbind => SessionBoundary(WaitingForHost)
      case InSuspend => PreserveOwned(state)
      case InResume => PreserveOwned(state)
      case InBind => SessionBoundary(WaitingForHost)
      case ProtocolInvalidation => Contain
    else
      match input
      case ProtocolInvalidation => Continue(state)
      case InBind => Continue(WaitingForHost)
      case InEnable => Continue(Active)
      case InSuspend => Continue(Suspended)
      case InResume => Continue(Active)
      case InDisable => Continue(WaitingForHost)
      case InUnbind => FatalUnbind
  }

  /** The session state a lifecycle event leads to. */
  function NextState(reason: Reason): UsbSessionState {
    if reason in {Enable, Resume} then Active else if reason == Suspend then Suspended else WaitingForHost
  }

  /** The verdict on `reason`, given only whether the endpoint is owned. */
  predicate Fits(v: Verdict, reason: Reason, owned: bool) {
    && (v.SessionBoundary? <==> owned && EndsSession(reason))
    && (v.PreserveOwned? <==> owned && reason in {Suspend, Resume})
    && (v.Contain? <==> owned && reason in {InvalidStateCheck, CommitWithoutPending})
    && (v.FatalUnbind? <==> !owned && reason == Unbind)
    && (reason !in {InvalidStateCheck, CommitWithoutPending} && !v.FatalUnbind? ==> v.next == NextState(reason))
  }

  /** As long as a contained session is an owned one, nothing is released while something is owned, every session
      end under an owner becomes a boundary, and only an Unbind from proven idle is fatal. */
  lemma ClassifyFits(state: UsbSessionState, reason: Reason, owned: bool)
    requires state == Contained ==> owned
    ensures Fits(Classify(state, InputOf(reason), !owned), reason, owned)
    ensures Classify(state, InputOf(reason), !owned).Continue? ==>
      Classify(state, InputOf(reason), !owned).next != Contained
  {
    match reason
    case Enable | Bind | Disconnected | Unbind | Suspend | Resume =>
    case InvalidStateCheck | CommitWithoutPending =>
  }
}

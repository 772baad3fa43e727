/** The aggregate receive session and the SET_BUFFER admission guard. */
module Receiver {
  import opened Wire

  datatype State = Idle | Arming | InFlight | Processing | Poisoned | ShuttingDown | AbortedBySessionDestruction

  /** `BulkReceiveSession`. Only the event loop calls it, so each method is one atomic step. */
  class BulkReceiveSession {
    var state: State
    var epochId: u64

    constructor ()
      ensures state == Idle && epochId == 0
    {
      state, epochId := Idle, 0;
    }

    method BeginReceive() returns (ok: bool)
      modifies this`state
      ensures ok == old(state == Idle)
      ensures state == if ok then Arming else old(state)
    {
      ok := state == Idle;
      if ok { state := Arming; }
    }

    method SubmissionAccepted() returns (ok: bool)
      modifies this`state
      ensures ok == old(state == Arming)
      ensures state == if ok then InFlight else old(state)
    {
      ok := state == Arming;
      if ok { state := InFlight; }
    }

    /** `received` is whether the receive itself succeeded, `late` whether its deadline has passed. */
    method FinishReceive(received: bool, late: bool) returns (ok: bool)
      modifies this`state
      ensures ok == (received && !late && old(state == InFlight))
      ensures state == if ok then Processing else Poisoned
    {
      ok := received && !late && state == InFlight;
      state := if ok then Processing else Poisoned;
    }

    method FinishProcessing() returns (ok: bool)
      modifies this`state
      ensures ok == old(state == Processing)
      ensures state == if ok then Idle else old(state)
    {
      ok := state == Processing;
      if ok { state := Idle; }
    }

    method Poison()
      modifies this`state
      ensures state == Poisoned
    {
      state := Poisoned;
    }

    method CancelReceiveBeforeIo() returns (ok: bool)
      modifies this`state
      ensures ok == old(state == Arming)
      ensures state == if ok then Idle else old(state)
    {
      ok := state == Arming;
      if ok { state := Idle; }
    }

    method ObserveLifecycle() returns (ok: bool)
      modifies this`state
      ensures ok == (old(state) in {Idle, AbortedBySessionDestruction})
      ensures state == if old(state) in {Arming, InFlight, Processing} then Poisoned else old(state)
    {
      ok := state in {Idle, AbortedBySessionDestruction};
      if state in {Arming, InFlight, Processing} { state := Poisoned; }
    }

    method BeginShutdown() returns (ok: bool)
      modifies this`state
      ensures ok == (old(state) in {Idle, AbortedBySessionDestruction})
      ensures state == if ok then ShuttingDown
                       else if old(state) in {Arming, InFlight, Processing} then Poisoned else old(state)
    {
      ok := state in {Idle, AbortedBySessionDestruction};
      if ok {
        state := ShuttingDown;
      } else if state in {Arming, InFlight, Processing} {
        state := Poisoned;
      }
    }

    predicate CurrentlyOwned()
      reads this
    {
      state !in {Idle, AbortedBySessionDestruction}
    }

    method RetireAfterSessionDestruction() returns (ok: bool)
      modifies this`state
      ensures ok == (old(state) in {Arming, InFlight, Poisoned})
      ensures state == if ok then AbortedBySessionDestruction else old(state)
    {
      ok := state in {Arming, InFlight, Poisoned};
      if ok { state := AbortedBySessionDestruction; }
    }

    method BeginUsbEpoch(newEpoch: u64) returns (ok: bool)
      modifies this
      ensures ok == (old(state) in {Idle, AbortedBySessionDestruction} && newEpoch > old(epochId))
      ensures state == if ok then Idle else old(state)
      ensures epochId == if ok then newEpoch else old(epochId)
    {
      ok := state in {Idle, AbortedBySessionDestruction} && newEpoch > epochId;
      if ok { epochId, state := newEpoch, Idle; }
    }
  }

  /** `StatusOnSetDiagnosticGuard`; production configures a transaction limit of zero. */
  class AdmissionGuard {
    var transactionLimit: u8
    var startedTransactions: u8
    var active: bool

    constructor (limit: u8)
      ensures transactionLimit == limit && startedTransactions == 0 && !active
    {
      transactionLimit, startedTransactions, active := limit, 0, false;
    }

    predicate SetBufferPermitted()
      reads this
    {
      !active && (transactionLimit == 0 || startedTransactions < transactionLimit)
    }

    method BeginAfterAioAcceptance() returns (ok: bool)
      modifies this
      ensures ok == old(SetBufferPermitted())
      ensures transactionLimit == old(transactionLimit)
      ensures active == (ok || old(active))
      ensures startedTransactions == old(startedTransactions) + if ok && transactionLimit > 0 then 1 else 0
    {
      if active { return false; }
      if transactionLimit > 0 {
        if startedTransactions >= transactionLimit { return false; }
        startedTransactions := startedTransactions + 1;
      }
      active := true;
      return true;
    }

    method ReleaseAfterCleanup() returns (ok: bool)
      modifies this`active
      ensures ok == old(active) && !active
    {
      ok := active;
      active := false;
    }
  }
}

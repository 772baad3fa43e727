/** The bulk OUT endpoint: the exact-AIO transaction beside a native-AIO queue that holds one operation. */
module Endpoint {
  import opened Wire
  import Exact = ExactAio

  /** An operation the kernel accepted and whose completion has not been harvested. */
  datatype QueuedRead = QueuedRead(op: nat, size: nat)

  /** What happens when the loop submits one read. */
  datatype Submission = BufferCapacityMismatch | EndpointClosed | IoSubmitFailed | Submitted

  /** What the completion queue answers when it is polled: the file may be gone, and then nothing is taken from it. */
  datatype Poll = NothingYet | Unreadable | CompletedWithError | CompletedWith(bytes: nat)

  datatype Harvest = NotYet | Exact | Invalid

  class PixelDataEndpoint {
    const aio: Exact.ExactAioTransaction
    var queue: Option<QueuedRead>
    var nextOp: nat
    var payloadSeq: u64

    constructor ()
      ensures fresh(aio) && aio.View() == Exact.FRESH
      ensures queue == None && nextOp == 0 && payloadSeq == 0
    {
      aio := new Exact.ExactAioTransaction();
      queue, nextOp, payloadSeq := None, 0, 0;
    }

    /** Arms one read for `info` and submits it. A refused submission leaves nothing owned. */
    method ArmExactPayload(info: SetBuffer, generation: u64, s: Submission) returns (sequence: Option<u64>)
      requires queue == None
      modifies this`queue, this`nextOp, aio
      ensures sequence.Some? <==> Exact.BeginArm(old(aio.View()), generation, info).1 && s == Submitted
      ensures sequence.Some? ==>
        && aio.View() == Exact.Accept(Exact.BeginArm(old(aio.View()), generation, info).0, old(nextOp)).0
        && sequence.value == aio.sequence
        && queue == Some(QueuedRead(old(nextOp), WireLength(info)))
        && nextOp == old(nextOp) + 1
      ensures var size := if info.compression == 0 then info.length else info.compressedLength;
        && (sequence.Some? <==>
              && old(aio.state) == Exact.Idle && 0 < size <= 67_108_864 && old(aio.sequence) + 1 < 0x1_0000_0000_0000_0000
              && s == Submitted)
        && (sequence.Some? ==>
              && queue == Some(QueuedRead(old(nextOp), size)) && aio.expectedBytes == size && aio.state == Exact.InFlight
              && aio.operation == Some(old(nextOp)) && aio.activation == Some(generation) && aio.metadata == Some(info)
              && !aio.statusReady && aio.sequence == old(aio.sequence) + 1)
      ensures sequence.None? ==> aio.state == old(aio.state) && aio.operation == old(aio.operation)
      ensures sequence.None? ==>
        && queue == None && old(nextOp) <= nextOp
        && aio.View() == if Exact.BeginArm(old(aio.View()), generation, info).1
                         then Exact.Reject(Exact.BeginArm(old(aio.View()), generation, info).0).0
                         else old(aio.View())
    {
      var armed := aio.BeginArmWithMetadata(generation, info);
      if !armed { return None; }
      if s == BufferCapacityMismatch || s == EndpointClosed {
        var rejected := aio.SubmissionRejected();
        return None;
      }
      // The driver consumes an identifier even when the kernel refuses the request.
      var op := nextOp;
      nextOp := nextOp + 1;
      if s == IoSubmitFailed {
        var rejected := aio.SubmissionRejected();
        return None;
      }
      queue := Some(QueuedRead(op, WireLength(info)));
      var accepted := aio.SubmissionAccepted(op);
      assert accepted;
      return Some(aio.sequence);
    }

    /** Harvests the completion, if there is one, and validates it against the owned transaction. */
    method TryCompleteExactPayload(generation: u64, poll: Poll) returns (h: Harvest)
      modifies this`queue, this`payloadSeq, aio
      ensures h == NotYet <==>
        old(aio.state) !in {Exact.InFlight, Exact.Poisoned} || (!poll.Unreadable? && (old(queue).None? || poll.NothingYet?))
      ensures h == NotYet ==> queue == old(queue) && aio.View() == old(aio.View())
      ensures h != NotYet ==> queue == if poll.Unreadable? then old(queue) else None
      ensures h == Exact <==>
        && poll.CompletedWith? && old(queue).Some? && old(payloadSeq) + 1 < TWO_TO_THE_64
        && Exact.Complete(old(aio.View()), generation, old(queue).value.op, poll.bytes).1
      ensures h == Exact ==>
        && old(aio.state) == Exact.InFlight && aio.statusReady && aio.activation == Some(generation)
        && aio.operation == Some(old(queue).value.op) && poll.bytes == aio.expectedBytes
      ensures h == Exact ==> aio.state == Exact.Processing
      ensures h != NotYet ==> aio.View() == old(aio.View()).(state := aio.state)
    {
      if aio.state !in {Exact.InFlight, Exact.Poisoned} { return NotYet; }
      if poll.Unreadable? { return Invalid; }
      if queue.None? || poll.NothingYet? { return NotYet; }
      var op := queue.value.op;
      queue := None;
      if poll.CompletedWithError? { return Invalid; }
      var ok := aio.CompletionForOperation(generation, op, poll.bytes);
      if !ok { return Invalid; }
      if payloadSeq + 1 == TWO_TO_THE_64 { return Invalid; }
      payloadSeq := payloadSeq + 1;
      return Exact;
    }

    method RetireExactAio() returns (ok: bool)
      modifies aio
      ensures queue.Some? ==> !ok && aio.View() == old(aio.View())
      ensures queue.None? ==> (aio.View(), ok) == Exact.Retire(old(aio.View()))
    {
      if queue.Some? { return false; }
      ok := aio.RetireAfterSessionDestruction();
    }

    method BeginUsbEpoch(epochId: u64) returns (ok: bool)
      modifies aio
      ensures queue.Some? ==> !ok && aio.View() == old(aio.View())
      ensures queue.None? ==> (aio.View(), ok) == Exact.BeginEpoch(old(aio.View()), epochId)
    {
      if queue.Some? { return false; }
      ok := aio.BeginUsbEpoch(epochId);
    }
  }
}

/** The exact-AIO transaction: at most one bulk receive, identified from admission to delivery. */
module ExactAio {
  import opened Wire

  const MAX_EXACT_AIO_PAYLOAD_SIZE: nat := 64 * 1024 * 1024

  datatype State = Idle | Arming | InFlight | Processing | Poisoned | AbortedBySessionDestruction

  datatype Retired = Retired(epochId: nat, transactionSeq: nat)

  /** The fields of a transaction, as a value. */
  datatype Aio = Aio(
    state: State,
    epochId: u64,
    sequence: u64,
    expectedBytes: nat,
    operation: Option<nat>,
    activation: Option<u64>,
    metadata: Option<SetBuffer>,
    statusReady: bool,
    lastRetired: Option<Retired>)

  const FRESH: Aio := Aio(Idle, 0, 0, 0, None, None, None, false, None)

  /** A transaction that owns nothing any more, left in state `s`. */
  function Disowned(a: Aio, s: State): Aio {
    a.(state := s, expectedBytes := 0, operation := None, activation := None, metadata := None, statusReady := false)
  }

  // Each operation gives the new value and whether it succeeded.

  function BeginArm(a: Aio, generation: u64, info: SetBuffer): (Aio, bool) {
    if a.state != Idle || WireLength(info) == 0 || WireLength(info) > MAX_EXACT_AIO_PAYLOAD_SIZE
       || a.sequence + 1 == TWO_TO_THE_64
    then (a, false)
    else (a.(state := Arming, sequence := a.sequence + 1, expectedBytes := WireLength(info),
             activation := Some(generation), metadata := Some(info)), true)
  }

  function Accept(a: Aio, op: nat): (Aio, bool) {
    if a.state != Arming then (a, false)
    else (a.(state := InFlight, operation := Some(op), statusReady := false), true)
  }

  function Reject(a: Aio): (Aio, bool) {
    if a.state != Arming then (a, false)
    else (Disowned(a, Idle).(operation := a.operation), true)
  }

  datatype StatusVerdict = Unrelated | ForAcceptedBuffer | NotOk

  function NoteStatus(a: Aio, status: u8): (Aio, StatusVerdict) {
    if a.state != InFlight || a.statusReady then (a, Unrelated)
    else if status != GUD_STATUS_OK then (a, NotOk)
    else (a.(statusReady := true), ForAcceptedBuffer)
  }

  function Complete(a: Aio, generation: u64, op: nat, actualBytes: nat): (Aio, bool) {
    if && a.state == InFlight
       && a.operation == Some(op)
       && a.activation == Some(generation)
       && a.statusReady
       && actualBytes == a.expectedBytes
    then (a.(state := Processing), true)
    else (a.(state := Poisoned), false)
  }

  function Finish(a: Aio): (Aio, bool) {
    if a.state != Processing then (a, false) else (Disowned(a, Idle), true)
  }

  function Poison(a: Aio): Aio {
    a.(state := Poisoned)
  }

  function Retire(a: Aio): (Aio, bool) {
    if a.state !in {Arming, InFlight, Poisoned} then (a, false)
    else (Disowned(a, AbortedBySessionDestruction).(lastRetired := Some(Retired(a.epochId, a.sequence))), true)
  }

  function BeginEpoch(a: Aio, epochId: u64): (Aio, bool) {
    if a.state !in {Idle, AbortedBySessionDestruction} || epochId <= a.epochId then (a, false)
    else (a.(epochId := epochId, state := Idle), true)
  }

  class ExactAioTransaction {
    var state: State
    var epochId: u64
    var sequence: u64
    var expectedBytes: nat
    var operation: Option<nat>
    var activation: Option<u64>
    var metadata: Option<SetBuffer>
    var statusReady: bool
    var lastRetired: Option<Retired>

    ghost function View(): Aio
      reads this
    {
      Aio(state, epochId, sequence, expectedBytes, operation, activation, metadata, statusReady, lastRetired)
    }

    constructor ()
      ensures View() == FRESH
    {
      state, epochId, sequence, expectedBytes := Idle, 0, 0, 0;
      operation, activation, metadata := None, None, None;
      statusReady, lastRetired := false, None;
    }

    method BeginArmWithMetadata(generation: u64, info: SetBuffer) returns (ok: bool)
      modifies this
      ensures (View(), ok) == BeginArm(old(View()), generation, info)
      ensures var size := if info.compression == 0 then info.length else info.compressedLength;
        && (ok <==> old(state) == Idle && 0 < size <= 67_108_864 && old(sequence) + 1 < 0x1_0000_0000_0000_0000)
        && (ok ==> state == Arming && sequence == old(sequence) + 1 && expectedBytes == size)
      ensures ok ==> activation == Some(generation) && metadata == Some(info)
      ensures ok ==> operation == old(operation) && statusReady == old(statusReady)
      ensures !ok ==> View() == old(View())
      ensures epochId == old(epochId) && lastRetired == old(lastRetired)
    {
      var bytes := WireLength(info);
      if state != Idle || bytes == 0 || bytes > MAX_EXACT_AIO_PAYLOAD_SIZE { return false; }
      if sequence + 1 == TWO_TO_THE_64 { return false; }
      sequence := sequence + 1;
      expectedBytes := bytes;
      activation := Some(generation);
      state := Arming;
      metadata := Some(info);
      return true;
    }

    method SubmissionAccepted(op: nat) returns (ok: bool)
      modifies this
      ensures (View(), ok) == Accept(old(View()), op)
      ensures ok <==> old(state) == Arming
      ensures ok ==> View() == old(View()).(state := InFlight, operation := Some(op), statusReady := false)
      ensures !ok ==> View() == old(View())
    {
      if state != Arming { return false; }
      operation := Some(op);
      statusReady := false;
      state := InFlight;
      return true;
    }

    method SubmissionRejected() returns (ok: bool)
      modifies this
      ensures (View(), ok) == Reject(old(View()))
      ensures ok <==> old(state) == Arming
      ensures ok ==> state == Idle && expectedBytes == 0 && activation == None && metadata == None && !statusReady
      ensures !ok ==> View() == old(View())
      ensures operation == old(operation) && sequence == old(sequence) && epochId == old(epochId)
      ensures lastRetired == old(lastRetired)
    {
      if state != Arming { return false; }
      state := Idle;
      expectedBytes, activation, metadata, statusReady := 0, None, None, false;
      return true;
    }

    method StatusSent(status: u8) returns (verdict: StatusVerdict)
      modifies this
      ensures (View(), verdict) == NoteStatus(old(View()), status)
      ensures verdict == Unrelated <==> old(state) != InFlight || old(statusReady)
      ensures verdict == ForAcceptedBuffer <==> old(state) == InFlight && !old(statusReady) && status == 0
      ensures View() == if verdict == ForAcceptedBuffer then old(View()).(statusReady := true) else old(View())
    {
      if state != InFlight { return Unrelated; }
      if statusReady { return Unrelated; }
      if status != GUD_STATUS_OK { return NotOk; }
      statusReady := true;
      return ForAcceptedBuffer;
    }

    method CompletionForOperation(generation: u64, op: nat, actualBytes: nat) returns (ok: bool)
      modifies this
      ensures (View(), ok) == Complete(old(View()), generation, op, actualBytes)
      ensures ok <==>
        && old(state) == InFlight && operation == Some(op) && activation == Some(generation) && statusReady
        && actualBytes == expectedBytes
      ensures View() == old(View()).(state := if ok then Processing else Poisoned)
    {
      if state != InFlight { state := Poisoned; return false; }
      if operation != Some(op) { state := Poisoned; return false; }
      if activation != Some(generation) { state := Poisoned; return false; }
      if !statusReady { state := Poisoned; return false; }
      if actualBytes != expectedBytes { state := Poisoned; return false; }
      state := Processing;
      return true;
    }

    method FinishProcessing() returns (ok: bool)
      modifies this
      ensures (View(), ok) == Finish(old(View()))
      ensures ok <==> old(state) == Processing
      ensures ok ==> View() == Aio(Idle, old(epochId), old(sequence), 0, None, None, None, false, old(lastRetired))
      ensures !ok ==> View() == old(View())
    {
      if state != Processing { return false; }
      state := Idle;
      expectedBytes, operation, activation, metadata, statusReady := 0, None, None, None, false;
      return true;
    }

    method PoisonTransaction()
      modifies this
      ensures View() == Poison(old(View())) == old(View()).(state := Poisoned)
    {
      state := Poisoned;
    }

    method RetireAfterSessionDestruction() returns (ok: bool)
      modifies this
      ensures (View(), ok) == Retire(old(View()))
      ensures ok <==> old(state) == Arming || old(state) == InFlight || old(state) == Poisoned
      ensures ok ==>
        View() == Aio(AbortedBySessionDestruction, old(epochId), old(sequence), 0, None, None, None, false,
                      Some(Retired(old(epochId), old(sequence))))
      ensures !ok ==> View() == old(View())
    {
      if state !in {Arming, InFlight, Poisoned} { return false; }
      lastRetired := Some(Retired(epochId, sequence));
      state := AbortedBySessionDestruction;
      expectedBytes, operation, activation, metadata, statusReady := 0, None, None, None, false;
      return true;
    }

    method BeginUsbEpoch(newEpoch: u64) returns (ok: bool)
      modifies this
      ensures (View(), ok) == BeginEpoch(old(View()), newEpoch)
      ensures ok <==> (old(state) == Idle || old(state) == AbortedBySessionDestruction) && newEpoch > old(epochId)
      ensures View() == if ok then old(View()).(state := Idle, epochId := newEpoch) else old(View())
    {
      if state !in {Idle, AbortedBySessionDestruction} || newEpoch <= epochId { return false; }
      epochId := newEpoch;
      state := Idle;
      return true;
    }
  }

  // ---------- Runs: any caller, any order ----------

  /** One call on the transaction, or an Enable that moves the activation generation. */
  datatype Call =
    | CallArm(info: SetBuffer)
    | CallAccept(op: nat)
    | CallReject
    | CallStatus(status: u8)
    | CallComplete(op: nat, bytes: nat)
    | CallFinish
    | CallPoison
    | CallRetire
    | CallEpoch(epochId: u64)
    | CallEnable

  datatype World = World(aio: Aio, generation: u64)

  /** USB_ACTIVATION_GENERATION is advanced with a wrapping 64-bit add. */
  function NextGeneration(g: u64): u64 {
    if g + 1 == TWO_TO_THE_64 then 0 else g + 1
  }

  function Step(w: World, c: Call): World {
    match c
    case CallArm(info) => w.(aio := BeginArm(w.aio, w.generation, info).0)
    case CallAccept(op) => w.(aio := Accept(w.aio, op).0)
    case CallReject => w.(aio := Reject(w.aio).0)
    case CallStatus(status) => w.(aio := NoteStatus(w.aio, status).0)
    case CallComplete(op, bytes) => w.(aio := Complete(w.aio, w.generation, op, bytes).0)
    case CallFinish => w.(aio := Finish(w.aio).0)
    case CallPoison => w.(aio := Poison(w.aio))
    case CallRetire => w.(aio := Retire(w.aio).0)
    case CallEpoch(epochId) => w.(aio := BeginEpoch(w.aio, epochId).0)
    case CallEnable => w.(generation := NextGeneration(w.generation))
  }

  /** The world after the first `n` calls. */
  function At(calls: seq<Call>, n: nat): World
    requires n <= |calls|
  {
    if n == 0 then World(FRESH, 0) else Step(At(calls, n - 1), calls[n - 1])
  }

  /** Call `i` moves the transaction into state `s`. */
  predicate Enters(calls: seq<Call>, i: nat, s: State)
    requires i < |calls|
  {
    At(calls, i).aio.state != s && At(calls, i + 1).aio.state == s
  }

  /** The sequence number in force after the first `n` calls. */
  function SequenceAt(calls: seq<Call>, n: nat): u64
    requires n <= |calls|
  {
    At(calls, n).aio.sequence
  }

  function Enables(calls: seq<Call>, n: nat): nat
    requires n <= |calls|
  {
    if n == 0 then 0 else Enables(calls, n - 1) + if calls[n - 1].CallEnable? then 1 else 0
  }

  lemma {:induction false} GenerationCountsEnables(calls: seq<Call>, n: nat)
    requires n <= |calls|
    ensures At(calls, n).generation == Enables(calls, n) % TWO_TO_THE_64
  {
    if n > 0 { GenerationCountsEnables(calls, n - 1); }
  }

  lemma {:induction false} EnablesMonotone(calls: seq<Call>, m: nat, n: nat)
    requires m <= n <= |calls|
    ensures Enables(calls, m) <= Enables(calls, n)
    ensures Enables(calls, m) == Enables(calls, n) ==> forall k :: m <= k < n ==> !calls[k].CallEnable?
    decreases n
  {
    if m < n { EnablesMonotone(calls, m, n - 1); }
  }

  lemma {:induction false} SequenceMonotone(calls: seq<Call>, m: nat, n: nat)
    requires m <= n <= |calls|
    ensures SequenceAt(calls, m) <= SequenceAt(calls, n)
    decreases n
  {
    if m < n { SequenceMonotone(calls, m, n - 1); }
  }

  /** The transaction owned after `n` calls was armed by call `a`. */
  predicate ArmedBy(calls: seq<Call>, n: nat, a: nat)
    requires n <= |calls|
  {
    var t := At(calls, n).aio;
    && a < n && calls[a].CallArm? && Enters(calls, a, Arming)
    && SequenceAt(calls, a + 1) == t.sequence
    && t.metadata == Some(calls[a].info) && t.expectedBytes == WireLength(calls[a].info) > 0
    && t.expectedBytes <= MAX_EXACT_AIO_PAYLOAD_SIZE
    && t.activation == Some(At(calls, a).generation)
  }

  /** The transaction owned after `n` calls was accepted by call `c`, after call `a`. */
  predicate AcceptedBy(calls: seq<Call>, n: nat, a: nat, c: nat)
    requires n <= |calls|
  {
    var t := At(calls, n).aio;
    && a < c < n && calls[c].CallAccept? && Enters(calls, c, InFlight)
    && SequenceAt(calls, c + 1) == t.sequence && t.operation == Some(calls[c].op)
  }

  /** Only an arm leads to Arming. */
  lemma StepToArming(w: World, c: Call)
    requires Step(w, c).aio.state == Arming
    ensures if w.aio.state == Arming then Step(w, c).aio == w.aio
            else w.aio.state == Idle && c.CallArm? && Step(w, c).aio == BeginArm(w.aio, w.generation, c.info).0
  {}

  /** Only an acceptance of an armed transaction leads to InFlight, and only an OK status changes anything then. */
  lemma StepToInFlight(w: World, c: Call)
    requires Step(w, c).aio.state == InFlight
    ensures if w.aio.state == InFlight
            then Step(w, c).aio == w.aio.(statusReady := w.aio.statusReady || c == CallStatus(GUD_STATUS_OK))
            else w.aio.state == Arming && c.CallAccept? && Step(w, c).aio == Accept(w.aio, c.op).0
  {}

  lemma {:induction false} ArmProvenance(calls: seq<Call>, n: nat) returns (a: nat)
    requires n <= |calls|
    requires At(calls, n).aio.state in {Arming, InFlight}
    ensures ArmedBy(calls, n, a)
  {
    var w, c := At(calls, n - 1), calls[n - 1];
    if At(calls, n).aio.state == Arming { StepToArming(w, c); } else { StepToInFlight(w, c); }
    if w.aio.state in {Arming, InFlight} { a := ArmProvenance(calls, n - 1); } else { a := n - 1; }
  }

  lemma {:induction false} AcceptProvenance(calls: seq<Call>, n: nat) returns (a: nat, c: nat)
    requires n <= |calls|
    requires At(calls, n).aio.state == InFlight
    ensures ArmedBy(calls, n, a) && AcceptedBy(calls, n, a, c)
  {
    StepToInFlight(At(calls, n - 1), calls[n - 1]);
    if At(calls, n - 1).aio.state == InFlight {
      a, c := AcceptProvenance(calls, n - 1);
    } else {
      a := ArmProvenance(calls, n - 1);
      c := n - 1;
    }
  }

  /** The OK status that a transaction in flight saw. */
  lemma {:induction false} StatusSeen(calls: seq<Call>, n: nat, c: nat) returns (q: nat)
    requires c < n <= |calls| && At(calls, n).aio.state == InFlight && At(calls, n).aio.statusReady
    requires calls[c].CallAccept? && Enters(calls, c, InFlight) && SequenceAt(calls, c + 1) == SequenceAt(calls, n)
    ensures c < q < n && calls[q] == CallStatus(GUD_STATUS_OK) && At(calls, q).aio.state == InFlight
  {
    StepToInFlight(At(calls, n - 1), calls[n - 1]);
    q := n - 1;
    if At(calls, n - 1).aio.statusReady { q := StatusSeen(calls, n - 1, c); }
  }

  lemma StatusProvenance(calls: seq<Call>, n: nat) returns (a: nat, c: nat, q: nat)
    requires n <= |calls|
    requires At(calls, n).aio.state == InFlight && At(calls, n).aio.statusReady
    ensures ArmedBy(calls, n, a) && AcceptedBy(calls, n, a, c)
    ensures c < q < n && calls[q] == CallStatus(GUD_STATUS_OK) && At(calls, q).aio.state == InFlight
  {
    a, c := AcceptProvenance(calls, n);
    q := StatusSeen(calls, n, c);
  }

  /** Equal residues mean that the difference is a multiple. */
  lemma ResidueOfDifference(m: nat, n: nat)
    requires m <= n
    ensures (n - m) % TWO_TO_THE_64 == 0 <==> m % TWO_TO_THE_64 == n % TWO_TO_THE_64
    ensures m % TWO_TO_THE_64 == n % TWO_TO_THE_64 && n - m < TWO_TO_THE_64 ==> m == n
  {
    var k, r := (n - m) / TWO_TO_THE_64, (n - m) % TWO_TO_THE_64;
    var i, s := m / TWO_TO_THE_64, m % TWO_TO_THE_64;
    assert n == (k + i) * TWO_TO_THE_64 + r + s;
    if r + s < TWO_TO_THE_64 { Divided(n, k + i, r + s); } else { Divided(n, k + i + 1, r + s - TWO_TO_THE_64); }
  }

  lemma Divided(n: nat, q: nat, r: nat)
    requires n == q * TWO_TO_THE_64 + r && r < TWO_TO_THE_64
    ensures n % TWO_TO_THE_64 == r
  {}

  /** Every entry to Processing is the completion of exactly the operation that was armed for one SET_BUFFER,
      of exactly the length it announced, after its OK status, and within one host activation unless the activation
      counter went all the way round. */
  lemma HarvestIsExact(calls: seq<Call>, i: nat) returns (a: nat, c: nat, q: nat)
    requires i < |calls|
    requires Enters(calls, i, Processing)
    ensures a < c < q < i
    ensures calls[a].CallArm? && Enters(calls, a, Arming) && At(calls, i).aio.metadata == Some(calls[a].info)
    ensures calls[c].CallAccept? && Enters(calls, c, InFlight)
    ensures calls[q] == CallStatus(0) && At(calls, q).aio.state == InFlight
    ensures calls[i].CallComplete? && calls[i].op == calls[c].op
    ensures var info := calls[a].info;
      0 < calls[i].bytes == (if info.compression == 0 then info.length else info.compressedLength) <= 67_108_864
    ensures SequenceAt(calls, a + 1) == SequenceAt(calls, c + 1) == SequenceAt(calls, i + 1)
    ensures Enables(calls, a) <= Enables(calls, i) && (Enables(calls, i) - Enables(calls, a)) % TWO_TO_THE_64 == 0
    ensures Enables(calls, i) - Enables(calls, a) < TWO_TO_THE_64 ==> forall k :: a <= k <= i ==> !calls[k].CallEnable?
  {
    a, c, q := StatusProvenance(calls, i);
    GenerationCountsEnables(calls, a);
    GenerationCountsEnables(calls, i);
    EnablesMonotone(calls, a, i);
    ResidueOfDifference(Enables(calls, a), Enables(calls, i));
  }

  /** The completion of the operation in flight, of the announced length and after its OK status, is accepted exactly if
      the number of Enables since the arm is a multiple of 2^64: any other number is noticed, a full turn is not. */
  lemma StaleExactlyUnlessFullTurn(calls: seq<Call>, i: nat, a: nat)
    requires i < |calls| && ArmedBy(calls, i, a)
    requires At(calls, i).aio.state == InFlight && At(calls, i).aio.statusReady && At(calls, i).aio.operation.Some?
    requires calls[i] == CallComplete(At(calls, i).aio.operation.value, At(calls, i).aio.expectedBytes)
    ensures Enables(calls, a) <= Enables(calls, i)
    ensures Enters(calls, i, Processing) <==> (Enables(calls, i) - Enables(calls, a)) % TWO_TO_THE_64 == 0
  {
    GenerationCountsEnables(calls, a);
    GenerationCountsEnables(calls, i);
    EnablesMonotone(calls, a, i);
    ResidueOfDifference(Enables(calls, a), Enables(calls, i));
  }

  /** An upload that is armed, accepted and acknowledged before the host is activated `n` times. */
  function Interrupted(info: SetBuffer, n: nat): seq<Call> {
    [CallArm(info), CallAccept(0), CallStatus(0)] + seq(n, _ => CallEnable)
  }

  lemma {:induction false} InterruptedAt(info: SetBuffer, n: nat, more: seq<Call>)
    requires 0 < WireLength(info) <= MAX_EXACT_AIO_PAYLOAD_SIZE
    ensures var calls := Interrupted(info, n) + more;
      var w := At(calls, n + 3);
      && w.generation == n % TWO_TO_THE_64
      && w.aio.state == InFlight && w.aio.operation == Some(0) && w.aio.activation == Some(0) && w.aio.statusReady
      && w.aio.expectedBytes == WireLength(info)
  {
    var calls := Interrupted(info, n) + more;
    if n == 0 {
      assert calls[0] == CallArm(info) && calls[1] == CallAccept(0) && calls[2] == CallStatus(0);
      assert At(calls, 0) == World(FRESH, 0);
      assert At(calls, 1) == Step(World(FRESH, 0), CallArm(info));
      assert At(calls, 2) == Step(At(calls, 1), CallAccept(0));
    } else {
      assert calls == Interrupted(info, n - 1) + ([CallEnable] + more);
      InterruptedAt(info, n - 1, [CallEnable] + more);
      assert calls[n + 2] == CallEnable;
    }
  }

  /** Such calls exist for every upload and every number of Enables: after a full turn of the counter the completion of the
      first activation is taken for one of the current activation. A completion of another size is never taken. */
  lemma FullTurnIsNotNoticed(info: SetBuffer, n: nat, bytes: nat)
    requires 0 < (if info.compression == 0 then info.length else info.compressedLength) <= 67_108_864
    ensures var calls := Interrupted(info, n) + [CallComplete(0, bytes)];
      Enters(calls, n + 3, Processing) <==>
        && bytes == (if info.compression == 0 then info.length else info.compressedLength)
        && n % TWO_TO_THE_64 == 0
  {
    var calls := Interrupted(info, n) + [CallComplete(0, bytes)];
    InterruptedAt(info, n, [CallComplete(0, bytes)]);
    assert calls[n + 3] == CallComplete(0, bytes);
  }

  /** A transaction that is past arming needs a new arm, hence a new sequence number, to be accepted again. */
  lemma {:induction false} NewSequencePerTurn(calls: seq<Call>, m: nat, n: nat)
    requires m <= n <= |calls|
    requires At(calls, m).aio.state != Arming
    ensures
      || At(calls, n).aio.state == Arming
      || (At(calls, m).aio.state == Processing && At(calls, n).aio.state == InFlight)
      ==> SequenceAt(calls, m) < SequenceAt(calls, n)
    decreases n
  {
    if m < n {
      NewSequencePerTurn(calls, m, n - 1);
      SequenceMonotone(calls, m, n - 1);
    }
  }

  /** Entering one of these states again takes another arm. */
  lemma SequenceOfReentry(calls: seq<Call>, i: nat, j: nat, s: State)
    requires i < j < |calls| && s in {InFlight, Processing}
    requires Enters(calls, i, s) && Enters(calls, j, s)
    ensures SequenceAt(calls, i + 1) < SequenceAt(calls, j)
  {
    if s == InFlight { StepToInFlight(At(calls, j), calls[j]); }
    NewSequencePerTurn(calls, i + 1, j);
  }

  /** Sequence numbers of accepted operations strictly increase, and so do those of harvested ones:
      no sequence number is accepted twice or enters Processing twice. */
  lemma ExactlyOnce(calls: seq<Call>, i: nat, j: nat, s: State)
    requires i < j < |calls|
    requires s in {InFlight, Processing}
    requires Enters(calls, i, s) && Enters(calls, j, s)
    ensures SequenceAt(calls, i + 1) < SequenceAt(calls, j + 1)
  {
    SequenceOfReentry(calls, i, j, s);
    SequenceMonotone(calls, j, j + 1);
  }
}

/** The blocking bulk read loop, against a reader that may do anything. */
module BulkRead {
  import opened Arithmetic
  import opened Wire
  import opened Bytes

  const MAX_PACKET_SIZE: nat := 512

  /** What one read call does: it fails, or it returns a count, having filled the slice in any way it likes. */
  datatype Reply = ReadError | Completed(count: nat, slice: seq<u8>)

  datatype Completion = Exact | Short | InvalidKernelCompletion

  function Classify(result: nat, request: nat, remaining: nat): Completion {
    if result > request || result > remaining then InvalidKernelCompletion
    else if result < request then Short
    else Exact
  }

  /** Of a request that does not exceed the remaining bytes, exactly the full count is exact. */
  lemma ClassifyExact(result: nat, request: nat, remaining: nat)
    requires request <= remaining
    ensures Classify(result, request, remaining) == Exact <==> result == request
    ensures Classify(result, request, remaining) == Short <==> result < request
  {}

  class Reader {
    const script: seq<Reply>
    var position: nat            // read calls so far

    constructor (script: seq<Reply>)
      ensures this.script == script && position == 0
    {
      this.script, position := script, 0;
    }

    /** A reader with nothing more to say fails. */
    method Read() returns (reply: Reply)
      modifies this
      ensures position == old(position) + 1 && reply == ReplyAt(script, old(position))
      ensures reply == if old(position) < |script| then script[old(position)] else ReadError
    {
      reply := ReplyAt(script, position);
      position := position + 1;
    }
  }

  function ReplyAt(script: seq<Reply>, i: nat): Reply {
    if i < |script| then script[i] else ReadError
  }

  /** The slice of the zeroed buffer after a read filled it. */
  function SliceAfter(reply: Reply, request: nat): (slice: seq<u8>)
    ensures |slice| == request
  {
    if reply.ReadError? then seq(request, _ => 0)
    else if |reply.slice| >= request then reply.slice[..request]
    else reply.slice + seq(request - |reply.slice|, _ => 0)
  }

  // ---------- the requests of a payload ----------

  /** Bytes asked for by the first `i` calls: `i * size`, up to the length. */
  function Requested(length: nat, size: nat, i: nat): (n: nat)
    ensures n <= length
  {
    if Start(0, size, i) < length then Start(0, size, i) else length
  }

  function Request(length: nat, size: nat, i: nat): nat {
    var remaining := length - Requested(length, size, i);
    if remaining < size then remaining else size
  }

  lemma RequestedNext(length: nat, size: nat, i: nat)
    ensures Requested(length, size, i) + Request(length, size, i) == Requested(length, size, i + 1)
  {}

  /** The number of calls is the length divided by the size, rounded up. */
  function Calls(length: nat, size: nat): nat
    requires size > 0
  {
    (length + size - 1) / size
  }

  lemma CallsCover(length: nat, size: nat, i: nat)
    requires size > 0 && length > 0
    ensures Requested(length, size, i) < length <==> i < Calls(length, size)
    ensures Requested(length, size, i) == length <==> i >= Calls(length, size)
    ensures Calls(length, size) > 0
  {
    var n := Calls(length, size);
    Quotient(length + size - 1, size);
    StartIsProduct(0, size, i);
    if i < n { Below(i, n, size); } else { Monotone(n, i, size); }
    QuotientAtLeast(length + size - 1, size, 1);
  }

  /** The last request is the remainder of the length, or a whole read if there is none. */
  lemma LastRequest(length: nat, size: nat)
    requires size > 0 && length > 0
    ensures Calls(length, size) > 0
    ensures var last := Request(length, size, Calls(length, size) - 1);
      0 < last <= size && length == (Calls(length, size) - 1) * size + last
  {
    var n := Calls(length, size);
    CallsCover(length, size, n);
    CallsCover(length, size, n - 1);
    RequestedNext(length, size, n - 1);
    StartIsProduct(0, size, n - 1);
  }

  /** A request is a whole read, or what is left of the length. */
  lemma RequestIsRest(length: nat, size: nat, i: nat)
    requires i * size < length
    ensures Request(length, size, i) == if length - i * size < size then length - i * size else size
  {
    StartIsProduct(0, size, i);
  }

  // ---------- the loop ----------

  predicate ExactAt(script: seq<Reply>, length: nat, size: nat, i: nat) {
    var reply := ReplyAt(script, i);
    reply.Completed? && reply.count == Request(length, size, i)
  }

  /** The slices of the first `n` replies. */
  function Received(script: seq<Reply>, length: nat, size: nat, n: nat): (bytes: seq<u8>)
    ensures |bytes| == Requested(length, size, n)
  {
    if n == 0 then []
    else
      RequestedNext(length, size, n - 1);
      Received(script, length, size, n - 1) + SliceAfter(ReplyAt(script, n - 1), Request(length, size, n - 1))
  }

  lemma AfterPrefix(a: seq<u8>, b: seq<u8>, c: seq<u8>, k: nat)
    requires c == a + b && k < |b|
    ensures a <= c && |a| + k < |c| && c[|a| + k] == b[k]
  {}

  /** Read `n` leaves the bytes before it alone, and its own come right behind them: what the reader gave, or zero where it
      gave less. */
  lemma ReceivedAt(script: seq<Reply>, length: nat, size: nat, n: nat, k: nat)
    requires k < Request(length, size, n) && ReplyAt(script, n).Completed?
    ensures Received(script, length, size, n) <= Received(script, length, size, n + 1)
    ensures Requested(length, size, n) + k < |Received(script, length, size, n + 1)|
    ensures Received(script, length, size, n + 1)[Requested(length, size, n) + k]
         == if k < |ReplyAt(script, n).slice| then ReplyAt(script, n).slice[k] else 0
  {
    ReceivedNext(script, length, size, n);
    AfterPrefix(Received(script, length, size, n), SliceAfter(ReplyAt(script, n), Request(length, size, n)),
                Received(script, length, size, n + 1), k);
    SliceHolds(ReplyAt(script, n), Request(length, size, n), k);
  }

  lemma SliceHolds(reply: Reply, request: nat, k: nat)
    requires reply.Completed? && k < request
    ensures SliceAfter(reply, request)[k] == if k < |reply.slice| then reply.slice[k] else 0
  {}

  datatype Stats = Stats(readCalls: nat, firstRequest: nat, lastRequest: nat)

  datatype Outcome = Ok(stats: Stats) | Refused | ReadFailed | NotExact(completion: Completion)

  /** Whether the read size and the length are acceptable at all. */
  predicate Acceptable(length: nat, size: nat) {
    size >= MAX_PACKET_SIZE && size % MAX_PACKET_SIZE == 0 && length > 0
  }

  /** Any payload that is not empty can be read with any positive multiple of 512 bytes a call. */
  lemma AcceptableExactly(length: nat, size: nat)
    ensures Acceptable(length, size) <==> length > 0 && size > 0 && size % 512 == 0
    ensures forall packets: nat :: size == 512 * packets && packets > 0 && length > 0 ==> Acceptable(length, size)
  {}

  /** What holds after a number of exact calls. */
  ghost predicate Progress(script: seq<Reply>, buf: seq<u8>, length: nat, size: nat, stats: Stats) {
    && |buf| == length
    && (forall i :: 0 <= i < stats.readCalls ==> ExactAt(script, length, size, i))
    && buf[..Requested(length, size, stats.readCalls)] == Received(script, length, size, stats.readCalls)
    && (stats.readCalls > 0 ==>
          && stats.firstRequest == Request(length, size, 0)
          && stats.lastRequest == Request(length, size, stats.readCalls - 1))
  }

  /** The loop ended at a reply that is not exact, the last one that was asked for. */
  ghost predicate StoppedAt(script: seq<Reply>, length: nat, size: nat, calls: nat, outcome: Outcome) {
    && calls > 0
    && (forall i :: 0 <= i < calls - 1 ==> ExactAt(script, length, size, i))
    && !ExactAt(script, length, size, calls - 1)
    && var reply := ReplyAt(script, calls - 1);
       if reply.ReadError? then outcome == ReadFailed
       else outcome == NotExact(if reply.count < Request(length, size, calls - 1) then Short else InvalidKernelCompletion)
  }

  lemma ProgressNext(script: seq<Reply>, was: seq<u8>, buf: seq<u8>, length: nat, size: nat, stats: Stats, next: Stats)
    requires Progress(script, was, length, size, stats) && ExactAt(script, length, size, stats.readCalls)
    requires next.readCalls == stats.readCalls + 1 && next.lastRequest == Request(length, size, stats.readCalls)
    requires next.firstRequest == if stats.readCalls == 0 then next.lastRequest else stats.firstRequest
    requires Requested(length, size, stats.readCalls) + Request(length, size, stats.readCalls) <= length
    requires buf == Splice(was, Requested(length, size, stats.readCalls),
                           SliceAfter(ReplyAt(script, stats.readCalls), Request(length, size, stats.readCalls)))
    ensures Progress(script, buf, length, size, next)
  {
    var n := stats.readCalls;
    RequestedNext(length, size, n);
    var slice := SliceAfter(ReplyAt(script, n), Request(length, size, n));
    SplicePrefix(was, Requested(length, size, n), slice);
    ReceivedNext(script, length, size, n);
  }

  lemma ReceivedNext(script: seq<Reply>, length: nat, size: nat, n: nat)
    ensures Received(script, length, size, n + 1)
         == Received(script, length, size, n) + SliceAfter(ReplyAt(script, n), Request(length, size, n))
  {
    RequestedNext(length, size, n);
  }

  /** One read call; None if it was exact. */
  method ReadOnce(reader: Reader, buf: array<u8>, length: nat, size: nat, stats: Stats, received: nat)
    returns (next: Stats, stop: Option<Outcome>)
    requires reader.position == stats.readCalls && received == Requested(length, size, stats.readCalls) < length
    requires Progress(reader.script, buf[..], length, size, stats)
    modifies reader, buf
    ensures reader.position == stats.readCalls + 1 == next.readCalls
    ensures stop.None? ==> Progress(reader.script, buf[..], length, size, next)
    ensures stop.Some? ==> StoppedAt(reader.script, length, size, reader.position, stop.value)
  {
    var remaining := length - received;
    var request := if remaining < size then remaining else size;
    next := Stats(stats.readCalls + 1, if stats.readCalls == 0 then request else stats.firstRequest, request);
    ghost var was := buf[..];
    var reply := reader.Read();
    if reply.ReadError? { return next, Some(ReadFailed); }
    Store(buf, received, SliceAfter(reply, request));
    ClassifyExact(reply.count, request, remaining);
    var completion := Classify(reply.count, request, remaining);
    if completion != Exact { return next, Some(NotExact(completion)); }
    ProgressNext(reader.script, was, buf[..], length, size, stats, next);
    stop := None;
  }

  /**
   Success means that every read was exact, the buffer is the concatenation of what was read, and nothing more was
   asked for. Otherwise the first reply that is not exact was the last one to be asked for.
   */
  method ReadFunctionfsPayload(reader: Reader, length: nat, size: nat) returns (outcome: Outcome, buf: array<u8>)
    requires reader.position == 0
    modifies reader
    ensures fresh(buf)
    ensures outcome == Refused <==> !Acceptable(length, size)
    ensures outcome == Refused ==> reader.position == 0
    ensures Acceptable(length, size) ==> buf.Length == length
    ensures outcome.Ok? <==>
      Acceptable(length, size) && forall i :: 0 <= i < Calls(length, size) ==> ExactAt(reader.script, length, size, i)
    ensures outcome.Ok? ==>
      && buf[..] == Received(reader.script, length, size, Calls(length, size))
      && reader.position == Calls(length, size) > 0
      && outcome.stats == Stats(Calls(length, size), Request(length, size, 0),
                                Request(length, size, Calls(length, size) - 1))
    ensures outcome.ReadFailed? || outcome.NotExact? ==>
      reader.position <= Calls(length, size) && StoppedAt(reader.script, length, size, reader.position, outcome)
  {
    if !Acceptable(length, size) {
      buf := new u8[0];
      return Refused, buf;
    }
    buf := new u8[length](_ => 0);
    var stats := Stats(0, 0, 0);
    var received := 0;
    while received < length
      invariant received == Requested(length, size, stats.readCalls) && reader.position == stats.readCalls
      invariant stats.readCalls <= Calls(length, size)
      invariant Progress(reader.script, buf[..], length, size, stats)
      decreases length - received
    {
      CallsCover(length, size, stats.readCalls);
      RequestedNext(length, size, stats.readCalls);
      var next, stop := ReadOnce(reader, buf, length, size, stats, received);
      if stop.Some? { return stop.value, buf; }
      stats, received := next, received + next.lastRequest;
    }
    CallsCover(length, size, stats.readCalls);
    assert buf[..length] == buf[..];
    outcome := Ok(stats);
  }
}

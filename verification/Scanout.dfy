/** Double-buffered scanout allocations and the single-buffered waiting scanout. */
module Scanout {
  import opened Wire
  import opened Modes
  import opened Backend

  datatype ScanoutBuffer = ScanoutBuffer(buffer: Option<Buffer>, framebuffer: Option<nat>, mappingLen: u64)
  {
    ghost function Buffers(): set<nat> { if buffer.Some? then {buffer.value.id} else {} }

    ghost function Framebuffers(): set<nat> { if framebuffer.Some? then {framebuffer.value} else {} }

    /** The kernel holds both handles, and the framebuffer is the one made on the buffer. */
    ghost predicate HeldIn(l: Ledger) {
      && Buffers() <= l.buffers && Framebuffers() <= l.framebuffers
      && (framebuffer.Some? ==> buffer.Some?)
      && (buffer.Some? ==>
            if framebuffer.Some?
            then buffer.value.id in l.framebufferOf && l.framebufferOf[buffer.value.id] == framebuffer.value
            else buffer.value.id !in l.framebufferOf)
    }

    /** Both attempts to give the handles back succeed. */
    predicate TakenBack(k: Kernel) {
      && (framebuffer.Some? ==> k.removes(framebuffer.value))
      && (buffer.Some? ==> k.destroys(buffer.value.id))
    }
  }

  const NO_BUFFER := ScanoutBuffer(None, None, 0)

  datatype ScanoutAllocation = ScanoutAllocation(
    mode: DrmMode, width: nat, height: nat, first: ScanoutBuffer, second: ScanoutBuffer, pitch: u32, liveBytes: u64)
  {
    ghost function Buffers(): set<nat> { second.Buffers() + first.Buffers() }

    ghost function Framebuffers(): set<nat> { second.Framebuffers() + first.Framebuffers() }

    ghost predicate HeldIn(l: Ledger) {
      && first.HeldIn(l) && second.HeldIn(l)
      && first.Buffers() !! second.Buffers() && first.Framebuffers() !! second.Framebuffers()
    }

    /** Both buffers exist with their framebuffers, and every byte of them is accounted. */
    predicate Complete() {
      && first.buffer.Some? && first.framebuffer.Some? && second.buffer.Some? && second.framebuffer.Some?
      && width == mode.timing.hdisplay && height == mode.timing.vdisplay && HasPixels(mode)
      && first.buffer.value.pitch == second.buffer.value.pitch == pitch
      && liveBytes == first.mappingLen + second.mappingLen
    }

    predicate TakenBack(k: Kernel) {
      first.TakenBack(k) && second.TakenBack(k)
    }

    /** What the kernel granted for it. */
    ghost function Measures(): Extent {
      Extent(pitch, first.mappingLen, second.mappingLen)
    }

    /** What set_crtc is called with to show the front buffer. */
    ghost function Front(): seq<Modeset> {
      if first.framebuffer.Some? then [Modeset(first.framebuffer.value, mode)] else []
    }
  }

  datatype WaitingScanout = WaitingScanout(mode: DrmMode, only: ScanoutBuffer, liveBytes: u64)
  {
    predicate Complete() {
      only.buffer.Some? && only.framebuffer.Some? && liveBytes == only.mappingLen
    }

    ghost function Front(): seq<Modeset> {
      if only.framebuffer.Some? then [Modeset(only.framebuffer.value, mode)] else []
    }
  }

  // ---------- what the kernel grants ----------

  /** What a request comes to, and the answers after it. */
  datatype Trial<T> = Trial(result: Option<T>, answers: Log)

  /** The pitch of both buffers, and the lengths of their mappings. */
  datatype Extent = Extent(pitch: u32, first: u64, second: u64)
  {
    function Bytes(): nat { first + second }
  }

  /** A buffer with its framebuffer: its pitch. */
  function MakeOne(k: Kernel, mode: DrmMode, log: Log): Trial<u32> {
    var pitch := k.creates(log);
    if pitch.None? then Trial(None, Then(log, Refused))
    else
      var made := Then(log, Made(mode.timing.hdisplay, mode.timing.vdisplay, pitch.value));
      if k.frames(made) then Trial(pitch, Then(made, Framed)) else Trial(None, Then(made, Refused))
  }

  /** Two of them. */
  function MakeTwo(k: Kernel, mode: DrmMode, log: Log): Trial<(u32, u32)> {
    var one := MakeOne(k, mode, log);
    if one.result.None? then Trial(None, one.answers)
    else
      var two := MakeOne(k, mode, one.answers);
      if two.result.None? then Trial(None, two.answers) else Trial(Some((one.result.value, two.result.value)), two.answers)
  }

  function MapOne(k: Kernel, log: Log): Trial<u64> {
    var length := k.maps(log);
    Trial(length, Then(log, if length.Some? then Mapped(length.value) else Refused))
  }

  /** The lengths of two mappings. */
  function MapTwo(k: Kernel, log: Log): Trial<(u64, u64)> {
    var one := MapOne(k, log);
    if one.result.None? then Trial(None, one.answers)
    else
      var two := MapOne(k, one.answers);
      if two.result.None? then Trial(None, two.answers) else Trial(Some((one.result.value, two.result.value)), two.answers)
  }

  /** Two buffers of one pitch that can be mapped and whose bytes can be counted. */
  function Measured(k: Kernel, pitches: (u32, u32), log: Log): Trial<Extent> {
    if pitches.0 != pitches.1 then Trial(None, log)
    else
      var lengths := MapTwo(k, log);
      if lengths.result.None? || lengths.result.value.0 + lengths.result.value.1 >= TWO_TO_THE_64
      then Trial(None, lengths.answers)
      else Trial(Some(Extent(pitches.0, lengths.result.value.0, lengths.result.value.1)), lengths.answers)
  }

  /** A whole allocation for a mode. */
  function Granted(k: Kernel, mode: DrmMode, log: Log): Trial<Extent> {
    if !HasPixels(mode) then Trial(None, log)
    else
      var pitches := MakeTwo(k, mode, log);
      if pitches.result.None? then Trial(None, pitches.answers) else Measured(k, pitches.result.value, pitches.answers)
  }

  /** A waiting scanout for a mode: the length of its mapping. */
  function GrantedWaiting(k: Kernel, mode: DrmMode, log: Log): Trial<u64> {
    if !HasPixels(mode) then Trial(None, log)
    else
      var pitch := MakeOne(k, mode, log);
      if pitch.result.None? then Trial(None, pitch.answers) else MapOne(k, pitch.answers)
  }

  /** The answers to making two buffers of these pitches with their framebuffers. */
  ghost function BothMade(before: Log, mode: DrmMode, p: u32, q: u32): Log {
    var w, h := mode.timing.hdisplay, mode.timing.vdisplay;
    Then(Then(Then(Then(before, Made(w, h, p)), Framed), Made(w, h, q)), Framed)
  }

  ghost function BothMapped(before: Log, l0: u64, l1: u64): Log {
    Then(Then(before, Mapped(l0)), Mapped(l1))
  }

  /** The later answers were given after the earlier ones. */
  ghost predicate Since(before: Log, after: Log) {
    before == after || (after.Then? && Since(before, after.earlier))
  }

  /** Answers since, the last of them a refusal. */
  ghost predicate RefusedSince(before: Log, after: Log) {
    after.Then? && after.last == Refused && Since(before, after.earlier)
  }

  /** Why there is no allocation: a refusal, two pitches, or too many bytes. */
  ghost predicate Hindered(mode: DrmMode, before: Log, after: Log) {
    || RefusedSince(before, after)
    || (exists p: u32, q: u32 :: after == BothMade(before, mode, p, q) && p != q)
    || (exists p: u32, l0: u64, l1: u64 ::
          after == BothMapped(BothMade(before, mode, p, p), l0, l1) && l0 + l1 >= TWO_TO_THE_64)
  }

  lemma MeasuredOrHindered(k: Kernel, mode: DrmMode, p: u32, q: u32, log: Log)
    ensures var t := Measured(k, (p, q), BothMade(log, mode, p, q));
      if t.result.Some? then
        && p == q == t.result.value.pitch && t.result.value.Bytes() < TWO_TO_THE_64
        && t.answers == BothMapped(BothMade(log, mode, p, p), t.result.value.first, t.result.value.second)
      else Hindered(mode, log, t.answers)
  {
    var made := BothMade(log, mode, p, q);
    assert Since(log, made) by {
      assert Since(log, made.earlier.earlier);
    }
    var one := MapOne(k, made);
    if p != q {
      assert Measured(k, (p, q), made).answers == BothMade(log, mode, p, q);
    } else if one.result.Some? {
      var two := MapOne(k, one.answers);
      assert Since(log, one.answers);
      if two.result.Some? {
        assert two.answers == BothMapped(BothMade(log, mode, p, p), one.result.value, two.result.value);
      }
    }
  }

  /** What is granted is what the kernel answered, in order, to the calls for one allocation; without one there is a reason. */
  lemma GrantedOrHindered(k: Kernel, mode: DrmMode, log: Log)
    ensures var t := Granted(k, mode, log);
      if t.result.Some? then
        && HasPixels(mode) && t.result.value.Bytes() < TWO_TO_THE_64
        && t.answers == BothMapped(BothMade(log, mode, t.result.value.pitch, t.result.value.pitch),
                                   t.result.value.first, t.result.value.second)
      else if HasPixels(mode) then Hindered(mode, log, t.answers)
      else t.answers == log
  {
    var one := MakeOne(k, mode, log);
    if one.result.None? {
      assert Since(log, one.answers.earlier);
    } else {
      var two := MakeOne(k, mode, one.answers);
      if two.result.Some? {
        assert two.answers == BothMade(log, mode, one.result.value, two.result.value);
        MeasuredOrHindered(k, mode, one.result.value, two.result.value, log);
      } else {
        assert Since(log, one.answers) && Since(log, two.answers.earlier);
      }
    }
  }

  predicate HasPixels(mode: DrmMode) {
    mode.timing.hdisplay > 0 && mode.timing.vdisplay > 0
  }

  datatype Aspect = Buffers | Framebuffers | Pairs | Failures

  /** The ledger grew by these handles, all of them new. */
  ghost predicate Gained(l: Ledger, m: Ledger, buffers: set<nat>, framebuffers: set<nat>) {
    forall aspect: Aspect :: Gains(aspect, l, m, buffers, framebuffers)
  }

  ghost predicate Gains(aspect: Aspect, l: Ledger, m: Ledger, buffers: set<nat>, framebuffers: set<nat>) {
    match aspect
    case Buffers => m.buffers == l.buffers + buffers && buffers !! l.buffers
    case Framebuffers => m.framebuffers == l.framebuffers + framebuffers && framebuffers !! l.framebuffers
    case Pairs => Paired(l, m)
    case Failures => m.failedBuffers == l.failedBuffers && m.failedFramebuffers == l.failedFramebuffers
  }

  lemma GainedMeans(l: Ledger, m: Ledger, buffers: set<nat>, framebuffers: set<nat>)
    requires Gained(l, m, buffers, framebuffers)
    ensures m.buffers == l.buffers + buffers && buffers !! l.buffers
    ensures m.framebuffers == l.framebuffers + framebuffers && framebuffers !! l.framebuffers
    ensures Paired(l, m) && m.failedBuffers == l.failedBuffers && m.failedFramebuffers == l.failedFramebuffers
  {
    assert Gains(Buffers, l, m, buffers, framebuffers) && Gains(Framebuffers, l, m, buffers, framebuffers);
    assert Gains(Pairs, l, m, buffers, framebuffers) && Gains(Failures, l, m, buffers, framebuffers);
  }

  /** Nothing more is held than before, though giving something back may have failed. */
  ghost predicate Unchanged(l: Ledger, m: Ledger) {
    && Paired(l, m) && m.buffers == l.buffers && m.framebuffers == l.framebuffers
    && l.failedBuffers <= m.failedBuffers && l.failedFramebuffers <= m.failedFramebuffers
  }

  /** The removal of these framebuffers was attempted; `ok` if every attempt succeeded. */
  ghost predicate FramebuffersGone(l: Ledger, m: Ledger, framebuffers: set<nat>, ok: bool) {
    forall aspect: Aspect :: Removes(aspect, l, m, framebuffers, ok)
  }

  ghost predicate Removes(aspect: Aspect, l: Ledger, m: Ledger, framebuffers: set<nat>, ok: bool) {
    match aspect
    case Buffers => m.buffers == l.buffers
    case Framebuffers => m.framebuffers == l.framebuffers - framebuffers && m.removed == l.removed + framebuffers
    case Pairs => m.framebufferOf == l.framebufferOf
    case Failures =>
      && m.failedBuffers == l.failedBuffers
      && l.failedFramebuffers <= m.failedFramebuffers <= l.failedFramebuffers + framebuffers
      && (if ok then m.failedFramebuffers == l.failedFramebuffers
          else exists f :: f in framebuffers && f in m.failedFramebuffers)
  }

  lemma FramebuffersGoneMeans(l: Ledger, m: Ledger, framebuffers: set<nat>, ok: bool)
    requires FramebuffersGone(l, m, framebuffers, ok)
    ensures m.buffers == l.buffers && m.failedBuffers == l.failedBuffers && m.framebufferOf == l.framebufferOf
    ensures m.framebuffers == l.framebuffers - framebuffers && m.removed == l.removed + framebuffers
    ensures l.failedFramebuffers <= m.failedFramebuffers <= l.failedFramebuffers + framebuffers
    ensures if ok then m.failedFramebuffers == l.failedFramebuffers
            else exists f :: f in framebuffers && f in m.failedFramebuffers
  {
    assert Removes(Buffers, l, m, framebuffers, ok) && Removes(Framebuffers, l, m, framebuffers, ok);
    assert Removes(Pairs, l, m, framebuffers, ok) && Removes(Failures, l, m, framebuffers, ok);
  }

  ghost predicate BuffersGone(l: Ledger, m: Ledger, buffers: set<nat>, ok: bool) {
    forall aspect: Aspect :: Destroys(aspect, l, m, buffers, ok)
  }

  ghost predicate Destroys(aspect: Aspect, l: Ledger, m: Ledger, buffers: set<nat>, ok: bool) {
    match aspect
    case Buffers => m.buffers == l.buffers - buffers
    case Framebuffers => m.framebuffers == l.framebuffers && m.removed == l.removed
    case Pairs => m.framebufferOf == l.framebufferOf
    case Failures =>
      && m.failedFramebuffers == l.failedFramebuffers
      && l.failedBuffers <= m.failedBuffers <= l.failedBuffers + buffers
      && (if ok then m.failedBuffers == l.failedBuffers else exists b :: b in buffers && b in m.failedBuffers)
  }

  lemma BuffersGoneMeans(l: Ledger, m: Ledger, buffers: set<nat>, ok: bool)
    requires BuffersGone(l, m, buffers, ok)
    ensures m.framebufferOf == l.framebufferOf && m.framebuffers == l.framebuffers && m.removed == l.removed
    ensures m.failedFramebuffers == l.failedFramebuffers && m.buffers == l.buffers - buffers
    ensures l.failedBuffers <= m.failedBuffers <= l.failedBuffers + buffers
    ensures if ok then m.failedBuffers == l.failedBuffers else exists b :: b in buffers && b in m.failedBuffers
  {
    assert Destroys(Buffers, l, m, buffers, ok) && Destroys(Framebuffers, l, m, buffers, ok);
    assert Destroys(Pairs, l, m, buffers, ok) && Destroys(Failures, l, m, buffers, ok);
  }

  /** These handles were given back, one attempt each; `ok` if every attempt succeeded. */
  ghost predicate GivenBack(l: Ledger, m: Ledger, buffers: set<nat>, framebuffers: set<nat>, ok: bool) {
    forall aspect: Aspect :: Gives(aspect, l, m, buffers, framebuffers, ok)
  }

  ghost predicate Gives(aspect: Aspect, l: Ledger, m: Ledger, buffers: set<nat>, framebuffers: set<nat>, ok: bool) {
    match aspect
    case Buffers => m.buffers == l.buffers - buffers
    case Framebuffers => m.framebuffers == l.framebuffers - framebuffers
    case Pairs => m.framebufferOf == l.framebufferOf
    case Failures =>
      && l.failedBuffers <= m.failedBuffers <= l.failedBuffers + buffers
      && l.failedFramebuffers <= m.failedFramebuffers <= l.failedFramebuffers + framebuffers
      && (if ok then m.failedBuffers == l.failedBuffers && m.failedFramebuffers == l.failedFramebuffers
          else Kept(m, buffers, framebuffers))
  }

  lemma GivenBackMeans(l: Ledger, m: Ledger, buffers: set<nat>, framebuffers: set<nat>, ok: bool)
    requires GivenBack(l, m, buffers, framebuffers, ok)
    ensures m.framebufferOf == l.framebufferOf
    ensures m.buffers == l.buffers - buffers && m.framebuffers == l.framebuffers - framebuffers
    ensures l.failedBuffers <= m.failedBuffers <= l.failedBuffers + buffers
    ensures l.failedFramebuffers <= m.failedFramebuffers <= l.failedFramebuffers + framebuffers
    ensures if ok then m.failedBuffers == l.failedBuffers && m.failedFramebuffers == l.failedFramebuffers
            else Kept(m, buffers, framebuffers)
  {
    assert Gives(Buffers, l, m, buffers, framebuffers, ok) && Gives(Framebuffers, l, m, buffers, framebuffers, ok);
    assert Gives(Pairs, l, m, buffers, framebuffers, ok) && Gives(Failures, l, m, buffers, framebuffers, ok);
  }

  /** The kernel refused to give some of these handles back. */
  ghost predicate Kept(l: Ledger, buffers: set<nat>, framebuffers: set<nat>) {
    (exists b :: b in buffers && b in l.failedBuffers) || (exists f :: f in framebuffers && f in l.failedFramebuffers)
  }

  /** No framebuffer moved to another buffer. */
  ghost predicate Paired(l: Ledger, m: Ledger) {
    forall b :: b in l.framebufferOf ==> b in m.framebufferOf && m.framebufferOf[b] == l.framebufferOf[b]
  }

  lemma GainedTwice(l: Ledger, m: Ledger, n: Ledger, b: set<nat>, f: set<nat>, b': set<nat>, f': set<nat>)
    requires Gained(l, m, b, f) && Gained(m, n, b', f')
    ensures Gained(l, n, b' + b, f' + f)
  {
    GainedMeans(l, m, b, f);
    GainedMeans(m, n, b', f');
  }

  lemma FramebuffersGoneTwice(l: Ledger, m: Ledger, n: Ledger, f: set<nat>, ok: bool, f': set<nat>, ok': bool)
    requires FramebuffersGone(l, m, f, ok) && FramebuffersGone(m, n, f', ok')
    ensures FramebuffersGone(l, n, f + f', ok && ok')
  {
    FramebuffersGoneMeans(l, m, f, ok);
    FramebuffersGoneMeans(m, n, f', ok');
  }

  lemma BuffersGoneTwice(l: Ledger, m: Ledger, n: Ledger, b: set<nat>, ok: bool, b': set<nat>, ok': bool)
    requires BuffersGone(l, m, b, ok) && BuffersGone(m, n, b', ok')
    ensures BuffersGone(l, n, b + b', ok && ok')
  {
    BuffersGoneMeans(l, m, b, ok);
    BuffersGoneMeans(m, n, b', ok');
  }

  lemma GainedAndGivenBack(l: Ledger, m: Ledger, n: Ledger, b: set<nat>, f: set<nat>, ok: bool)
    requires Gained(l, m, b, f) && GivenBack(m, n, b, f, ok)
    ensures Unchanged(l, n)
  {
    GainedMeans(l, m, b, f);
    GivenBackMeans(m, n, b, f, ok);
  }

  lemma GivenBackTogether(l: Ledger, m: Ledger, n: Ledger, b: set<nat>, f: set<nat>, removed: bool, destroyed: bool)
    requires FramebuffersGone(l, m, f, removed) && BuffersGone(m, n, b, destroyed)
    ensures GivenBack(l, n, b, f, removed && destroyed)
  {
    FramebuffersGoneMeans(l, m, f, removed);
    BuffersGoneMeans(m, n, b, destroyed);
  }

  /** What was held was not attempted before, so a failure is one of these handles. */
  lemma FailureShows(l: ValidLedger, m: Ledger, b: set<nat>, f: set<nat>, ok: bool)
    requires b <= l.buffers && f <= l.framebuffers && GivenBack(l, m, b, f, ok)
    ensures m.Clean() <==> ok && l.Clean()
    ensures ok <==> !Kept(m, b, f)
  {
    GivenBackMeans(l, m, b, f, ok);
  }

  // ---------- giving back ----------

  /** The framebuffer on the buffer, if there ever was one, was attempted. */
  ghost predicate Unframed(l: Ledger, b: ScanoutBuffer) {
    b.buffer.Some? && b.buffer.value.id in l.framebufferOf ==> l.framebufferOf[b.buffer.value.id] in l.removed
  }

  lemma OneFramebufferGone(l: ValidLedger, f: nat, ok: bool)
    requires f in l.framebuffers
    ensures FramebuffersGone(l, l.Removed(f, ok), {f}, ok)
  {
    assert ok || f in l.Removed(f, ok).failedFramebuffers;
  }

  lemma OneBufferGone(l: ValidLedger, b: nat, ok: bool)
    requires b in l.buffers
    ensures BuffersGone(l, l.Destroyed(b, ok), {b}, ok)
  {
    assert ok || b in l.Destroyed(b, ok).failedBuffers;
  }

  method RemoveIfAny(device: Device, b: ScanoutBuffer) returns (ok: bool)
    requires device.Valid() && b.Framebuffers() <= device.ledger.framebuffers
    modifies device`ledger
    ensures device.Valid() && FramebuffersGone(old(device.ledger), device.ledger, b.Framebuffers(), ok)
    ensures ok <==> (b.framebuffer.Some? ==> device.kernel.removes(b.framebuffer.value))
  {
    ok := true;
    if b.framebuffer.Some? {
      ok := device.RemoveFramebuffer(b.framebuffer.value);
      OneFramebufferGone(old(device.ledger), b.framebuffer.value, ok);
    }
  }

  method DestroyIfAny(device: Device, b: ScanoutBuffer) returns (ok: bool)
    requires device.Valid() && b.Buffers() <= device.ledger.buffers && Unframed(device.ledger, b)
    modifies device`ledger
    ensures device.Valid() && BuffersGone(old(device.ledger), device.ledger, b.Buffers(), ok)
    ensures ok <==> (b.buffer.Some? ==> device.kernel.destroys(b.buffer.value.id))
  {
    ok := true;
    if b.buffer.Some? {
      ok := device.DestroyBuffer(b.buffer.value);
      OneBufferGone(old(device.ledger), b.buffer.value.id, ok);
    }
  }

  method RemoveBoth(device: Device, a: ScanoutAllocation) returns (ok: bool)
    requires device.Valid() && a.HeldIn(device.ledger)
    modifies device`ledger
    ensures device.Valid() && FramebuffersGone(old(device.ledger), device.ledger, a.Framebuffers(), ok)
    ensures ok <==>
      && (a.second.framebuffer.Some? ==> device.kernel.removes(a.second.framebuffer.value))
      && (a.first.framebuffer.Some? ==> device.kernel.removes(a.first.framebuffer.value))
  {
    var ok1 := RemoveIfAny(device, a.second);
    ghost var between := device.ledger;
    FramebuffersGoneMeans(old(device.ledger), between, a.second.Framebuffers(), ok1);
    var ok0 := RemoveIfAny(device, a.first);
    FramebuffersGoneTwice(old(device.ledger), between, device.ledger, a.second.Framebuffers(), ok1, a.first.Framebuffers(), ok0);
    ok := ok1 && ok0;
  }

  method DestroyBoth(device: Device, a: ScanoutAllocation) returns (ok: bool)
    requires device.Valid() && a.Buffers() <= device.ledger.buffers && a.second.Buffers() !! a.first.Buffers()
    requires Unframed(device.ledger, a.second) && Unframed(device.ledger, a.first)
    modifies device`ledger
    ensures device.Valid() && BuffersGone(old(device.ledger), device.ledger, a.Buffers(), ok)
    ensures ok <==>
      && (a.second.buffer.Some? ==> device.kernel.destroys(a.second.buffer.value.id))
      && (a.first.buffer.Some? ==> device.kernel.destroys(a.first.buffer.value.id))
  {
    var ok1 := DestroyIfAny(device, a.second);
    ghost var between := device.ledger;
    BuffersGoneMeans(old(device.ledger), between, a.second.Buffers(), ok1);
    var ok0 := DestroyIfAny(device, a.first);
    BuffersGoneTwice(old(device.ledger), between, device.ledger, a.second.Buffers(), ok1, a.first.Buffers(), ok0);
    ok := ok1 && ok0;
  }

  /** Once its framebuffers were attempted, the buffers of an allocation may be destroyed. */
  lemma FramebuffersFirst(l: ValidLedger, m: Ledger, a: ScanoutAllocation, ok: bool)
    requires a.HeldIn(l) && FramebuffersGone(l, m, a.Framebuffers(), ok)
    ensures a.Buffers() <= m.buffers && Unframed(m, a.second) && Unframed(m, a.first)
  {
    FramebuffersGoneMeans(l, m, a.Framebuffers(), ok);
  }

  lemma WaitingFramebufferFirst(l: ValidLedger, m: Ledger, b: ScanoutBuffer, ok: bool)
    requires b.HeldIn(l) && FramebuffersGone(l, m, b.Framebuffers(), ok)
    ensures b.Buffers() <= m.buffers && Unframed(m, b)
  {
    FramebuffersGoneMeans(l, m, b.Framebuffers(), ok);
  }

  /** Gives every resource of an allocation back, the framebuffers first. An error does not stop the rest. */
  method Release(device: Device, a: ScanoutAllocation) returns (ok: bool)
    requires device.Valid() && a.HeldIn(device.ledger)
    modifies device`ledger
    ensures device.Valid() && GivenBack(old(device.ledger), device.ledger, a.Buffers(), a.Framebuffers(), ok)
    ensures device.ledger.Clean() <==> ok && old(device.ledger.Clean())
    ensures ok <==> !Kept(device.ledger, a.Buffers(), a.Framebuffers())
    ensures ok <==> a.TakenBack(device.kernel)
  {
    var removed := RemoveBoth(device, a);
    ghost var between := device.ledger;
    FramebuffersFirst(old(device.ledger), between, a, removed);
    var destroyed := DestroyBoth(device, a);
    ok := removed && destroyed;
    GivenBackTogether(old(device.ledger), between, device.ledger, a.Buffers(), a.Framebuffers(), removed, destroyed);
    FailureShows(old(device.ledger), device.ledger, a.Buffers(), a.Framebuffers(), ok);
  }

  method ReleaseWaiting(device: Device, w: WaitingScanout) returns (ok: bool)
    requires device.Valid() && w.only.HeldIn(device.ledger)
    modifies device`ledger
    ensures device.Valid() && GivenBack(old(device.ledger), device.ledger, w.only.Buffers(), w.only.Framebuffers(), ok)
    ensures device.ledger.Clean() <==> ok && old(device.ledger.Clean())
    ensures ok <==> w.only.TakenBack(device.kernel)
  {
    var removed := RemoveIfAny(device, w.only);
    ghost var between := device.ledger;
    WaitingFramebufferFirst(old(device.ledger), between, w.only, removed);
    var destroyed := DestroyIfAny(device, w.only);
    ok := removed && destroyed;
    GivenBackTogether(old(device.ledger), between, device.ledger, w.only.Buffers(), w.only.Framebuffers(), removed, destroyed);
    FailureShows(old(device.ledger), device.ledger, w.only.Buffers(), w.only.Framebuffers(), ok);
  }

  // ---------- making ----------

  lemma NothingGained(l: Ledger)
    ensures Gained(l, l, NO_BUFFER.Buffers(), NO_BUFFER.Framebuffers())
  {}

  lemma BufferGained(l: Ledger, b: ScanoutBuffer)
    requires l.Valid() && b.buffer.Some? && b.buffer.value.id == l.next && b.framebuffer.None?
    ensures Gained(l, l.Created(), b.Buffers(), b.Framebuffers()) && b.HeldIn(l.Created())
  {}

  lemma FramebufferGained(l: Ledger, b: ScanoutBuffer)
    requires l.Valid() && b.buffer.Some? && b.buffer.value.id == l.next && b.framebuffer == Some(l.next + 1)
    ensures var m := l.Created().Added(l.next); Gained(l, m, b.Buffers(), b.Framebuffers()) && b.HeldIn(m)
  {}

  /** The framebuffer of a buffer that was just created; without it the buffer alone is returned. */
  method AddTo(device: Device, bare: ScanoutBuffer, ghost before: Ledger) returns (made: ScanoutBuffer)
    requires device.Valid() && before.Valid() && device.ledger == before.Created()
    requires bare.buffer.Some? && bare.buffer.value.id == before.next && bare.framebuffer.None?
    modifies device`next, device`ledger, device`answers
    ensures device.answers == Then(old(device.answers), if made.framebuffer.Some? then Framed else Refused)
    ensures device.Valid() && made.HeldIn(device.ledger) && made.buffer == bare.buffer
    ensures made.framebuffer == if device.kernel.frames(old(device.answers)) then Some(before.next + 1) else None
    ensures Gained(before, device.ledger, made.Buffers(), made.Framebuffers())
    ensures device.ledger.framebufferOf.Keys == before.framebufferOf.Keys
            + if made.framebuffer.Some? then {before.next} else {}
  {
    var framebuffer := device.AddFramebuffer(bare.buffer.value);
    made := bare.(framebuffer := framebuffer);
    if framebuffer.Some? { FramebufferGained(before, made); } else { BufferGained(before, made); }
  }

  /** One dumb buffer with its framebuffer; what was made before an error is returned as well. */
  method CreateOne(device: Device, mode: DrmMode) returns (made: ScanoutBuffer, ok: bool)
    requires device.Valid()
    modifies device`next, device`ledger, device`answers
    ensures device.Valid() && made.HeldIn(device.ledger)
    ensures Gained(old(device.ledger), device.ledger, made.Buffers(), made.Framebuffers())
    ensures forall b :: b in device.ledger.framebufferOf && b !in old(device.ledger).framebufferOf ==> b in made.Buffers()
    ensures ok ==> made.buffer.Some? && made.buffer.value.id == old(device.next) && made.framebuffer == Some(old(device.next) + 1)
    ensures Trial(if ok then Some(made.buffer.value.pitch) else None, device.answers)
         == MakeOne(device.kernel, mode, old(device.answers))
  {
    made := NO_BUFFER;
    var buffer := device.CreateBuffer(mode.timing.hdisplay, mode.timing.vdisplay);
    if buffer.None? {
      NothingGained(device.ledger);
      return made, false;
    }
    made := AddTo(device, made.(buffer := buffer), old(device.ledger));
    ok := made.framebuffer.Some?;
  }

  /** Another buffer does not disturb one that is held. */
  lemma StillHeld(l: Ledger, m: Ledger, b: ScanoutBuffer, other: ScanoutBuffer)
    requires b.HeldIn(l) && Gained(l, m, other.Buffers(), other.Framebuffers())
    requires forall k :: k in m.framebufferOf && k !in l.framebufferOf ==> k in other.Buffers()
    ensures b.HeldIn(m) && b.Buffers() !! other.Buffers() && b.Framebuffers() !! other.Framebuffers()
  {
    GainedMeans(l, m, other.Buffers(), other.Framebuffers());
  }

  /** Both buffers of an allocation, as far as they could be made. */
  method CreateBoth(device: Device, mode: DrmMode) returns (a: ScanoutAllocation, ok: bool)
    requires device.Valid()
    modifies device`next, device`ledger, device`answers
    ensures device.Valid() && a.HeldIn(device.ledger)
    ensures a.mode == mode && a.width == mode.timing.hdisplay && a.height == mode.timing.vdisplay
    ensures Gained(old(device.ledger), device.ledger, a.Buffers(), a.Framebuffers())
    ensures ok ==>
      a.first.buffer.Some? && a.first.framebuffer.Some? && a.second.buffer.Some? && a.second.framebuffer.Some?
    ensures Trial(if ok then Some((a.first.buffer.value.pitch, a.second.buffer.value.pitch)) else None, device.answers)
         == MakeTwo(device.kernel, mode, old(device.answers))
  {
    a := ScanoutAllocation(mode, mode.timing.hdisplay, mode.timing.vdisplay, NO_BUFFER, NO_BUFFER, 0, 0);
    var first, second;
    first, ok := CreateOne(device, mode);
    a := a.(first := first);
    if !ok {
      assert a.Buffers() == first.Buffers() && a.Framebuffers() == first.Framebuffers();
      return;
    }
    ghost var between := device.ledger;
    second, ok := CreateOne(device, mode);
    a := a.(second := second);
    StillHeld(between, device.ledger, first, second);
    GainedTwice(old(device.ledger), between, device.ledger,
                first.Buffers(), first.Framebuffers(), second.Buffers(), second.Framebuffers());
  }

  /** Maps both buffers; a first mapping is dropped again when the second one fails. */
  method MapBoth(device: Device, first: Buffer, second: Buffer) returns (lengths: Option<(u64, u64)>)
    requires device.Valid() && first.id in device.ledger.buffers && second.id in device.ledger.buffers
    modifies device`maps, device`refusals, device`unmaps, device`answers
    ensures device.maps - device.unmaps == old(device.maps - device.unmaps) + if lengths.Some? then 2 else 0
    ensures device.refusals == old(device.refusals) + if lengths.Some? then 0 else 1
    ensures Trial(lengths, device.answers) == MapTwo(device.kernel, old(device.answers))
  {
    var l0 := device.MapBuffer(first);
    if l0.None? { return None; }
    var l1 := device.MapBuffer(second);
    if l1.None? {
      device.Unmap();
      return None;
    }
    return Some((l0.value, l1.value));
  }

  method UnmapBoth(device: Device)
    modifies device`unmaps
    ensures device.unmaps == old(device.unmaps) + 2
  {
    device.Unmap();
    device.Unmap();
  }

  /** The probe mapping: an allocation is complete when both buffers can be mapped and their bytes counted. */
  method Probe(device: Device, a: ScanoutAllocation) returns (probed: Option<ScanoutAllocation>)
    requires device.Valid() && a.HeldIn(device.ledger)
    requires a.first.buffer.Some? && a.first.framebuffer.Some? && a.second.buffer.Some? && a.second.framebuffer.Some?
    requires a.width == a.mode.timing.hdisplay && a.height == a.mode.timing.vdisplay && HasPixels(a.mode)
    modifies device`maps, device`refusals, device`unmaps, device`answers
    ensures device.maps - device.unmaps == old(device.maps - device.unmaps)
    ensures probed.Some? ==>
      var p := probed.value;
      && p.Complete() && p.mode == a.mode
      && p.first.buffer == a.first.buffer && p.first.framebuffer == a.first.framebuffer
      && p.second.buffer == a.second.buffer && p.second.framebuffer == a.second.framebuffer
    ensures Trial(if probed.Some? then Some(probed.value.Measures()) else None, device.answers)
         == Measured(device.kernel, (a.first.buffer.value.pitch, a.second.buffer.value.pitch), old(device.answers))
  {
    if a.first.buffer.value.pitch != a.second.buffer.value.pitch { return None; }
    var lengths := MapBoth(device, a.first.buffer.value, a.second.buffer.value);
    if lengths.None? { return None; }
    UnmapBoth(device);
    var (l0, l1) := lengths.value;
    if l0 + l1 >= TWO_TO_THE_64 { return None; }
    probed := Some(a.(pitch := a.first.buffer.value.pitch, liveBytes := l0 + l1,
                   first := a.first.(mappingLen := l0), second := a.second.(mappingLen := l1)));
  }

  /** Gives back what was made of an allocation that cannot be completed. */
  method Discard(device: Device, a: ScanoutAllocation, ghost before: Ledger) returns (ok: bool)
    requires device.Valid() && a.HeldIn(device.ledger) && Gained(before, device.ledger, a.Buffers(), a.Framebuffers())
    modifies device`ledger
    ensures device.Valid() && Unchanged(before, device.ledger) && (ok <==> a.TakenBack(device.kernel))
  {
    ghost var between := device.ledger;
    ok := Release(device, a);
    GainedAndGivenBack(before, between, device.ledger, a.Buffers(), a.Framebuffers(), ok);
  }

  method DiscardWaiting(device: Device, w: WaitingScanout, ghost before: Ledger) returns (ok: bool)
    requires device.Valid() && w.only.HeldIn(device.ledger)
    requires Gained(before, device.ledger, w.only.Buffers(), w.only.Framebuffers())
    modifies device`ledger
    ensures device.Valid() && Unchanged(before, device.ledger) && (ok <==> w.only.TakenBack(device.kernel))
  {
    ghost var between := device.ledger;
    ok := ReleaseWaiting(device, w);
    GainedAndGivenBack(before, between, device.ledger, w.only.Buffers(), w.only.Framebuffers(), ok);
  }

  /** A complete allocation, or nothing: after an error the parts are given back. Which it is the kernel decides. */
  method Create(device: Device, mode: DrmMode) returns (made: Option<ScanoutAllocation>)
    requires device.Valid()
    modifies device`next, device`ledger, device`answers, device`maps, device`refusals, device`unmaps
    ensures device.Valid() && device.maps - device.unmaps == old(device.maps - device.unmaps)
    ensures made.None? ==> Unchanged(old(device.ledger), device.ledger)
    ensures Trial(if made.Some? then Some(made.value.Measures()) else None, device.answers)
         == Granted(device.kernel, mode, old(device.answers))
    ensures made.Some? ==>
      && made.value.Complete() && made.value.HeldIn(device.ledger) && made.value.mode == mode
      && Gained(old(device.ledger), device.ledger, made.value.Buffers(), made.value.Framebuffers())
  {
    made := None;
    if !HasPixels(mode) { return; }
    var a, ok := CreateBoth(device, mode);
    if ok { made := Probe(device, a); }
    if made.Some? { return; }
    ok := Discard(device, a, old(device.ledger));
  }

  method CreateWaiting(device: Device, mode: DrmMode) returns (made: Option<WaitingScanout>)
    requires device.Valid()
    modifies device`next, device`ledger, device`answers, device`maps, device`refusals, device`unmaps
    ensures device.Valid() && device.maps - device.unmaps == old(device.maps - device.unmaps)
    ensures made.None? ==> Unchanged(old(device.ledger), device.ledger)
    ensures Trial(if made.Some? then Some(made.value.liveBytes) else None, device.answers)
         == GrantedWaiting(device.kernel, mode, old(device.answers))
    ensures made.Some? ==> device.refusals == old(device.refusals)
    ensures made.Some? ==>
      && made.value.Complete() && made.value.only.HeldIn(device.ledger) && made.value.mode == mode
      && made.value.only.buffer.value.id == old(device.next) && made.value.only.framebuffer == Some(old(device.next) + 1)
      && Gained(old(device.ledger), device.ledger, made.value.only.Buffers(), made.value.only.Framebuffers())
  {
    made := None;
    if !HasPixels(mode) { return; }
    var only, ok := CreateOne(device, mode);
    if ok {
      var length := device.MapBuffer(only.buffer.value);
      if length.Some? {
        device.Unmap();
        return Some(WaitingScanout(mode, only.(mappingLen := length.value), length.value));
      }
    }
    ok := DiscardWaiting(device, WaitingScanout(mode, only, 0), old(device.ledger));
  }

  /** Maps the waiting buffer for as long as it is drawn; `drawn` is whether the drawing succeeds. */
  method RenderWaiting(device: Device, w: WaitingScanout, drawn: bool) returns (ok: bool)
    requires device.Valid() && w.Complete() && w.only.HeldIn(device.ledger)
    modifies device`maps, device`refusals, device`unmaps, device`answers
    ensures device.maps - device.unmaps == old(device.maps - device.unmaps)
    ensures var t := MapOne(device.kernel, old(device.answers));
      device.answers == t.answers && (ok <==> drawn && t.result.Some?)
    ensures ok ==> device.refusals == old(device.refusals)
  {
    var length := device.MapBuffer(w.only.buffer.value);
    if length.None? { return false; }
    device.Unmap();
    return drawn;
  }
}

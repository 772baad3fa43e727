/**
 The DRM device as the scanout code sees it: any call may fail, for any reason; how the kernel answers is a parameter.
 The ledger records what the kernel holds. Handles are linear: the preconditions allow one attempt to remove a
 framebuffer or destroy a buffer, and a buffer only after the framebuffer on it.
 */
module Backend {
  import opened Wire
  import opened Modes

  datatype Buffer = Buffer(id: nat, pitch: u32)

  datatype Ledger = Ledger(
    next: nat,                       // handles from here on are unused
    buffers: set<nat>,               // held by the kernel, destruction not attempted
    framebuffers: set<nat>,          // held by the kernel, removal not attempted
    failedBuffers: set<nat>,         // still held, because the one attempt failed
    failedFramebuffers: set<nat>,
    destroyed: set<nat>,             // buffers whose destruction was attempted
    removed: set<nat>,               // framebuffers whose removal was attempted
    framebufferOf: map<nat, nat>,    // buffer to the framebuffer made on it
    framebufferAllocations: nat,
    framebufferRemoves: nat)
  {
    predicate Valid() {
      && (forall h :: h in buffers ==> h < next && h !in destroyed)
      && (forall h :: h in framebuffers ==> h < next && h !in removed)
      && failedBuffers <= destroyed && failedFramebuffers <= removed
      && (forall h :: h in destroyed ==> h < next)
      && (forall h :: h in removed ==> h < next)
      && (forall b :: b in framebufferOf ==> b < next && framebufferOf[b] < next)
      && framebufferAllocations == framebufferRemoves + |framebuffers| + |failedFramebuffers|
    }

    /** No attempt to give a resource back has failed. */
    ghost predicate Clean() {
      failedBuffers == {} && failedFramebuffers == {}
    }

    ghost function Created(): Ledger {
      this.(next := next + 1, buffers := buffers + {next})
    }

    ghost function Added(buffer: nat): Ledger {
      this.(next := next + 1, framebuffers := framebuffers + {next},
            framebufferOf := framebufferOf[buffer := next], framebufferAllocations := framebufferAllocations + 1)
    }

    ghost function Removed(framebuffer: nat, ok: bool): Ledger {
      this.(framebuffers := framebuffers - {framebuffer}, removed := removed + {framebuffer},
            failedFramebuffers := failedFramebuffers + if ok then {} else {framebuffer},
            framebufferRemoves := framebufferRemoves + if ok then 1 else 0)
    }

    ghost function Destroyed(buffer: nat, ok: bool): Ledger {
      this.(buffers := buffers - {buffer}, destroyed := destroyed + {buffer},
            failedBuffers := failedBuffers + if ok then {} else {buffer})
    }
  }

  type ValidLedger = l: Ledger | l.Valid() witness Ledger(0, {}, {}, {}, {}, {}, {}, map[], 0, 0)

  lemma CreatedIsValid(l: Ledger)
    requires l.Valid()
    ensures l.Created().Valid() && l.next !in l.buffers && l.next !in l.framebufferOf
  {}

  lemma AddedIsValid(l: Ledger, buffer: nat)
    requires l.Valid() && buffer in l.buffers && buffer !in l.framebufferOf
    ensures l.Added(buffer).Valid() && l.next !in l.framebuffers
  {}

  lemma RemovedIsValid(l: Ledger, framebuffer: nat, ok: bool)
    requires l.Valid() && framebuffer in l.framebuffers
    ensures l.Removed(framebuffer, ok).Valid() && framebuffer !in l.removed
  {
    var m := l.Removed(framebuffer, ok);
    assert framebuffer !in l.failedFramebuffers;
    assert |m.framebuffers| == |l.framebuffers| - 1;
  }

  lemma DestroyedIsValid(l: Ledger, buffer: nat, ok: bool)
    requires l.Valid() && buffer in l.buffers
    ensures l.Destroyed(buffer, ok).Valid() && buffer !in l.destroyed
  {}

  datatype Modeset = Modeset(framebuffer: nat, mode: DrmMode)

  /** What create_buffer, add_framebuffer and map_buffer answer. */
  datatype Answer = Made(width: nat, height: nat, pitch: u32) | Framed | Mapped(length: u64) | Refused

  /** The answers so far, the latest one outside. */
  datatype Log = Nothing | Then(earlier: Log, last: Answer)

  /**
   How the kernel answers. What it answers to a request for something new may depend on all its answers so far, so each
   request can succeed or fail on its own; a handle is given back at most once, so the outcome belongs to the handle;
   and the mode is set a first time, a second time and so on.
   */
  datatype Kernel = Kernel(
    creates: Log -> Option<u32>,     // the pitch of the new buffer
    frames: Log -> bool,
    maps: Log -> Option<u64>,        // the length of the new mapping
    removes: nat -> bool,            // framebuffers
    destroys: nat -> bool,           // buffers
    sets: nat -> bool)

  class Device {
    const kernel: Kernel
    var next: nat
    var maps: nat                  // the counters every owner of a mapping shares
    var unmaps: nat
    var answers: Log               // to every call that creates or maps something, in order
    var modesets: nat              // calls of set_crtc
    ghost var ledger: ValidLedger
    ghost var shown: seq<Modeset>  // what set_crtc was called with, whenever it succeeded
    ghost var refusals: nat        // calls of map_buffer and set_crtc that failed

    ghost predicate Valid()
      reads `next, `ledger
    {
      next == ledger.next
    }

    constructor (kernel: Kernel)
      ensures Valid() && ledger.Clean() && ledger.buffers == ledger.framebuffers == {} && maps == unmaps == 0
      ensures this.kernel == kernel && answers == Nothing && modesets == 0 && shown == []
    {
      this.kernel := kernel;
      next, maps, unmaps, answers, modesets, shown, refusals := 0, 0, 0, Nothing, 0, [], 0;
      ledger := Ledger(0, {}, {}, {}, {}, {}, {}, map[], 0, 0);
    }

    method CreateBuffer(width: nat, height: nat) returns (buffer: Option<Buffer>)
      requires Valid()
      modifies `next, `ledger, `answers
      ensures Valid()
      ensures var pitch := kernel.creates(old(answers));
        && answers == Then(old(answers), if pitch.Some? then Made(width, height, pitch.value) else Refused)
        && buffer == if pitch.Some? then Some(Buffer(old(next), pitch.value)) else None
      ensures buffer.None? ==> ledger == old(ledger)
      ensures buffer.Some? ==>
        && ledger == old(ledger).Created() && buffer.value.id == old(ledger).next
        && buffer.value.id !in old(ledger).buffers && buffer.value.id !in ledger.framebufferOf
    {
      var pitch := kernel.creates(answers);
      answers := Then(answers, if pitch.Some? then Made(width, height, pitch.value) else Refused);
      if pitch.None? { return None; }
      buffer := Some(Buffer(next, pitch.value));
      CreatedIsValid(ledger);
      ledger := ledger.Created();
      next := next + 1;
    }

    method AddFramebuffer(buffer: Buffer) returns (framebuffer: Option<nat>)
      requires Valid() && buffer.id in ledger.buffers && buffer.id !in ledger.framebufferOf
      modifies `next, `ledger, `answers
      ensures Valid() && (framebuffer.Some? <==> kernel.frames(old(answers)))
      ensures answers == Then(old(answers), if framebuffer.Some? then Framed else Refused)
      ensures framebuffer.None? ==> ledger == old(ledger)
      ensures framebuffer.Some? ==>
        && ledger == old(ledger).Added(buffer.id) && framebuffer.value == old(ledger).next
        && framebuffer.value !in old(ledger).framebuffers
    {
      var framed := kernel.frames(answers);
      answers := Then(answers, if framed then Framed else Refused);
      if !framed { return None; }
      framebuffer := Some(next);
      AddedIsValid(ledger, buffer.id);
      ledger := ledger.Added(buffer.id);
      next := next + 1;
    }

    /** The length of a new mapping. */
    method MapBuffer(buffer: Buffer) returns (length: Option<u64>)
      requires Valid() && buffer.id in ledger.buffers
      modifies `maps, `refusals, `answers
      ensures length == kernel.maps(old(answers))
      ensures answers == Then(old(answers), if length.Some? then Mapped(length.value) else Refused)
      ensures maps == old(maps) + if length.Some? then 1 else 0
      ensures refusals == old(refusals) + if length.Some? then 0 else 1
    {
      length := kernel.maps(answers);
      answers := Then(answers, if length.Some? then Mapped(length.value) else Refused);
      if length.Some? { maps := maps + 1; } else { refusals := refusals + 1; }
    }

    method Unmap()
      modifies `unmaps
      ensures unmaps == old(unmaps) + 1
    {
      unmaps := unmaps + 1;
    }

    /** The framebuffer was never attempted before, and never will be again. */
    method RemoveFramebuffer(framebuffer: nat) returns (ok: bool)
      requires Valid() && framebuffer in ledger.framebuffers
      modifies `ledger
      ensures Valid() && ledger == old(ledger).Removed(framebuffer, ok) && framebuffer !in old(ledger).removed
      ensures ok == kernel.removes(framebuffer)
    {
      ok := kernel.removes(framebuffer);
      RemovedIsValid(ledger, framebuffer, ok);
      ledger := ledger.Removed(framebuffer, ok);
    }

    /** Allowed only when the framebuffer on the buffer was attempted before. */
    method DestroyBuffer(buffer: Buffer) returns (ok: bool)
      requires Valid() && buffer.id in ledger.buffers
      requires buffer.id in ledger.framebufferOf ==> ledger.framebufferOf[buffer.id] in ledger.removed
      modifies `ledger
      ensures Valid() && ledger == old(ledger).Destroyed(buffer.id, ok) && buffer.id !in old(ledger).destroyed
      ensures ok == kernel.destroys(buffer.id)
    {
      ok := kernel.destroys(buffer.id);
      DestroyedIsValid(ledger, buffer.id, ok);
      ledger := ledger.Destroyed(buffer.id, ok);
    }

    method SetCrtc(framebuffer: nat, mode: DrmMode) returns (ok: bool)
      requires framebuffer in ledger.framebuffers
      modifies `shown, `refusals, `modesets
      ensures ok == kernel.sets(old(modesets)) && modesets == old(modesets) + 1
      ensures shown == old(shown) + if ok then [Modeset(framebuffer, mode)] else []
      ensures refusals == old(refusals) + if ok then 0 else 1
    {
      ok := kernel.sets(modesets);
      modesets := modesets + 1;
      if ok { shown := shown + [Modeset(framebuffer, mode)]; } else { refusals := refusals + 1; }
    }
  }
}

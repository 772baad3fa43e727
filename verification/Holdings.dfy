/** What the scanout manager holds, against what the kernel holds. */
module Holdings {
  import opened Wire
  import opened Modes
  import opened Backend
  import opened Scanout

  type Slot = Option<ScanoutAllocation>

  ghost function SlotBuffers(s: Slot): set<nat> { if s.Some? then s.value.Buffers() else {} }
  ghost function SlotFramebuffers(s: Slot): set<nat> { if s.Some? then s.value.Framebuffers() else {} }
  function SlotBytes(s: Slot): nat { if s.Some? then s.value.liveBytes else 0 }

  /** Everything that is held, in the three slots and as the waiting scanout; and, in order, the allocations of slots
      that the kernel refused to take back. */
  datatype Held = Held(s0: Slot, s1: Slot, s2: Slot, waiting: Option<WaitingScanout>, lost: seq<ScanoutAllocation>)
  {
    ghost function WaitingBuffers(): set<nat> { if waiting.Some? then waiting.value.only.Buffers() else {} }
    ghost function WaitingFramebuffers(): set<nat> { if waiting.Some? then waiting.value.only.Framebuffers() else {} }
    predicate WaitsIn(mode: DrmMode) { waiting.Some? && waiting.value.mode == mode }
    function WaitingBytes(): nat { if waiting.Some? then waiting.value.liveBytes else 0 }

    function Bytes(): nat { SlotBytes(s0) + SlotBytes(s1) + SlotBytes(s2) + WaitingBytes() }

    function Get(i: nat): Slot
      requires i < 3
    {
      if i == 0 then s0 else if i == 1 then s1 else s2
    }

    function With(i: nat, s: Slot): Held
      requires i < 3
    {
      if i == 0 then this.(s0 := s) else if i == 1 then this.(s1 := s) else this.(s2 := s)
    }

    /** The slot is emptied; `ok` if the kernel took everything back. */
    function Without(i: nat, ok: bool): Held
      requires i < 3
    {
      With(i, None).(lost := lost + if ok || Get(i).None? then [] else [Get(i).value])
    }
  }

  const NOTHING := Held(None, None, None, None, [])

  ghost function Count(handles: set<nat>, id: nat): nat { if id in handles then 1 else 0 }

  /** The buffer has one holder if the kernel holds it and nobody tried to destroy it, and none otherwise. */
  ghost predicate BufferBalanced(l: Ledger, h: Held, id: nat) {
    Count(l.buffers, id) == Count(SlotBuffers(h.s0), id) + Count(SlotBuffers(h.s1), id) + Count(SlotBuffers(h.s2), id)
                            + Count(h.WaitingBuffers(), id)
  }

  ghost predicate FramebufferBalanced(l: Ledger, h: Held, id: nat) {
    Count(l.framebuffers, id)
      == Count(SlotFramebuffers(h.s0), id) + Count(SlotFramebuffers(h.s1), id) + Count(SlotFramebuffers(h.s2), id)
         + Count(h.WaitingFramebuffers(), id)
  }

  ghost predicate SlotWhole(l: Ledger, h: Held, i: nat)
    requires i < 3
  {
    h.Get(i).Some? ==> h.Get(i).value.Complete() && h.Get(i).value.HeldIn(l)
  }

  ghost predicate WaitingWhole(l: Ledger, h: Held) {
    h.waiting.Some? ==> h.waiting.value.Complete() && h.waiting.value.only.HeldIn(l)
  }

  ghost predicate Whole(l: Ledger, h: Held) {
    && (forall i :: 0 <= i < 3 ==> SlotWhole(l, h, i))
    && WaitingWhole(l, h)
  }

  /** The kernel will not take everything of the slot back. */
  predicate Stuck(k: Kernel, s: Slot) {
    s.Some? && !s.value.TakenBack(k)
  }

  /** Whatever was lost stays with the kernel. */
  ghost predicate StillKept(l: Ledger, lost: seq<ScanoutAllocation>) {
    forall a :: a in lost ==> Kept(l, a.Buffers(), a.Framebuffers())
  }

  lemma KeptMeanwhile(l: Ledger, m: Ledger, lost: seq<ScanoutAllocation>)
    requires StillKept(l, lost) && l.failedBuffers <= m.failedBuffers && l.failedFramebuffers <= m.failedFramebuffers
    ensures StillKept(m, lost)
  {
    forall a | a in lost ensures Kept(m, a.Buffers(), a.Framebuffers()) {
      assert Kept(l, a.Buffers(), a.Framebuffers());
    }
  }

  /**
   Conservation: the kernel's unattempted buffers and framebuffers are exactly those of the slots and of the waiting
   scanout, no two of which share one. Whatever else the kernel holds is a failed attempt.
   */
  ghost predicate Accounts(l: Ledger, h: Held) {
    forall rule: AccountRule :: Observed(rule, l, h)
  }

  datatype AccountRule = BuffersBalance | FramebuffersBalance | HoldersWhole | LossesStand

  ghost predicate Observed(rule: AccountRule, l: Ledger, h: Held) {
    match rule
    case BuffersBalance => forall id: nat :: BufferBalanced(l, h, id)
    case FramebuffersBalance => forall id: nat :: FramebufferBalanced(l, h, id)
    case HoldersWhole => Whole(l, h)
    case LossesStand => StillKept(l, h.lost)
  }

  lemma AccountsMean(l: Ledger, h: Held)
    requires Accounts(l, h)
    ensures forall id: nat :: BufferBalanced(l, h, id)
    ensures forall id: nat :: FramebufferBalanced(l, h, id)
    ensures Whole(l, h) && StillKept(l, h.lost)
  {
    assert Observed(BuffersBalance, l, h) && Observed(FramebuffersBalance, l, h);
    assert Observed(HoldersWhole, l, h) && Observed(LossesStand, l, h);
  }

  lemma SlotIsWhole(l: Ledger, h: Held, i: nat)
    requires Accounts(l, h) && i < 3
    ensures SlotWhole(l, h, i)
  {
    AccountsMean(l, h);
  }

  lemma WaitingIsWhole(l: Ledger, h: Held)
    requires Accounts(l, h)
    ensures WaitingWhole(l, h)
  {
    AccountsMean(l, h);
  }

  lemma NothingHeld(l: Ledger, h: Held)
    requires Accounts(l, h) && h.s0 == h.s1 == h.s2 == None && h.waiting == None
    ensures l.buffers == {} && l.framebuffers == {}
  {
    AccountsMean(l, h);
    forall id: nat ensures id !in l.buffers { assert BufferBalanced(l, h, id); }
    forall id: nat ensures id !in l.framebuffers { assert FramebufferBalanced(l, h, id); }
  }

  lemma HeldUnchanged(l: Ledger, m: Ledger, h: Held)
    requires Accounts(l, h) && Unchanged(l, m)
    ensures Accounts(m, h)
  {
    AccountsMean(l, h);
    forall id: nat ensures BufferBalanced(m, h, id) { assert BufferBalanced(l, h, id); }
    forall id: nat ensures FramebufferBalanced(m, h, id) { assert FramebufferBalanced(l, h, id); }
    forall i | 0 <= i < 3 ensures SlotWhole(m, h, i) { assert SlotWhole(l, h, i); }
    KeptMeanwhile(l, m, h.lost);
  }

  // ---------- gaining ----------

  lemma WholeMeanwhile(l: Ledger, m: Ledger, h: Held, b: set<nat>, f: set<nat>)
    requires Whole(l, h) && Gained(l, m, b, f)
    ensures Whole(m, h)
  {
    GainedMeans(l, m, b, f);
    forall i | 0 <= i < 3 ensures SlotWhole(m, h, i) { assert SlotWhole(l, h, i); }
  }

  lemma PutSlot(l: Ledger, m: Ledger, h: Held, i: nat, a: ScanoutAllocation)
    requires i < 3 && Accounts(l, h) && h.Get(i).None?
    requires Gained(l, m, a.Buffers(), a.Framebuffers()) && a.Complete() && a.HeldIn(m)
    ensures Accounts(m, h.With(i, Some(a))) && h.With(i, Some(a)).Bytes() == h.Bytes() + a.liveBytes
  {
    AccountsMean(l, h);
    GainedMeans(l, m, a.Buffers(), a.Framebuffers());
    var k := h.With(i, Some(a));
    forall id: nat ensures BufferBalanced(m, k, id) { assert BufferBalanced(l, h, id); }
    forall id: nat ensures FramebufferBalanced(m, k, id) { assert FramebufferBalanced(l, h, id); }
    WholeMeanwhile(l, m, h, a.Buffers(), a.Framebuffers());
    KeptMeanwhile(l, m, h.lost);
    forall j | 0 <= j < 3 ensures SlotWhole(m, k, j) { assert SlotWhole(m, h, j); }
  }

  lemma PutWaiting(l: Ledger, m: Ledger, h: Held, w: WaitingScanout)
    requires Accounts(l, h) && h.waiting.None?
    requires Gained(l, m, w.only.Buffers(), w.only.Framebuffers()) && w.Complete() && w.only.HeldIn(m)
    ensures Accounts(m, h.(waiting := Some(w)))
  {
    AccountsMean(l, h);
    GainedMeans(l, m, w.only.Buffers(), w.only.Framebuffers());
    var k := h.(waiting := Some(w));
    forall id: nat ensures BufferBalanced(m, k, id) { assert BufferBalanced(l, h, id); }
    forall id: nat ensures FramebufferBalanced(m, k, id) { assert FramebufferBalanced(l, h, id); }
    WholeMeanwhile(l, m, h, w.only.Buffers(), w.only.Framebuffers());
    KeptMeanwhile(l, m, h.lost);
    forall j | 0 <= j < 3 ensures SlotWhole(m, k, j) { assert SlotWhole(m, h, j); }
  }

  // ---------- giving back ----------

  lemma StillHeldAfter(l: Ledger, m: Ledger, b: ScanoutBuffer, buffers: set<nat>, framebuffers: set<nat>, ok: bool)
    requires b.HeldIn(l) && b.buffer.Some? && b.framebuffer.Some? && GivenBack(l, m, buffers, framebuffers, ok)
    requires b.buffer.value.id !in buffers && b.framebuffer.value !in framebuffers
    ensures b.HeldIn(m)
  {
    GivenBackMeans(l, m, buffers, framebuffers, ok);
  }

  lemma SlotWholeAfter(l: Ledger, m: Ledger, h: Held, i: nat, buffers: set<nat>, framebuffers: set<nat>, ok: bool)
    requires i < 3 && SlotWhole(l, h, i) && GivenBack(l, m, buffers, framebuffers, ok)
    requires SlotBuffers(h.Get(i)) !! buffers && SlotFramebuffers(h.Get(i)) !! framebuffers
    ensures SlotWhole(m, h, i)
  {
    if h.Get(i).Some? {
      StillHeldAfter(l, m, h.Get(i).value.first, buffers, framebuffers, ok);
      StillHeldAfter(l, m, h.Get(i).value.second, buffers, framebuffers, ok);
    }
  }

  /** Two holders never share a handle. */
  lemma SlotsDisjoint(l: Ledger, h: Held, i: nat, j: nat)
    requires Accounts(l, h) && i < 3 && j < 3 && i != j
    ensures SlotBuffers(h.Get(i)) !! SlotBuffers(h.Get(j))
    ensures SlotFramebuffers(h.Get(i)) !! SlotFramebuffers(h.Get(j))
  {
    AccountsMean(l, h);
    forall id | id in SlotBuffers(h.Get(i)) ensures id !in SlotBuffers(h.Get(j)) { assert BufferBalanced(l, h, id); }
    forall id | id in SlotFramebuffers(h.Get(i)) ensures id !in SlotFramebuffers(h.Get(j)) {
      assert FramebufferBalanced(l, h, id);
    }
  }

  lemma WaitingDisjoint(l: Ledger, h: Held, i: nat)
    requires Accounts(l, h) && i < 3
    ensures SlotBuffers(h.Get(i)) !! h.WaitingBuffers() && SlotFramebuffers(h.Get(i)) !! h.WaitingFramebuffers()
  {
    AccountsMean(l, h);
    forall id | id in SlotBuffers(h.Get(i)) ensures id !in h.WaitingBuffers() { assert BufferBalanced(l, h, id); }
    forall id | id in SlotFramebuffers(h.Get(i)) ensures id !in h.WaitingFramebuffers() {
      assert FramebufferBalanced(l, h, id);
    }
  }

  /** Giving one slot back leaves every other holder whole. */
  lemma OthersWhole(l: Ledger, m: Ledger, h: Held, i: nat, ok: bool)
    requires i < 3 && Accounts(l, h) && h.Get(i).Some?
    requires GivenBack(l, m, SlotBuffers(h.Get(i)), SlotFramebuffers(h.Get(i)), ok)
    ensures Whole(m, h.Without(i, ok))
  {
    AccountsMean(l, h);
    var k, b, f := h.Without(i, ok), SlotBuffers(h.Get(i)), SlotFramebuffers(h.Get(i));
    forall j | 0 <= j < 3 ensures SlotWhole(m, k, j) {
      assert SlotWhole(l, h, j);
      if j != i {
        SlotsDisjoint(l, h, j, i);
        SlotWholeAfter(l, m, h, j, b, f, ok);
      }
    }
    WaitingDisjoint(l, h, i);
    if h.waiting.Some? { StillHeldAfter(l, m, h.waiting.value.only, b, f, ok); }
  }

  lemma TakeSlot(l: Ledger, m: Ledger, h: Held, i: nat, ok: bool)
    requires i < 3 && Accounts(l, h) && h.Get(i).Some?
    requires GivenBack(l, m, SlotBuffers(h.Get(i)), SlotFramebuffers(h.Get(i)), ok)
    ensures Accounts(m, h.Without(i, ok)) && h.Without(i, ok).Bytes() == h.Bytes() - h.Get(i).value.liveBytes
  {
    AccountsMean(l, h);
    OthersWhole(l, m, h, i, ok);
    var k := h.Without(i, ok);
    GivenBackMeans(l, m, SlotBuffers(h.Get(i)), SlotFramebuffers(h.Get(i)), ok);
    forall id: nat ensures BufferBalanced(m, k, id) { assert BufferBalanced(l, h, id); }
    forall id: nat ensures FramebufferBalanced(m, k, id) { assert FramebufferBalanced(l, h, id); }
    KeptMeanwhile(l, m, h.lost);
  }

  lemma TakeWaiting(l: Ledger, m: Ledger, h: Held, ok: bool)
    requires Accounts(l, h) && h.waiting.Some?
    requires GivenBack(l, m, h.WaitingBuffers(), h.WaitingFramebuffers(), ok)
    ensures Accounts(m, h.(waiting := None))
  {
    AccountsMean(l, h);
    GivenBackMeans(l, m, h.WaitingBuffers(), h.WaitingFramebuffers(), ok);
    var k := h.(waiting := None);
    forall id: nat ensures BufferBalanced(m, k, id) { assert BufferBalanced(l, h, id); }
    forall id: nat ensures FramebufferBalanced(m, k, id) { assert FramebufferBalanced(l, h, id); }
    forall j | 0 <= j < 3 ensures SlotWhole(m, k, j) {
      assert SlotWhole(l, h, j);
      WaitingDisjoint(l, h, j);
      SlotWholeAfter(l, m, h, j, h.WaitingBuffers(), h.WaitingFramebuffers(), ok);
    }
    KeptMeanwhile(l, m, h.lost);
  }

  /** Making the new waiting scanout before giving the old one back comes to the same as the other way round. */
  lemma ReplaceWaiting(l: Ledger, m: Ledger, n: Ledger, h: Held, w: WaitingScanout, ok: bool)
    requires Accounts(l, h) && h.waiting.Some?
    requires Gained(l, m, w.only.Buffers(), w.only.Framebuffers()) && w.Complete() && w.only.HeldIn(n)
    requires GivenBack(m, n, h.WaitingBuffers(), h.WaitingFramebuffers(), ok)
    ensures Accounts(n, h.(waiting := Some(w)))
  {
    AccountsMean(l, h);
    GainedMeans(l, m, w.only.Buffers(), w.only.Framebuffers());
    GivenBackMeans(m, n, h.WaitingBuffers(), h.WaitingFramebuffers(), ok);
    var k := n.(buffers := l.buffers - h.WaitingBuffers(), framebuffers := l.framebuffers - h.WaitingFramebuffers(),
                framebufferOf := l.framebufferOf);
    TakeWaiting(l, k, h, ok);
    forall id: nat | id in h.WaitingBuffers() ensures id in l.buffers { assert BufferBalanced(l, h, id); }
    forall id: nat | id in h.WaitingFramebuffers() ensures id in l.framebuffers { assert FramebufferBalanced(l, h, id); }
    PutWaiting(k, n, h.(waiting := None), w);
  }
}

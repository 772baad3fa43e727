/**
 One automaton for the ownership of the bulk endpoint. The event loop keeps several records of who owns the
 endpoint (the aggregate session, the exact-AIO transaction, the admission guard, the pending and ready records,
 the queue, a pending boundary); `ReceiveLoop` proves that together they always stand for one state of this
 automaton. The theorems below hold of every history the automaton accepts, so of every run of the loop.
 */
module Ownership {
  import opened Wire

  datatype Txn = Txn(seqNo: nat, op: nat, bytes: nat)

  datatype Phase =
    | Free                                    // nobody owns the endpoint; the next SET_BUFFER may arm
    | Gone                                    // the last owner was retired without a new host activation
    | Receiving(txn: Txn, statusOk: bool)     // an accepted operation, and whether its OK status went out
    | Delivering(txn: Txn)                    // the payload arrived and is being presented
    | Contained(txn: Txn)                     // poisoned: waits for a terminal lifecycle event
    | Fenced(txn: Txn, next: Option<nat>)     // the session ended under it: waits to be retired
  {
    predicate Owned() { !Free? && !Gone? }
  }

  datatype Label =
    | Armed(txn: Txn)
    | Acknowledged(txn: Txn)
    | Delivered(txn: Txn)
    | Finished(txn: Txn)
    | Poisoned(txn: Txn)
    | Ended(txn: Txn, next: Option<nat>)      // a Disable, Enable, Bind or Unbind observed while owned
    | Retired(txn: Txn)
    | EpochBegan(epoch: nat)

  datatype Owner = Owner(phase: Phase, epoch: nat, lastSeq: nat, nextOp: nat)

  const INITIAL: Owner := Owner(Free, 0, 0, 0)

  predicate Enabled(o: Owner, l: Label) {
    match l
    case Armed(t) => o.phase.Free? && t.seqNo > o.lastSeq && t.op >= o.nextOp && t.bytes > 0
    case Acknowledged(t) => o.phase == Receiving(t, false)
    case Delivered(t) => o.phase == Receiving(t, true)
    case Finished(t) => o.phase == Delivering(t)
    case Poisoned(t) => (o.phase.Receiving? || o.phase.Delivering?) && o.phase.txn == t
    case Ended(t, next) => o.phase.Owned() && !o.phase.Fenced? && o.phase.txn == t
    case Retired(t) => o.phase.Fenced? && o.phase.txn == t
    case EpochBegan(e) => !o.phase.Owned() && e > o.epoch
  }

  function Apply(o: Owner, l: Label): Owner {
    match l
    case Armed(t) => o.(phase := Receiving(t, false), lastSeq := t.seqNo, nextOp := t.op + 1)
    case Acknowledged(t) => o.(phase := Receiving(t, true))
    case Delivered(t) => o.(phase := Delivering(t))
    case Finished(t) => o.(phase := Free)
    case Poisoned(t) => o.(phase := Contained(t))
    case Ended(t, next) => o.(phase := Fenced(t, next))
    case Retired(t) => o.(phase := Gone)
    case EpochBegan(e) => o.(phase := Free, epoch := e)
  }

  type History = seq<Label>

  /** The owner after the first `n` labels. */
  function At(h: History, n: nat): Owner
    requires n <= |h|
  {
    if n == 0 then INITIAL else Apply(At(h, n - 1), h[n - 1])
  }

  /** Label `i` is enabled where it occurs. */
  predicate Legal(h: History, i: nat)
    requires i < |h|
  {
    Enabled(At(h, i), h[i])
  }

  ghost predicate Accepted(h: History) {
    forall i: nat :: i < |h| ==> Legal(h, i)
  }

  /** `h` is accepted and leaves the owner `o`. */
  ghost predicate LeadsTo(h: History, o: Owner) {
    Accepted(h) && At(h, |h|) == o
  }

  lemma {:induction false} PrefixOwner(h: History, more: History, n: nat)
    requires n <= |h|
    ensures At(h + more, n) == At(h, n)
  {
    if n > 0 { PrefixOwner(h, more, n - 1); }
  }

  /** The later history has at most `n` labels more. */
  predicate Grows(h: History, later: History, n: nat) {
    h <= later && |later| <= |h| + n
  }

  /** Between two accepted histories that differ by one label at most, it is that label which changed the owner. */
  lemma OneLabel(h: History, o: Owner, later: History, o': Owner)
    requires LeadsTo(h, o) && LeadsTo(later, o') && Grows(h, later, 1)
    ensures if |later| == |h| then later == h && o' == o
            else later == h + [later[|h|]] && Enabled(o, later[|h|]) && o' == Apply(o, later[|h|])
  {
    if |later| > |h| {
      assert later == h + [later[|h|]];
      PrefixOwner(h, [later[|h|]], |h|);
      assert Legal(later, |h|);
    }
  }

  /** Appending an enabled label keeps a history accepted. */
  lemma Extend(h: History, o: Owner, l: Label)
    requires LeadsTo(h, o) && Enabled(o, l)
    ensures LeadsTo(h + [l], Apply(o, l))
  {
    PrefixOwner(h, [l], |h|);
    forall i: nat | i < |h| + 1 ensures Legal(h + [l], i) {
      if i < |h| {
        PrefixOwner(h, [l], i);
        assert Legal(h, i);
      }
    }
  }

  /** The owned transaction is the one armed last. */
  lemma {:induction false} OwnerIsLast(h: History, n: nat)
    requires n <= |h| && Accepted(h)
    ensures At(h, n).phase.Owned() ==> At(h, n).phase.txn.seqNo == At(h, n).lastSeq
  {
    if n > 0 {
      OwnerIsLast(h, n - 1);
      assert Legal(h, n - 1);
    }
  }

  lemma StepGrows(o: Owner, l: Label)
    requires Enabled(o, l)
    ensures o.lastSeq <= Apply(o, l).lastSeq && o.epoch <= Apply(o, l).epoch && o.nextOp <= Apply(o, l).nextOp
  {}

  lemma {:induction false} CountersGrow(h: History, m: nat, n: nat)
    requires m <= n <= |h| && Accepted(h)
    ensures At(h, m).lastSeq <= At(h, n).lastSeq
    ensures At(h, m).epoch <= At(h, n).epoch
    ensures At(h, m).nextOp <= At(h, n).nextOp
    decreases n
  {
    if m < n {
      CountersGrow(h, m, n - 1);
      assert Legal(h, n - 1);
      StepGrows(At(h, n - 1), h[n - 1]);
    }
  }

  /** `l` takes transaction `t` out of normal service. */
  predicate TakesOut(l: Label, t: Txn) {
    l == Poisoned(t) || (l.Ended? && l.txn == t)
  }

  lemma {:induction false} StaysOut(h: History, i: nat, n: nat, t: Txn)
    requires i < n <= |h| && Accepted(h) && TakesOut(h[i], t)
    ensures var p := At(h, n).phase;
      p.Owned() ==> p.txn.seqNo > t.seqNo || (p.txn == t && (p.Contained? || p.Fenced?))
    ensures At(h, n).lastSeq >= t.seqNo
    decreases n
  {
    assert Legal(h, n - 1);
    if i == n - 1 {
      OwnerIsLast(h, i);
    } else {
      StaysOut(h, i, n - 1, t);
    }
  }

  /** Epoch fencing: once a transaction is poisoned, or the session ends while it is owned, it is never armed
      again, acknowledged, delivered or finished. */
  lemma FencedNeverFinishes(h: History, i: nat, j: nat, t: Txn)
    requires i < j < |h| && Accepted(h) && TakesOut(h[i], t)
    ensures h[j] !in {Armed(t), Acknowledged(t), Delivered(t), Finished(t)}
  {
    StaysOut(h, i, j, t);
    assert Legal(h, j);
  }

  /** Transaction `t` is still out of service in phase `p`. */
  predicate StillOut(p: Phase, t: Txn) {
    p == Contained(t) || (p.Fenced? && p.txn == t)
  }

  lemma StepFromOut(o: Owner, l: Label, t: Txn)
    requires Enabled(o, l)
    ensures StillOut(o.phase, t) ==> StillOut(Apply(o, l).phase, t) || (l == Retired(t) && Apply(o, l).phase == Gone)
    ensures o.phase == Gone ==> l.EpochBegan? && l.epoch > o.epoch
    ensures TakesOut(l, t) ==> StillOut(Apply(o, l).phase, t)
  {}

  /** A transaction taken out by label `i` and no longer out at `n` was retired by label `r`, and either nothing
      followed or a larger epoch began right after. */
  lemma {:induction false} OutUntilRetired(h: History, i: nat, n: nat, t: Txn) returns (r: nat)
    requires i < n <= |h| && Accepted(h) && TakesOut(h[i], t)
    requires !StillOut(At(h, n).phase, t)
    ensures i < r < n && h[r] == Retired(t)
    ensures r + 1 == n || (h[r + 1].EpochBegan? && h[r + 1].epoch > At(h, i).epoch)
    decreases n
  {
    assert Legal(h, n - 1);
    StepFromOut(At(h, n - 1), h[n - 1], t);
    if StillOut(At(h, n - 1).phase, t) {
      r := n - 1;
    } else {
      r := OutUntilRetired(h, i, n - 1, t);
      if r + 1 == n - 1 {
        assert Legal(h, r);
        CountersGrow(h, i, n - 1);
      }
    }
  }

  /** The only way from a poisoned or fenced transaction back to a free endpoint is its retirement followed at
      once by a strictly larger epoch. */
  lemma RecoveryNeedsNewEpoch(h: History, i: nat, n: nat, t: Txn) returns (r: nat)
    requires i < n <= |h| && Accepted(h) && TakesOut(h[i], t)
    requires At(h, n).phase.Free?
    ensures i < r && r + 1 < n && h[r] == Retired(t)
    ensures h[r + 1].EpochBegan? && h[r + 1].epoch > At(h, i).epoch
  {
    r := OutUntilRetired(h, i, n, t);
    assert Legal(h, r);
  }

  /** A finished transaction was armed, acknowledged and delivered by the three labels just before: no other
      transaction, session end or new epoch comes between. */
  lemma FinishedIsUninterrupted(h: History, j: nat, t: Txn)
    requires j < |h| && Accepted(h) && h[j] == Finished(t)
    ensures j >= 3 && h[j - 3] == Armed(t) && h[j - 2] == Acknowledged(t) && h[j - 1] == Delivered(t)
  {
    assert Legal(h, j);
    assert Legal(h, j - 1);
    assert Legal(h, j - 2);
    assert Legal(h, j - 3);
  }

  lemma ArmedOnce(h: History, i: nat, j: nat)
    requires i < j < |h| && Accepted(h) && h[i].Armed? && h[j].Armed?
    ensures h[i].txn.seqNo < h[j].txn.seqNo && h[i].txn.op < h[j].txn.op
  {
    CountersGrow(h, i + 1, j);
    assert Legal(h, j);
  }

  /** No sequence number and no endpoint operation is finished twice. */
  lemma FinishedOnce(h: History, i: nat, j: nat)
    requires i < j < |h| && Accepted(h) && h[i].Finished? && h[j].Finished?
    ensures h[i].txn.seqNo < h[j].txn.seqNo && h[i].txn.op < h[j].txn.op
  {
    FinishedIsUninterrupted(h, i, h[i].txn);
    FinishedIsUninterrupted(h, j, h[j].txn);
    ArmedOnce(h, i - 3, j - 3);
  }

  /** Once delivered, a transaction is not received again. */
  lemma {:induction false} NotReceivedAgain(h: History, j: nat, n: nat, t: Txn)
    requires j < n <= |h| && Accepted(h) && h[j] == Delivered(t)
    ensures At(h, n).phase.Receiving? ==> At(h, n).phase.txn.seqNo > t.seqNo
    ensures At(h, n).lastSeq >= t.seqNo
    decreases n
  {
    assert Legal(h, n - 1);
    if j == n - 1 { OwnerIsLast(h, j); } else { NotReceivedAgain(h, j, n - 1, t); }
  }

  /** Once out of service, a transaction is not delivered. */
  lemma {:induction false} NotDeliveredFrom(h: History, m: nat, n: nat, t: Txn)
    requires m <= n <= |h| && Accepted(h) && StillOut(At(h, m).phase, t)
    ensures At(h, n).phase.Receiving? ==> At(h, n).phase.txn.seqNo > t.seqNo
    ensures At(h, n).lastSeq >= t.seqNo
    decreases n
  {
    OwnerIsLast(h, m);
    if m < n {
      assert Legal(h, n - 1);
      NotDeliveredFrom(h, m, n - 1, t);
    }
  }
}

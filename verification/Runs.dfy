/**
 What the history of a run says about the ticks it was made of. `EventLoop.Run` proves that each pass adds to the history
 only what its tick calls for; together with the automaton this says which ticks a transaction owes its end to.
 */
module Runs {
  import opened Wire
  import opened Endpoint
  import opened ReceiveLoop
  import Own = Ownership

  /** The pass that added label `j`. */
  lemma {:induction false} PassOf(ticks: seq<Tick>, h: Own.History, marks: seq<nat>, j: nat, n: nat) returns (k: nat)
    requires Recorded(ticks, h, marks) && n < |marks| && marks[0] <= j < marks[n]
    ensures k < n && marks[k] <= j < marks[k + 1]
    ensures Explains(ticks[k], Own.At(h, marks[k]).phase.Fenced?, h[j])
  {
    assert PassLaw(ticks[n - 1], h, marks[n - 1], marks[n]);
    if marks[n - 1] <= j { k := n - 1; } else { k := PassOf(ticks, h, marks, j, n - 1); }
  }

  /** A pass that serves a status request while `x` is in flight and has no status yet. */
  ghost predicate ServesStatus(t: Tick, p: Own.Phase, x: Own.Txn) {
    p == Own.Receiving(x, false) && t.poll.NothingYet? && !t.late && t.ep0.Arrived? && t.ep0.event.GetStatus?
  }

  /** In any run: if the payload of `x` is delivered, then the first status that went out while `x` was in flight was 0. */
  lemma DeliveredOnlyAfterOk(ticks: seq<Tick>, h: Own.History, marks: seq<nat>, k: nat, d: nat, x: Own.Txn)
    requires Recorded(ticks, h, marks) && Own.Accepted(h) && k < |marks| - 1 && marks[k] <= |h|
    requires ServesStatus(ticks[k], Own.At(h, marks[k]).phase, x)
    requires d < |h| && h[d] == Own.Delivered(x)
    ensures ticks[k].ep0.event.status == 0 && marks[k] < |h| && h[marks[k]] == Own.Acknowledged(x)
  {
    var m := marks[k];
    assert PassLaw(ticks[k], h, m, marks[k + 1]);
    if d < m {
      Own.NotReceivedAgain(h, d, m, x);
    } else if m < d && h[m] == Own.Poisoned(x) {
      Own.FencedNeverFinishes(h, m, d, x);
    }
  }

  /** In any run: the deadline of a receive passing before its completion is polled ends it, and it is never delivered. */
  lemma LateNeverDelivered(ticks: seq<Tick>, h: Own.History, marks: seq<nat>, k: nat, d: nat, x: Own.Txn)
    requires Recorded(ticks, h, marks) && Own.Accepted(h) && k < |marks| - 1 && marks[k] <= |h|
    requires Own.At(h, marks[k]).phase.Receiving? && Own.At(h, marks[k]).phase.txn == x && ticks[k].late
    requires d < |h|
    ensures h[d] !in {Own.Delivered(x), Own.Finished(x)}
  {
    var m := marks[k];
    assert PassLaw(ticks[k], h, m, marks[k + 1]);
    if h[d] == Own.Delivered(x) {
      if d < m { Own.NotReceivedAgain(h, d, m, x); } else if m < d { Own.FencedNeverFinishes(h, m, d, x); }
    } else if h[d] == Own.Finished(x) {
      Own.FinishedIsUninterrupted(h, d, x);
      if d < m { Own.NotReceivedAgain(h, d - 1, m, x); } else if m < d { Own.FencedNeverFinishes(h, m, d, x); }
    }
  }

  /** The size that a SET_BUFFER announces. */
  predicate Requests(t: Tick, bytes: nat) {
    && t.ep0.Arrived? && t.ep0.event.SetBufferRequest? && t.ep0.event.valid && t.submission == Submitted
    && bytes == if t.ep0.event.info.compression == 0 then t.ep0.event.info.length else t.ep0.event.info.compressedLength
  }

  /** In any run: a transaction that finished was armed by one pass for a SET_BUFFER of its size, acknowledged by a later
      one for a status 0, the first to go out; a later one still polled a completion of exactly that size, with nothing late
      until then; and that pass or a later one presented the payload. */
  lemma FinishedByItsTicks(ticks: seq<Tick>, h: Own.History, marks: seq<nat>, j: nat, x: Own.Txn)
    returns (arm: nat, ok: nat, poll: nat, end: nat)
    requires Recorded(ticks, h, marks) && Own.Accepted(h)
    requires marks[0] + 3 <= j < |h| && h[j] == Own.Finished(x)
    ensures arm < ok < poll <= end < |marks| - 1
    ensures Requests(ticks[arm], x.bytes) && ticks[ok].ep0 == Arrived(GetStatus(0))
    ensures ticks[poll].poll == CompletedWith(x.bytes) && ticks[end].ep0 == Quiet && ticks[end].presented
    ensures forall k :: arm < k <= poll ==> !ticks[k].late
    ensures forall k :: arm < k < ok ==> !(ticks[k].ep0.Arrived? && ticks[k].ep0.event.GetStatus?)
  {
    Own.FinishedIsUninterrupted(h, j, x);
    var n := |marks| - 1;
    arm := PassOf(ticks, h, marks, j - 3, n);
    ok := PassOf(ticks, h, marks, j - 2, n);
    poll := PassOf(ticks, h, marks, j - 1, n);
    end := PassOf(ticks, h, marks, j, n);
    Separate(ticks, h, marks, arm, ok, j - 3);
    Separate(ticks, h, marks, ok, poll, j - 2);
    Separate(ticks, h, marks, poll, end, j - 1);
    assert PassLaw(ticks[ok], h, marks[ok], marks[ok + 1]);
    assert Own.Legal(h, j - 2);
    assert ok < poll;
    forall k | arm < k <= poll
      ensures !ticks[k].late && (k < ok ==> !(ticks[k].ep0.Arrived? && ticks[k].ep0.event.GetStatus?))
    {
      Meanwhile(ticks, h, marks, j, x, arm, ok, poll, k);
    }
  }

  /** Two passes that added neighbouring labels come in that order. */
  lemma Separate(ticks: seq<Tick>, h: Own.History, marks: seq<nat>, a: nat, b: nat, i: nat)
    requires Recorded(ticks, h, marks) && a < |marks| - 1 && b < |marks| - 1
    requires marks[a] <= i < marks[a + 1] && marks[b] <= i + 1 < marks[b + 1]
    ensures a <= b
  {
    if b < a { PassesInOrder(ticks, h, marks, b + 1, a); }
  }

  /** Between the pass that armed `x` and the one that delivered it. */
  lemma Meanwhile(ticks: seq<Tick>, h: Own.History, marks: seq<nat>, j: nat, x: Own.Txn,
                  arm: nat, ok: nat, poll: nat, k: nat)
    requires Recorded(ticks, h, marks) && Own.Accepted(h) && 3 <= j < |h|
    requires h[j - 3] == Own.Armed(x) && h[j - 2] == Own.Acknowledged(x) && h[j - 1] == Own.Delivered(x)
    requires arm < k <= poll < |marks| - 1 && arm < ok < poll
    requires marks[arm] <= j - 3 < marks[arm + 1] && marks[ok] <= j - 2 < marks[ok + 1]
    requires marks[poll] <= j - 1 < marks[poll + 1]
    ensures !ticks[k].late && (k < ok ==> !(ticks[k].ep0.Arrived? && ticks[k].ep0.event.GetStatus?))
  {
    PassesInOrder(ticks, h, marks, arm + 1, k);
    PassesInOrder(ticks, h, marks, k, poll);
    assert PassLaw(ticks[k], h, marks[k], marks[k + 1]);
    assert Own.Legal(h, j - 2) && Own.Legal(h, j - 1);
    if k < ok { PassesInOrder(ticks, h, marks, k + 1, ok); }
  }
}

# Verified model of the GUD display gadget

A Dafny model of a USB display gadget: the daemon that receives frames over FunctionFS and shows them on a DRM panel.
The model has three linked parts.

**Ownership of the bulk endpoint.** One bulk transfer is owned by several records at once: the aggregate receive
session, the exact-AIO transaction, the admission guard, the operation queue, the pending and ready records and a
pending epoch boundary. `Ownership` is one small automaton for all of them, with its theorems about whole histories.
`ReceiveLoop` is the event loop in production mode; its invariant says that the records together always stand for one
state of the automaton, so the theorems hold of every run, and each pass is also equal to a small function of that
state. Each pass also adds to the history only what its tick calls for; `Runs` has what follows for whole runs: which
ticks a delivered or finished transaction owes its end to. `ExactAio`, `Receiver`, `Endpoint` and `UsbLifecycle` are the pieces the loop drives. `ExactAio` also proves what
holds of the transaction under any calls at all.

**Scanouts and routes.** `Backend` is the device. Any call may fail: how the kernel answers is a parameter that every
theorem is about for all its values. The device keeps a ledger of what the kernel holds and a log of its answers, and its
preconditions make handles linear. `Scanout` makes and releases allocations, `Holdings` balances them against the ledger,
`Runtime` keeps the slots, roles, byte counts and mappings, and a record of everything that was ever held. `Display`
composes the protocol state, the planner, the runtime and the shadow, and proves one invariant for every sequence of
events: from it follow the slot roles, the discipline of the raw slot pointer, conservation, plan and commit agreement,
route agreement and the bound on retries. `Moments` has what one event makes of the display as a relation on values, and
the theorems about whole runs: which commits miss their plans, what repeated checks and commits do, and what the peak is.
`Protocol` has the protocol state both as an object and as a transition function on values, about whose request sequences
it proves which check a commit carries; `Routes` says what a check plans and what carrying a plan out yields. `Daemon` puts
the two sides of the event loop together, and `Stubborn` is a run in which a commit misses its plan.

**Pixels and bytes.** Aspect-fit scaling and solid fill (`Raster`), rectangle copy after validation (`Transfer`), the timing-keyed
catalog (`Modes`), the blocking bulk read (`BulkRead`) and the row checksum (`Crc`). Every framebuffer loop is proved equal
to one pasting of rows, about which the pointwise statements are then proved.

The host, the clock, the kernel, the device and the drawing of the waiting screen are parameters or unconstrained
choices. A method that the source writes as an error return is an error return here; where the invariant shows that it
cannot happen, the contract says so. Integers are unbounded, with the widths of the source written out where they matter
(`u8` to `u64` are ranges, and wrapping additions wrap). Flag words are sets of bit numbers and checksum words are
sequences of bits.

Two properties one might expect hold only under a condition, and are stated with it:

- A completion of an earlier host activation is noticed exactly if the number of Enables since its arm is not a multiple of
  2^64 (`ExactAio.StaleExactlyUnlessFullTurn`, `ExactAio.FullTurnIsNotNoticed`).
- A commit finds the plan of its check exactly if the check was not refused it: a check is refused its plan if and only
  if a candidate is staged that the kernel will not take back, and either its timing is not the requested one or that
  timing is already shown (`Display.DisplayLoop.Prepare` for one
  check, `Moments.MissedExactly` for whole runs; a failing case from startup on is `Stubborn.RefusedCheckMisses`).

`dafny verify dfyconfig.toml` checks the project. In the table below the main results come first; the other rows are what
they are built from, part by part.

## Model

| member | source | states |
|---|---|---|
| `ReceiveLoop.EventLoop.Run` | drm/src/main.rs:3441-3764 | lockstep ownership at every loop head of every run: both machines, the guard, the queue, the pending and ready records and the boundary stand for one state of the ownership automaton; retirement never fails, and the new-epoch calls never fail within 2^64 Enables; and every pass of the run adds to the history only what its own tick calls for |
| `ReceiveLoop.EventLoop.Iterate` | drm/src/main.rs:3441-3643 | one pass, in terms of its tick: a deadline that has passed, an unreadable or failed completion, another length or a completion before the OK status contains the receive and ends the pass; a status while a receive is in flight acknowledges it if it is 0 and contains it otherwise; any other event has the effect that PassMeans spells out; whatever enters the history has its cause in the tick; and the loop ends without an error only with nothing owned or after a failed read |
| `Runs.DeliveredOnlyAfterOk` | drm/src/main.rs:3814-3840 | in any run: if the payload of a transaction is delivered, the first status that went out while it was in flight was 0 |
| `Runs.FinishedByItsTicks` | drm/src/main.rs:3441-3764 | in any run: a finished transaction was armed by one pass for a SET_BUFFER of its size, acknowledged by a later one for a status 0, with no status request in between; a later pass polled a completion of exactly that size, with nothing late until then, and that pass or a later one presented it |
| `Ownership.FencedNeverFinishes` | drm/src/main.rs:3442-3479 | a transaction that was poisoned, or owned when its session ended, is never armed again, acknowledged, delivered or finished, in any history the loop can produce |
| `Ownership.RecoveryNeedsNewEpoch` | drm/src/main.rs:3442-3479 | a free endpoint after a poisoned or fenced transaction means: it was retired and a strictly larger epoch began right after |
| `Ownership.FinishedIsUninterrupted` | gadget/src/lib.rs:328-383 | a finished transaction was armed, acknowledged and delivered by the three steps just before; nothing came between |
| `ExactAio.HarvestIsExact` | gadget/src/lib.rs:233-366 | every entry to Processing has its own arm, acceptance and status 0 before it, of the same sequence number; the completion names that operation and has the length of the SET_BUFFER, or the compressed length if that is compressed, which is positive and at most 64 MiB; the Enables in between are a multiple of 2^64, so none unless the counter went all the way round |
| `ExactAio.StaleExactlyUnlessFullTurn` | gadget/src/lib.rs:328-366 | for any calls: the completion of the operation in flight, of the announced length and after its OK status, is accepted if and only if the number of Enables since the arm is a multiple of 2^64 |
| `ExactAio.ExactlyOnce` | gadget/src/lib.rs:255-366 | over all call sequences, acceptances have strictly increasing sequence numbers, and so have harvests |
| `Display.DisplayLoop.Run` | drm/src/main.rs:3899-4457 | for every sequence of checks, commits and session events and every kernel: conservation, slot roles, mapped-is-active, key agreement, the failed-route cache, plan soundness and route agreement hold throughout, or the run stops at one of five device errors of a commit with resources still conserved; and its moments follow one another by the relation Follows: the protocol state is that of the requests, a check that passes is planned or refused and a commit is carried out or missed as the moment before decides, and every change of what is held is on record |
| `Display.DisplayLoop.Prepare` | drm/src/main.rs:2442-2636 | the snapshot has its plan afterwards if and only if the check was not refused it; the plan's kind is the one that the catalog, the shown key, the candidate, the cache of failures and the kernel determine; a candidate of the requested timing, which is not shown, is planned as it is, whatever the kernel would do: no scanout, no count and nothing in the kernel changes; any other plan than a candidate leaves nothing staged |
| `Display.DisplayLoop.HandleCommit` | drm/src/main.rs:3965-4457 | a commit keeps the invariant or ends the loop at a device error; with its plan, the planned route and active slot result from it, as the kernel allows the switch, and what was shown is known: the planned scanout, then the waiting one if that is visible; without, the scanout is retained under the mismatch route and the mismatch is counted; nothing is shown when nothing was pending; the incompatible-slot and baseline arms are dead |
| `Moments.MissedExactly` | drm/src/main.rs:4006-4078 | in any run from startup on: a commit misses its plan if and only if at the check of its own snapshot, the latest one, a candidate was staged that the kernel will not take back, and either its timing was not the requested one or that timing was already shown |
| `Moments.RepeatedCheck` | drm/src/main.rs:2442-2636 | repeating an accepted check changes nothing: no scanout is made or given back, the kernel is asked for nothing, no failure is added, and the plan is the same, except that a preparation which failed is not tried again |
| `Moments.CommitPresents` | drm/src/main.rs:4085-4440 | what a commit presents and which slot is active then, for each kind of plan, in terms of the two mappings and the mode set that the kernel grants or refuses; without a plan the scanout stays |
| `Moments.PeakOfRun` | drm/src/scanout.rs:988-998 | the observed peak of a run is its largest total of live bytes: at least that of every moment and of every replacement in between, reached by one of them, and by one of the run itself if it grew in the run |
| `Display.DisplayLoop.RoutesAgree` | drm/src/main.rs:2739-2781 | the shown key is that of the active slot; under a scaled route the shadow is valid, of the width, height and format of the committed state, with a pitch of 2, 3 or 4 bytes a pixel; under an exact one it is not valid, and the active scanout has the size of the committed state |
| `Protocol.CommittedIsLatestCommit` | gadget/src/lib.rs:1265-1275 | what is committed was pending at the latest commit that found anything, made by the check right before it, with no reset since |
| `Daemon.DisplayDaemon.Run` | drm/src/main.rs:3441-3764 | any run of both sides: lockstep ownership and the invariant of the display hold at every loop head, the ownership history is accepted, and the moments of the display follow one another through events that come pass by pass from the requests: nothing, or the request, after the waiting scanout for a Suspend, Enable, Bind or Disconnected |
| `Daemon.DisplayDaemon.Iterate` | drm/src/main.rs:3441-3764 | one pass over both sides, in terms of the request: Suspend, Enable, Bind and Disconnected show the waiting scanout if the kernel lets them, other lifecycle events, checks and enables show nothing; a session event clears the protocol state, and a candidate survives it exactly under an owner or an Unbind; a rejected check and a commit with nothing pending contain the owner, if there is one, other requests leave it alone, and a lifecycle event fences it unless it is a Suspend or Resume; an accepted check is what is pending then, and a commit makes committed what was pending; a contained endpoint keeps all but lifecycle events from the display |
| `Stubborn.RefusedCheckMisses` | drm/src/main.rs:2442-2636 | the failing case from startup on, for any two modes of different timing and a kernel that keeps framebuffers: a check that stages a candidate, a check of the mode that is shown, and its commit - which misses its plan |
| `Raster.LayoutFits` | drm/src/main.rs:2131-2162 | inside the destination, along a whole axis, centred to within a pixel, and of the source's aspect ratio up to rounding; which axis is limited is decided exactly |
| `Raster.ScaledInside` | drm/src/main.rs:2205-2218 | a pixel of the layout shows, byte for byte, the source pixel at the rounded-down coordinates |
| `Raster.NothingDropped` | drm/src/main.rs:2205-2218 | a layout at least as large as the source shows every source pixel |
| `Transfer.AcceptedIsContained` | gadget/src/lib.rs:1292-1347 | in spite of wrapping 32-bit sums an accepted rectangle lies inside the mode as true integers |
| `Transfer.AcceptedExactly` | gadget/src/lib.rs:1292-1372 | exactly which uploads are accepted, in true integers: inside the committed mode, of the length of their pixels, uncompressed or with LZ4 data of at most that length |
| `Transfer.CopyAccepted` | gadget/src/lib.rs:2456-2530 | so its copy succeeds and writes exactly the rectangle |
| `Modes.Build` | drm/src/modes.rs:75-142 | fails exactly without a physical mode or with a bad index; otherwise the catalog is faithful to a linear scan and has one preferred timing, so the final check never fails |
| `Modes.CatalogRoutes` | drm/src/modes.rs:88-123 | only a physical mode has an exact route, and that leads to the first physical mode of its timing; a scaled route is that of a synthetic timing which no physical mode has |
| `BulkRead.ReadFunctionfsPayload` | gadget/src/lib.rs:1713-1838 | refused exactly for an unacceptable length or read size; otherwise success exactly when every needed reply is exact; the buffer is their concatenation; otherwise the first reply that is not exact was the last one asked for, and is classified |
| `RowCrc.RowCrc32` | drm/src/main.rs:2352-2363 | the bitwise loop computes the table-driven CRC-32 of section 8 of RFC 1952 |
| `RowCrc.BurstDetected` | drm/src/main.rs:2352-2363 | rows that differ only inside four consecutive bytes have different checksums |
| `Ownership.OutUntilRetired` | drm/src/main.rs:784-825 | a transaction leaves the poisoned or fenced state only by its retirement, and only a larger epoch can follow |
| `Ownership.ArmedOnce` | gadget/src/lib.rs:255-283 | later arms carry larger sequence numbers and larger operation ids |
| `Ownership.FinishedOnce` | gadget/src/lib.rs:368-383 | no sequence number and no operation is finished twice |
| `Ownership.StaysOut` | gadget/src/lib.rs:389-416 | after being taken out of service a transaction can only be contained or fenced, or a later one is owned |
| `Ownership.NotReceivedAgain` | gadget/src/lib.rs:328-383 | once delivered, a transaction is not in flight again |
| `Ownership.OneLabel` | drm/src/main.rs:3441-3764 | what one step adds to the history is what changed the owner |
| `ExactAio.FullTurnIsNotNoticed` | gadget/src/lib.rs:964-973 | a witness for every upload, compressed or not, and every number of Enables: armed, accepted and acknowledged, then activated that often, its completion is accepted exactly if it has the size of the upload and the number is a multiple of 2^64 |
| `ExactAio.GenerationCountsEnables` | gadget/src/lib.rs:964-973 | the activation generation is the number of Enables modulo 2^64 |
| `ExactAio.NewSequencePerTurn` | gadget/src/lib.rs:255-264 | getting back to Arming, or from Processing to InFlight, takes a new sequence number |
| `ExactAio.StatusProvenance` | gadget/src/lib.rs:305-319 | a status-ready transaction saw an OK status after its acceptance |
| `ExactAio.ExactAioTransaction.BeginArmWithMetadata` | gadget/src/lib.rs:233-264 | refused, with nothing changed, unless Idle, with a sequence number left and a size from 1 byte to 64 MiB, the size being the length or, if compressed, the compressed length; otherwise armed for that many bytes under the next sequence number and the current activation |
| `ExactAio.ExactAioTransaction.SubmissionAccepted` | gadget/src/lib.rs:266-283 | only an arming transaction takes an operation id, and then waits for its status |
| `ExactAio.ExactAioTransaction.SubmissionRejected` | gadget/src/lib.rs:285-303 | a rejected submission returns to Idle with nothing expected; only an arming one can be rejected |
| `ExactAio.ExactAioTransaction.StatusSent` | gadget/src/lib.rs:305-319 | only the first status of a transaction in flight counts, and only 0 makes it ready |
| `ExactAio.ExactAioTransaction.CompletionForOperation` | gadget/src/lib.rs:328-366 | accepted exactly in flight, for the operation, activation and length on record and after the OK status; any deviation poisons, and nothing else changes |
| `ExactAio.ExactAioTransaction.FinishProcessing` | gadget/src/lib.rs:368-383 | only a processing transaction finishes, and then owns nothing |
| `ExactAio.ExactAioTransaction.RetireAfterSessionDestruction` | gadget/src/lib.rs:393-416 | an arming, accepted or poisoned transaction is retired with its epoch and sequence number kept |
| `ExactAio.ExactAioTransaction.BeginUsbEpoch` | gadget/src/lib.rs:418-434 | an epoch begins only from Idle or Aborted and only with a larger number |
| `UsbLifecycle.ClassifyFits` | drm/src/main.rs:367-422 | the classifier against its meaning: a session end while owned is a boundary, a protocol error is contained or ignored by ownership, Suspend and Resume preserve what is owned, and Unbind is fatal only from proven idle |
| `Receiver.BulkReceiveSession.BeginReceive` | drm/src/main.rs:543-565 | only an idle session starts arming |
| `Receiver.BulkReceiveSession.SubmissionAccepted` | drm/src/main.rs:567-587 | exactly an arming session goes in flight |
| `Receiver.BulkReceiveSession.FinishReceive` | drm/src/main.rs:589-647 | a payload received in time while in flight goes to Processing; anything else poisons |
| `Receiver.BulkReceiveSession.FinishProcessing` | drm/src/main.rs:649-669 | only a processing session returns to Idle |
| `Receiver.BulkReceiveSession.CancelReceiveBeforeIo` | drm/src/main.rs:676-698 | only an arming session is cancelled |
| `Receiver.BulkReceiveSession.ObserveLifecycle` | drm/src/main.rs:700-726 | succeeds exactly when nothing is owned; a receive under way is poisoned |
| `Receiver.BulkReceiveSession.BeginShutdown` | drm/src/main.rs:728-767 | claimed exactly when nothing is owned; a receive under way is poisoned instead |
| `Receiver.BulkReceiveSession.RetireAfterSessionDestruction` | drm/src/main.rs:784-806 | exactly an arming, accepted or poisoned session is retired |
| `Receiver.BulkReceiveSession.BeginUsbEpoch` | drm/src/main.rs:808-825 | only a larger epoch begins, and only when nothing is owned |
| `Receiver.AdmissionGuard.BeginAfterAioAcceptance` | gadget/src/lib.rs:159-174 | the guard is claimed once; a second claim is refused |
| `Receiver.AdmissionGuard.ReleaseAfterCleanup` | gadget/src/lib.rs:176-181 | only an active guard is released |
| `Endpoint.PixelDataEndpoint.ArmExactPayload` | gadget/src/lib.rs:1917-1980 | exactly from Idle, with a size in range and a submission the kernel takes, one read is queued under a fresh operation id, of the length or, if compressed, the compressed length, which is also what the transaction expects; otherwise both stay as they were |
| `Endpoint.PixelDataEndpoint.TryCompleteExactPayload` | gadget/src/lib.rs:1998-2064 | harvesting empties the queue, unless the endpoint cannot be read any more, and succeeds exactly for the right operation, activation, status and byte count |
| `Endpoint.PixelDataEndpoint.RetireExactAio` | gadget/src/lib.rs:2093-2109 | retirement needs an empty queue |
| `Endpoint.PixelDataEndpoint.BeginUsbEpoch` | gadget/src/lib.rs:2111-2122 | a new epoch needs an empty queue and an unowned transaction |
| `Runs.LateNeverDelivered` | drm/src/main.rs:3502-3560 | in any run: a transaction whose deadline has passed at a poll is neither delivered nor finished, earlier or later |
| `ReceiveLoop.EventLoop.Advance` | drm/src/main.rs:3442-3568 | the first part of a pass: retire, heed a shutdown, poll; when the control endpoint is reached is decided exactly |
| `ReceiveLoop.EventLoop.NoteArmed` | drm/src/main.rs:4712-4747 | a transaction that both machines armed takes the place of the free one, with its sequence number, operation and length |
| `ReceiveLoop.EventLoop.RetireBoundary` | drm/src/main.rs:3442-3479 | both retirements succeed and are on record; a new epoch is refused exactly when its number is not larger, which takes a wrapped activation counter |
| `ReceiveLoop.EventLoop.RetireOwner` | drm/src/main.rs:3450-3462 | both machines are retired together and nothing stays owned |
| `ReceiveLoop.EventLoop.BeginPendingEpoch` | drm/src/main.rs:3472-3477 | the epoch of the Enable that destroyed the old one begins in both machines or in neither |
| `ReceiveLoop.EventLoop.HarvestPending` | drm/src/main.rs:3502-3560 | a late poll, an unreadable or failed completion, another length or a missing status contains a receive in flight, with just that on record; an exact completion in time, after the OK status, delivers it; and the pass goes on unless a receive was ended or a poisoned read was drained |
| `ReceiveLoop.EventLoop.SettleRecorded` | drm/src/main.rs:3502-3560 | the same for a read on record |
| `ReceiveLoop.EventLoop.ServesExactly` | drm/src/main.rs:3441-3568 | when a pass gets as far as the control endpoint, and in which phase |
| `ReceiveLoop.EventLoop.PollRecorded` | drm/src/main.rs:3502-3503 | the first completion or error ends a read on record, and counts exactly when the status was sent and every announced byte came; an endpoint that cannot be read leaves the read queued |
| `ReceiveLoop.EventLoop.HandleLifecycle` | drm/src/main.rs:3653-3747 | the phase after each reason: a session end while owned fences the transaction, with the new activation if it was an Enable; a protocol error contains it; an Enable from idle begins a larger epoch; everything else leaves the owner alone; and the session state each reason leads to, by name |
| `ReceiveLoop.EventLoop.ObserveLifecycle` | drm/src/main.rs:892-1024 | the gate and the classifier decide; nothing is released |
| `ReceiveLoop.EventLoop.EndSession` | drm/src/main.rs:960-981 | both machines are poisoned together and the boundary is recorded with its reason |
| `ReceiveLoop.EventLoop.PoisonOwned` | drm/src/main.rs:962-967 | both machines of an owned transaction are poisoned, and nothing else changes |
| `ReceiveLoop.EventLoop.ContinueSession` | drm/src/main.rs:917-918 | with nothing owned the session goes on, in a new epoch if the event was an Enable |
| `ReceiveLoop.EventLoop.ContainOwner` | drm/src/main.rs:981-992 | a protocol error poisons both machines of an owned transaction |
| `ReceiveLoop.EventLoop.BeginActivation` | drm/src/main.rs:3723-3731 | an Enable seen idle starts the next epoch in both machines; both calls succeed |
| `ReceiveLoop.EventLoop.AdmitBuffer` | drm/src/main.rs:4683-4759 | both machines arm together, exactly when nobody owns the endpoint, the length is in range and the kernel takes the read; admission fails exactly when the endpoint was retired and no Enable followed |
| `ReceiveLoop.EventLoop.Dispatch` | drm/src/main.rs:3749-3764 | the phase after each event; an admitted SET_BUFFER never meets a pending receive, so the overlapping-Buffer arm is dead; the loop ends only at an Unbind from idle or at a fault that is named exactly |
| `ReceiveLoop.EventLoop.ServeEp0` | drm/src/main.rs:3569-3643 | the control endpoint: what each event, a failed read or a quiet endpoint makes of the owner, exactly which events fail with which error, and exactly which leave the loop |
| `ReceiveLoop.EventLoop.ProcessReady` | drm/src/main.rs:5444-5458 | finishing fails exactly when a payload that survived containment was presented |
| `ReceiveLoop.EventLoop.HandleStatus` | drm/src/main.rs:3814-3840 | while a receive waits for its status, 0 acknowledges it and any other value poisons both machines and drops the pending record; any other status changes nothing |
| `ReceiveLoop.EventLoop.Gate` | drm/src/main.rs:841-867 | the nine conjuncts together hold exactly when nothing is owned |
| `ReceiveLoop.EventLoop.TearDown` | drm/src/main.rs:5481-5530 | the gadget is unbound exactly when nothing is owned |
| `Backend.Device.RemoveFramebuffer` | drm/src/scanout.rs:496-531 | one attempt for a framebuffer that was never attempted; a failure keeps it in the kernel |
| `Backend.Device.DestroyBuffer` | drm/src/scanout.rs:496-531 | one attempt for a buffer, and only after the framebuffer on it was attempted |
| `Backend.Device.SetCrtc` | drm/src/scanout.rs:185 | only a framebuffer that the kernel holds is ever shown; every success is on record, and each attempt is answered on its own |
| `Backend.RemovedIsValid` | drm/src/scanout.rs:214-228 | framebuffer allocations stay equal to removals plus what the kernel still holds |
| `Scanout.Release` | drm/src/scanout.rs:496-531 | every handle of an allocation, complete or partial, is attempted once, framebuffers first; it fails exactly when the kernel will not take one of its handles, and keeps it then |
| `Scanout.ReleaseWaiting` | drm/src/scanout.rs:676-703 | the same for the waiting scanout |
| `Scanout.CreateOne` | drm/src/scanout.rs:334-352 | what was made is known exactly, and so are the kernel's answers: a buffer of the size asked for and its framebuffer on the next two handles, or what there was before the refusal |
| `Scanout.MapBoth` | drm/src/scanout.rs:440-494 | two mappings exactly if the kernel grants both; the first is dropped when the second is refused |
| `Scanout.Probe` | drm/src/scanout.rs:354-379 | succeeds exactly when the pitches are equal, both mappings are granted and their bytes can be counted |
| `Scanout.Create` | drm/src/scanout.rs:312-398 | exactly if the kernel grants it a complete allocation of new handles, of the granted pitch and lengths; otherwise nothing held beyond failed releases; mappings balance either way |
| `Scanout.GrantedOrHindered` | drm/src/scanout.rs:312-398 | what is granted is what the kernel answered to the six calls, in order; otherwise the mode has no pixels, or the last answer is a refusal, or the pitches differ, or the bytes overflow |
| `Scanout.CreateWaiting` | drm/src/scanout.rs:547-619 | the same for the waiting scanout, exactly if the kernel grants its three calls |
| `Scanout.RenderWaiting` | drm/src/scanout.rs:634-674 | succeeds exactly when the mapping is granted and the drawing succeeds, and leaves no mapping behind |
| `Holdings.TakeSlot` | drm/src/scanout.rs:1371-1397 | giving back one slot keeps the account of handles and bytes exact and the other holders intact |
| `Holdings.PutSlot` | drm/src/scanout.rs:1340-1369 | storing a new allocation keeps the account exact |
| `Holdings.ReplaceWaiting` | drm/src/scanout.rs:1242-1310 | making the new waiting scanout before giving the old one back keeps the account exact |
| `Holdings.SlotsDisjoint` | drm/src/scanout.rs:857-874 | no two slots share a buffer or a framebuffer |
| `Holdings.NothingHeld` | drm/src/scanout.rs:1190-1209 | with nothing held the kernel holds nothing unattempted |
| `Runtime.ScanoutRuntime.constructor` | drm/src/scanout.rs:1001-1020 | a new manager accounts for the baseline and nothing else, with the roles of startup |
| `Runtime.ScanoutRuntime.Map` | drm/src/scanout.rs:440-494 | a slot that is not mapped is mapped, or nothing changes; maps stay two per mapped slot ahead of unmaps |
| `Runtime.ScanoutRuntime.StageCandidate` | drm/src/scanout.rs:1340-1369 | an unaccounted allocation becomes the candidate, its total goes on record and the peak follows; or it is given back, exactly when the byte count would overflow |
| `Runtime.ScanoutRuntime.CreateCandidate` | drm/src/main.rs:2518-2547 | a candidate in an empty, unmapped slot exactly if the kernel grants it and its bytes can be counted next to those already live; its total goes on record and the peak follows; otherwise nothing is held in addition |
| `Runtime.ScanoutRuntime.TakeAndRelease` | drm/src/scanout.rs:1371-1397 | a slot is emptied even when the kernel refuses; exactly then its allocation is put on record as lost; the new total goes on record |
| `Runtime.ScanoutRuntime.ReleaseCandidate` | drm/src/scanout.rs:1371-1397 | the candidate's slot is emptied and its role and key cleared even when the kernel refuses, and it fails exactly when the kernel will not take one of its handles; no accounting check fires |
| `Runtime.ScanoutRuntime.ActivateSlot` | drm/src/scanout.rs:1411-1424 | only the candidate or the baseline becomes active |
| `Runtime.ScanoutRuntime.ReleaseInactive` | drm/src/scanout.rs:1426-1449 | the baseline is kept, any other inactive slot emptied, with an error exactly when the kernel will not take something of it; no underflow check fires |
| `Runtime.ScanoutRuntime.AttemptMappedSwitch` | drm/src/main.rs:2703-2737 | a switch succeeds exactly when the kernel grants both mappings and the mode set; the target is shown with its own mode; afterwards exactly one of the two scanouts is mapped: the one that is shown |
| `Runtime.ScanoutRuntime.AccountReplacement` | drm/src/scanout.rs:1269-1303 | the moment with both waiting scanouts enters the peak before the total with the new scanout alone |
| `Runtime.ScanoutRuntime.Account` | drm/src/scanout.rs:1363-1368 | what is held changes by one step, its total goes on record and the peak follows |
| `Runtime.PeakIsLargest` | drm/src/scanout.rs:1363-1368 | no total on record, nor the moment at which a replacement existed next to what it replaced, exceeds the peak |
| `Runtime.PeakIsReached` | drm/src/scanout.rs:1363-1368 | some total on record is the peak |
| `Runtime.ScanoutRuntime.CreateFirstWaiting` | drm/src/scanout.rs:1022-1041 | at startup the waiting scanout is counted, and its total put on record, before it is drawn; otherwise nothing is held in addition, for exactly the reason that the kernel or the byte count gives |
| `Runtime.ScanoutRuntime.EnsureWaitingMode` | drm/src/scanout.rs:1242-1310 | the moment with both waiting scanouts is accounted, then the new total; the peak is at least the live bytes plus those of the new scanout; any error leaves the old one in place |
| `Runtime.ReplacementExactly` | drm/src/scanout.rs:1269-1303 | when a waiting scanout can be had, and otherwise the error: it is made, then drawn, then counted |
| `Runtime.AffordableExactly` | drm/src/scanout.rs:312-398 | a candidate can be had exactly if the kernel gives the six answers it takes, in order: two buffers of the size of the mode and of one pitch, their framebuffers, two mappings; and its bytes can be counted |
| `Runtime.ScanoutRuntime.PresentWaiting` | drm/src/main.rs:1884-1908 | what is shown is the waiting scanout, in the mode asked for, or nothing new, for exactly the reason given; the slots are untouched |
| `Runtime.ScanoutRuntime.ReleaseAll` | drm/src/scanout.rs:1190-1209 | the kernel is left with failed releases only, and no mapping; the peak is still that of everything that was ever held |
| `Routes.TakeMatchingPendingPlan` | drm/src/main.rs:2783-2792 | the plan is taken whatever it is, and returned only for exactly its snapshot |
| `Routes.FailuresBounded` | drm/src/scanout.rs:90-95 | a set of failed pairs has at most as many members as there are pairs of keys |
| `Routes.ChosenExactly` | drm/src/main.rs:2456-2599 | each kind of plan is chosen exactly for its routes: scaled, shown, kept, cached, and otherwise as the kernel allows |
| `Display.DisplayLoop.PlanFor` | drm/src/main.rs:2456-2599 | an admitted snapshot has a catalog entry, and its plan is decided from it; what is presented stays presented |
| `Display.DisplayLoop.Decide` | drm/src/main.rs:2456-2599 | a scaled route is planned on the baseline and nothing else is; the error is exact for every route |
| `Display.DisplayLoop.DecideExactRoute` | drm/src/main.rs:2469-2578 | an exact route: shown means nothing to do, cached means not tried, staged means kept, and otherwise the kernel and the byte count decide between a candidate and a new failure; the only error is the refused release of another candidate |
| `Display.DisplayLoop.DecideUnshown` | drm/src/main.rs:2488-2578 | a candidate staged for the route is planned, and nothing is given back, made or asked for; otherwise it is given up first |
| `Display.DisplayLoop.DecideExact` | drm/src/main.rs:2497-2578 | a cached pair is not tried; another one becomes a candidate exactly if that can be had, and is remembered as a failure otherwise |
| `Display.DisplayLoop.PrepareExact` | drm/src/main.rs:2518-2547 | with no candidate there is always an empty slot, and it is never the mapped one; the candidate is there exactly if the kernel grants it |
| `Display.DisplayLoop.ReleaseDynamicCandidate` | drm/src/main.rs:2417-2439 | the candidate is always in one of the available slots, so that error is dead |
| `Display.DisplayLoop.Invalidate` | drm/src/main.rs:2638-2654 | candidate and plan go; the plan stays exactly when the kernel will not take the candidate back, and can then no longer be committed |
| `Display.DisplayLoop.HandleCheck` | gadget/src/lib.rs:1480-1512 | the protocol state follows the request; an accepted check has its plan, of the one kind there is for it, if and only if it was not refused it; if the staged candidate has the requested timing, which is not shown, the check changes nothing in the runtime or the kernel and plans that candidate; a rejection drops the candidate and, unless the kernel keeps something of it, the plan - or leaves both when the planner does not see it |
| `Display.DisplayLoop.CommitProtocol` | gadget/src/lib.rs:1265-1275 | what the planner is handed is the state just committed, with its plan still executable |
| `Display.DisplayLoop.CommitSnapshot` | drm/src/main.rs:4006-4078 | the plan is carried out exactly when it was made for the committed snapshot, and yields its route and slot; otherwise the scanout is retained and a mismatch is counted, and the waiting scanout is not shown again |
| `Display.DisplayLoop.CommitMismatch` | drm/src/main.rs:4014-4078 | a commit without a plan keeps the scanout and counts |
| `Display.DisplayLoop.SwitchTo` | drm/src/main.rs:4125-4292 | the old slot is borrowed only when its mapping is gone, and released unless it is the baseline; a switch is refused exactly when the kernel refuses the mappings or the mode, and changes nothing then |
| `Display.DisplayLoop.MakeActive` | drm/src/main.rs:4139-4190 | the shown and mapped target takes the active role, and the old scanout is given back unless it is the baseline; it fails exactly when the device refuses that |
| `Display.DisplayLoop.ShowCandidate` | drm/src/main.rs:4118-4281 | the candidate that was planned is the one that is shown; a refused switch leaves the plan executable |
| `Display.DisplayLoop.CommitCandidate` | drm/src/main.rs:4118-4308 | an exact candidate is shown under its own key, or given up; each refused switch is one remembered failure |
| `Display.DisplayLoop.ForgetCandidate` | drm/src/main.rs:4275-4314 | the refused candidate is given back and its pair enters the cache, where it was not before |
| `Display.DisplayLoop.AbandonCandidate` | drm/src/main.rs:4272-4323 | after a refused switch the retained scanout is presented scaled, with the reason, and the pair is in the cache |
| `Display.DisplayLoop.CommitBaseline` | drm/src/main.rs:4326-4427 | back on the baseline, or scaled on the retained scanout; the already-on-baseline arm is dead |
| `Display.DisplayLoop.Execute` | drm/src/main.rs:4085-4440 | each plan kind yields its route and its active slot, falls back exactly when the kernel refuses the switch, and shows exactly the planned scanout; falling back after a known failure sets no mode and changes no slot |
| `Display.DisplayLoop.RecordCommittedRoute` | drm/src/main.rs:2747-2781 | what a commit records, including the physical key that follows from the route |
| `Display.DisplayLoop.ActivateShadow` | drm/src/main.rs:2083-2116 | activating the shadow for a committed snapshot never fails, and leaves a valid raster of its size and format whose rows follow one another without padding |
| `Display.DisplayLoop.PresentWaitingSurface` | drm/src/main.rs:1884-1908 | the invariant survives; the waiting scanout is the next thing shown, in the mode of the active one, or nothing is, for exactly the reason given |
| `Display.DisplayLoop.HandleSession` | gadget/src/lib.rs:1072-1084 | a session event resets the protocol state; the candidate goes, and the plan with it unless the kernel keeps something of the candidate, exactly when the planner sees the event |
| `Display.DisplayLoop.Step` | drm/src/main.rs:3899-4457 | one event keeps the invariant and leads to the next moment by the relation Follows, or is a commit that ends at a device error |
| `Display.DisplayLoop.TearDown` | drm/src/main.rs:5577-5590 | nothing is held but failed releases, and every mapping is gone |
| `Display.DisplayLoop.ASlotIsFree` | drm/src/main.rs:3272-3286 | the occupied slots are the baseline, the active one and the candidate; exactly the active one is mapped; a next candidate has a slot |
| `Display.DisplayLoop.EverythingIsAccounted` | drm/src/scanout.rs:988-998 | handles, live bytes, peak and mappings agree in every reachable state: what is held is the latest on record, the record goes there change by change from startup on, and the peak is the largest total of the record; the live bytes are the lengths of all mappings of the slots and the waiting scanout; maps are unmaps plus two |
| `Display.DisplayLoop.LossIsRefusal` | drm/src/scanout.rs:1371-1397 | a lost allocation means a release that failed; the release of a replaced waiting scanout or of a partial allocation loses none |
| `Display.DisplayLoop.FailuresAreBounded` | drm/src/main.rs:4309-4323 | failed exact attempts of a whole run are at most quadratic in the catalog |
| `Moments.MissesOfRun` | drm/src/main.rs:4014-4078 | the misses of a run are those that its refused checks explain |
| `Moments.MissesAreRefusals` | drm/src/main.rs:4014-4078 | in a run no more commits miss their plans than candidates are lost in it, so none does while the kernel takes every candidate back |
| `Moments.TraceConcat` | drm/src/main.rs:3441-3764 | runs can be put together |
| `Moments.CommitShows` | drm/src/main.rs:4085-4440 | what a planned commit shows: the planned candidate or the baseline, if that takes a switch and the kernel grants it, and then the waiting scanout, if that was visible |
| `Moments.SessionEnds` | gadget/src/lib.rs:1072-1084 | the end of a session leaves nothing configured; if the planner sees it nothing stays staged, and no plan unless the kernel kept something of the candidate; otherwise both stay |
| `Moments.RejectionDrops` | drm/src/main.rs:3653-3747 | a rejected check and a commit with nothing pending do the same to the candidate and the plan |
| `Display.ExactRoutesAreKeyed` | drm/src/main.rs:3142-3164 | an exact route leads to a mode with the timing of its key |
| `Display.CatalogServes` | drm/src/main.rs:3177-3235 | what startup establishes for the loop |
| `Display.Start` | drm/src/main.rs:3220-3325 | startup succeeds exactly if the kernel grants both scanouts, their mappings and one of twenty mode sets, and the drawing succeeds; then the loop satisfies the invariant, nothing is configured, and the waiting scanout is what is shown |
| `Display.StartWaiting` | drm/src/scanout.rs:1022-1062 | the waiting scanout is created and counted, then drawn, then the baseline is mapped; all of it exactly as the kernel grants it |
| `Display.SetFirstMode` | drm/src/main.rs:3304-3326 | the first mode is tried until the kernel sets it, twenty times at most, and shown once |
| `Display.CapacityIsPositive` | drm/src/scanout.rs:122-129 | a mode with pixels gives the shadow a size |
| `Protocol.ProtocolState.CheckState` | gadget/src/lib.rs:1140-1222 | the pure transition: a new pending state under a new generation exactly when the request is accepted and the counter not exhausted; otherwise none |
| `Protocol.ProtocolState.CommitPendingState` | gadget/src/lib.rs:1265-1275 | the pure transition; what is committed is the latest successfully checked state |
| `Protocol.ProtocolState.ResetProtocolState` | gadget/src/lib.rs:1072-1084 | nothing pending, committed or enabled remains |
| `Protocol.ProtocolState.UpdateControllerEnabled` | gadget/src/lib.rs:1224-1232 | disabling the controller disables the display |
| `Protocol.ProtocolState.UpdateDisplayEnabled` | gadget/src/lib.rs:1234-1250 | the display is enabled only with the controller and a committed state |
| `Protocol.PendingIsLatestCheck` | gadget/src/lib.rs:1195-1222 | in any sequence of requests, what is pending was made by the latest check, accepted, under the generation it was given, with no commit or reset since |
| `Protocol.EnabledIsConfigured` | gadget/src/lib.rs:1224-1250 | the display is on only if the controller is, a state is committed, and no reset or disable followed the request that turned it on |
| `Protocol.AcceptedComesUp` | gadget/src/lib.rs:1195-1275 | an accepted state can be brought up from nothing: checked, committed and, with the controller on, displayed |
| `Protocol.AcceptsExactly` | gadget/src/lib.rs:1140-1193 | a check is accepted exactly if connector and format exist and some advertised mode has the requested timing; so every mode on offer is accepted |
| `Protocol.MissedByItsCheck` | drm/src/main.rs:2783-2792 | for any marking of checks as refused: what is pending lacks its plan if and only if the check of its own snapshot, the latest one, is marked |
| `Protocol.MissesBounded` | drm/src/main.rs:4014-4078 | each refused check makes one commit miss its plan at most, and without one none does |
| `Daemon.DisplayDaemon.Observe` | drm/src/main.rs:3653-3747 | the planner sees an invalidation exactly when nobody owns the endpoint and the loop goes on |
| `Daemon.DisplayDaemon.Serve` | drm/src/main.rs:3646-3747 | a request reaches both sides: a candidate and a plan survive the end of a session exactly when something owned the endpoint or an Unbind from idle ended the loop; a rejected check and a commit without a pending state do the same; while the endpoint is contained, only a lifecycle event reaches anybody |
| `Daemon.DisplayDaemon.Turn` | drm/src/main.rs:3441-3764 | one pass over both sides, in terms of what each side makes of it: the owner, the events the planner goes through, and exactly when the loop is left |
| `Daemon.DisplayDaemon.Tell` | drm/src/main.rs:3617-3747 | what a request is to the owner of the endpoint, what the planner is to see of it, and whether the loop goes on |
| `Daemon.PassMeans` | drm/src/main.rs:3646-3747 | what a pass makes of the display, moment to moment, for each request |
| `Daemon.OwnerMeans` | drm/src/main.rs:3653-3747 | what a request makes of the owner that it finds |
| `Shadow.ShadowFramebuffer.ActivateScaled` | drm/src/main.rs:2083-2116 | exactly the same raster with valid content keeps its pixels, any other starts black up to its length, and only a raster that does not fit is refused; width, height and pitch are those of the raster |
| `Shadow.MaxShadowBytesCover` | drm/src/scanout.rs:122-129 | the preallocated size covers every advertised mode |
| `Shadow.MaxShadowBytesReached` | drm/src/scanout.rs:122-129 | it is the size of one of them |
| `Shadow.RasterBytesExactly` | drm/src/main.rs:2083-2104 | the bytes of a raster are width times height times the bytes of a pixel, if the format is known and 64 bits suffice |
| `Shadow.AdvertisedIsAccepted` | gadget/src/lib.rs:1140-1193 | every advertised mode passes SET_STATE_CHECK |
| `Shadow.AcceptedStateIsServed` | gadget/src/lib.rs:1140-1193 | a state accepted by SET_STATE_CHECK has a catalog entry and fits the preallocated shadow |
| `Shadow.SameTimingSameKey` | gadget/src/lib.rs:927-939 | the check's comparison of modes is equality of catalog keys |
| `Modes.CatalogIsComplete` | drm/src/modes.rs:88-123 | every physical and synthetic timing is in the catalog |
| `Modes.CatalogFlags` | drm/src/modes.rs:125-128 | advertised flags are bits 0 to 9, 12 and 13, and bit 10 exactly for the preferred entry |
| `Modes.Catalogue` | drm/src/modes.rs:88-123 | the index built by the loop answers every key as the first match does |
| `Modes.MarkPreferred` | drm/src/modes.rs:125-128 | exactly the preferred entry carries the flag and every key survives |
| `Modes.FirstMatchIsFirst` | drm/src/modes.rs:175-177 | the linear scan returns the first entry of a key, or nothing if there is none |
| `Modes.NormalizeKeepsKey` | drm/src/modes.rs:180-187 | normalization keeps the key and sets the preferred flag as told |
| `Modes.SameKeyMeans` | drm/src/modes.rs:25-45 | keys compare nine numbers and the flag bits 0 to 9, 12 and 13 |
| `Modes.OnePreferred` | drm/src/modes.rs:129-140 | flags that mark one index are counted once |
| `Raster.SameSizeLayout` | drm/src/main.rs:2131-2162 | equal sizes are not scaled |
| `Raster.PixelOffset` | drm/src/main.rs:1552-1570 | an offset exactly for pixels inside the buffer, without wrapping |
| `Raster.FillSolid` | drm/src/main.rs:1670-1692 | refused exactly for an invalid raster; no pixel write is refused after validation |
| `Raster.PixelChannels` | drm/src/main.rs:1572-1599 | the channels can be read back from the bytes of a pixel, the lowest byte first |
| `Raster.FilledPixel` | drm/src/main.rs:1670-1692 | every visible pixel has the colour |
| `Raster.FilledElsewhere` | drm/src/main.rs:1634-1661 | row padding and the bytes behind the last row keep their values |
| `Raster.ScaleToFit` | drm/src/main.rs:2165-2221 | refused, with nothing written, exactly for a zero size or an invalid raster; otherwise the scaled image over black |
| `Raster.ScalePixel` | drm/src/main.rs:2208-2217 | every index is in bounds and no 64-bit product or sum wraps |
| `Raster.SampledIsQuotient` | drm/src/main.rs:2205-2217 | the sampled coordinate is the rounded-down quotient |
| `Raster.ScaledBorder` | drm/src/main.rs:2196-2203 | visible pixels outside the layout are black |
| `Raster.ScaledBorderIsZero` | drm/src/main.rs:2196-2203 | and every byte of them is zero |
| `Raster.ScaledElsewhere` | drm/src/main.rs:2205-2218 | row padding and trailing bytes are unchanged |
| `Raster.ScaledSameSize` | drm/src/main.rs:2205-2218 | an image of the same size is copied exactly |
| `Transfer.CopyBufferToFramebuffer` | gadget/src/lib.rs:2456-2530 | refused, with nothing written, exactly when the rectangle or payload does not fit in 64-bit arithmetic; otherwise the rectangle is written |
| `Transfer.CopyFitsExactly` | gadget/src/lib.rs:2456-2510 | no overflow decides: the copy is carried out exactly if payload, rows and buffer are large enough |
| `Transfer.CopiedInside` | gadget/src/lib.rs:2512-2523 | byte for byte, row for row, the rectangle is the payload |
| `Transfer.CopiedOutside` | gadget/src/lib.rs:2512-2523 | all other bytes are unchanged |
| `Transfer.AcceptedSize` | gadget/src/lib.rs:1926-1930 | the read that an accepted upload asks for has at least one byte and at most those of its pixels, and all of them if it is uncompressed |
| `Transfer.AcceptedFits` | gadget/src/lib.rs:1292-1372 | an accepted upload fits every raster that holds the committed mode |
| `BulkRead.LastRequest` | gadget/src/lib.rs:1736-1745 | the last request is the remainder of the length |
| `BulkRead.RequestIsRest` | gadget/src/lib.rs:1736-1745 | a request is a whole read, or what is left of the length |
| `BulkRead.ReceivedAt` | gadget/src/lib.rs:1746-1800 | byte for byte, a read leaves those before it alone and comes right behind them |
| `BulkRead.AcceptableExactly` | gadget/src/lib.rs:1713-1734 | any payload that is not empty can be read with any positive multiple of 512 bytes a call |
| `BulkRead.CallsCover` | gadget/src/lib.rs:1735-1838 | the calls needed are the length divided by the read size, rounded up |
| `BulkRead.ClassifyExact` | gadget/src/lib.rs:1677-1689 | a completion is exact just when it returns what was asked for, and short just when it returns less |
| `RowCrc.BitStepReversible` | drm/src/main.rs:2357-2360 | one step of the division loses no information |
| `RowCrc.PolynomialExponents` | drm/src/main.rs:2352-2363 | the exponents of the polynomial: 26, 23, 22, 16, 12, 11, 10, 8, 7, 5, 4, 2, 1 and 0, next to 32 |
| `CrcRegister.FoldByTable` | drm/src/main.rs:2352-2363 | folding bit by bit and updating by table give the same register |
| `CrcRegister.FoldReversible` | drm/src/main.rs:2354-2361 | what a row does to the register can be undone |
| `CrcRegister.FoldPacked` | drm/src/main.rs:2354-2361 | four bytes act on the register as one addition |

## Left out

- ReceiveLoop.EventLoop.Run: says nothing about a boundary being retired eventually. A bad first GET_STATUS drops the pending record while its read is still queued, and such a boundary can wait forever; so can one whose read the endpoint could not be polled for.
- ReceiveLoop.EventLoop.ProcessReady: a payload that survived containment is still presented before the loop fails, so no claim is made that a poisoned session touches no framebuffer.
- Transfer.AcceptedFits: is stated at admission. A commit may fall between admission and processing, and then the rectangle is measured against another mode.
- Raster.FillSolid: colours are bytes of a pixel; reading pixels back and the diagnostic patterns are not modelled.
- Display.DisplayLoop.PresentWaitingSurface: does not claim that the waiting screen hides content; a scaled route flips to its back buffer regardless.
- Scanout.Create: allocations and the waiting scanout are values that are passed on, as each is owned by one box in the source; their released flag, which nobody reads after release, is not modelled. Nor are page flips: the front buffer is always the first one, while in the source a retained baseline may come back with its second one in front. The mapping of the active slot is the set of mapped slots, not the bytes.
- Display.Start: a connector without modes is not modelled.
- Display.DisplayLoop.Run: whether the planner sees an invalidation is a choice of each event there; `Daemon.DisplayDaemon.Run` decides it from the owner of the endpoint. Uploads are a part of neither: there the waiting scanout that one may bring up is an event of its own, here they concern the endpoint alone.
- Daemon.DisplayDaemon.Iterate: a lifecycle event first shows the waiting scanout and then resets the protocol state, in the source the other way round; neither step looks at what the other changes. Resuming shows content again, which is not modelled.
- The blocking, prearmed and bounded diagnostic receive modes, and the tools around the daemon: they are used for diagnosis, and would blur the production invariants.
- LZ4 decompression and wire serialization: a payload of the declared length and a decoded request are taken as given.
- The status byte latch, connector status, logging, telemetry counters and elapsed times.
- Page flips, dirty rectangles and the choice of the visible surface: they do not move a slot, a mapping or a route.
- Dynamic mode matching switched off, and the shadow that is not preallocated: not used in production.
- The kernel side of FunctionFS, io_submit and DRM: completions, events and results of calls are arbitrary. A handle is new whenever it is made, so that the outcome of its one release can be a property of the handle.

# The unattended-update protocol of unoq-ota

A Dafny model of the part of unoq-ota that updates an Arduino UNO Q with nobody near it, and proofs of what it
promises: the update cycle over a persisted state file, a handful of image files, a host directory tree and a
microcontroller; the boot reconciler that has to rescue it from any point; and the satellite machines that share its
crash style - the host-tree swap, the event journal and the IoT Jobs listener.

## How it is built

`World.dfy` is a state machine. `World` is everything a device holds, `Event` one atomic step or observation, `Step`
what it does and `Legal` when the protocol allows it. The class `Device` holds the world and the trace of how it got
there, and its one way to change, `Emit`, demands that the step is legal. `Agent.dfy`, `Rollback.dfy`, `Cycle.dfy` and
`Reconciler.dfy` are the code's own methods, step by step over a `Device`, each proved against what it must leave
behind, for every value of `Answers`: whatever a collaborator answers or raises, whichever state writes are lost,
whichever files cannot be read. `Safety.dfy` and `HostSafety.dfy` prove what every legal run keeps. Legal runs are closed under prefixes,
so a power cut between any two steps is a run that stops, and every statement over runs holds at every such point.
`Lifetime.dfy` puts boots, recoveries, cycles and power cuts together.

The contracts of the methods name the conditions that the code itself tests. So that none of these is stated only by
itself, each is told a second time from the manifest's fields, the bytes of the files and the answers of the
collaborators, and the two are proved equivalent: `Decision.dfy` says what a cycle ought to return and leave, and that
it does; `Reader.dfy` reads the signed text back by the grammar of RFC 8259; the other modules have such statements
beside their code (`Verify.Genuine`, `Artifact.IsArtifact`, `Reconciler.AsTold`, `Persistence.StandsFor`,
`Json.SpellsInt`, `Health.SpellsReport`, `Journal.OnceEachInOrder`, `Jobs.Satisfied`).

Atomic replacement of a file, of the state file and of a directory name is one step. Copying bytes, removing a tree,
unpacking an archive, appending to the journal and writing its offset are many, and may stop after any of them.

| file | models |
|---|---|
| World.dfy, Safety.dfy, HostSafety.dfy | the state machine, and what its runs keep |
| Agent.dfy, Rollback.dfy, Cycle.dfy | unoq_ota/agent.py |
| Decision.dfy | what unoq_ota/agent.py is to do, told from its inputs alone |
| Reconciler.dfy, Lifetime.dfy | unoq_ota/reconciler.py, and whole lives of a device |
| Host.dfy | unoq_ota/host.py |
| StateStore.dfy, Persistence.dfy | unoq_ota/state.py, and that the protocol's record is what its file loads as |
| Verify.dfy, Canonical.dfy, Json.dfy, Decimal.dfy | unoq_ota/verify.py and the text it signs |
| Reader.dfy | a reader of that text, independent of what writes it |
| Artifact.dfy | unoq_ota/artifact.py and the drift check of unoq_ota/preflight.py |
| Health.dfy | unoq_ota/health/version_report.py |
| Journal.dfy | unoq_ota/events.py |
| Jobs.dfy | unoq_ota/jobs_runner.py, unoq_ota/jobs_doc.py |

## Where the code does not do what one might expect

The model follows the code. Each of these is stated with the exact condition under which the expectation holds.

- The documentation of `apply_host_tree` promises the old or the new tree under the live name after a crash. Between
  its two renames there is neither: an apply over a live tree passes through such a state exactly if the payload
  unpacks, a stale `.previous` can be removed, and the first rename works (`Host.HostSite.Apply`). Another apply from
  there removes the only copy of the old tree (`Host.ApplyAfterGapLosesOldTree`).
- The documentation promises that if either side fails its health check both roll back. A failed host side, and the
  rollback that the agent always attempts after it, leave the live tree as it was in exactly these cases
  (`Host.Undone`; `Host.RestoredExactlyWhen`, `Agent.HostRestored`, `Cycle.BackedOutHost`): the apply returned, there
  was a live tree before, and the rollback puts it back; or the apply stopped at its renames, and nothing was displaced
  or the rollback puts it back; or the apply stopped before them, and there was no `.previous` or the rollback fails
  before it touches the live name. "Exactly" is meant for trees that are told apart, so that none is found live again by
  accident. The inputs that break the promise: a device's first payload, with no older tree to go back to, stays live
  while the MCU is rolled back (`Host.FirstPayloadStaysLive`, `Cycle.FirstPayloadIsKept`); an archive that does not
  unpack brings an older tree back (`Host.FailedExtractionBringsBackStaleTree`); a `.previous` whose own directory
  cannot be removed goes live empty (`Host.EmptiedTreeGoesLive`). A torn tree goes live only when a rollback restores a
  `.previous` that an interrupted removal had torn (`HostSafety.AlwaysWholeExactlyWhen`).
- A flash that fails is not rolled back, even if it got as far as the erase (`Cycle.FailedFlashIsNotRolledBack`).
- Attempts are never reset, and the cap is looked at before the watermark, so a version that commits on its last
  attempt is rejected and poisoned when it is offered again, and otherwise not (`Cycle.PoisonedByItsOwnCommit`).
- `load_artifact` turns an unreadable staged file into the error that condemns a version. A version whose manifest and
  files would pass every check is poisoned exactly if the read for the load fails (`Agent.CondemnedByFailedRead`,
  `Cycle.FailedReadPoisons`).
- The recorded versions name what is in current.bin and previous.bin, except after a cycle that ended between the first
  replaced file and the saved commit: by a power cut, a copy that failed, a state file that could not be read, or a save
  that was lost. Each label is then right in exactly the cases of `Safety.LabelsAfterCutInWindow`; for the failed copy,
  which needs no power cut, they are stated over the whole cycle in `Cycle.LabelsAfterFailedCopy`. A wrong label makes a
  rollback pass over good firmware (`Rollback.HonestQualifiesIfRightlyLabelled`).
- The documentation says a corrupt state file must never crash the agent. It does exactly if the file is not UTF-8: then
  every later admission raises, and nothing the agent writes replaces the file (`Persistence.BarredAfter`).
- The guard against an offset beyond the end of a journal that was cut short by hand holds only until the journal has
  grown past it without a successful flush; the lines that end by the stale offset are then not posted
  (`Journal.StaleOffset`, `Journal.RecordAfterShortening`).
- The phase on disk is the phase returned exactly if the write of that one phase got through - or if none of the
  cycle's phases did and it was on disk already (`Safety.PhaseOnDisk`, `Cycle.ReturnedPhaseOnDisk`). The exits that
  have nothing to do store nothing (`Cycle.OldNewsStoresNothing`).

## Model

| member | source | states |
|---|---|---|
| World.Device.PowerCut | unoq_ota/agent.py:3-4 | After a cut at `k` nothing later has happened to the disk, the board or the host, and the process is gone |
| Safety.BudgetInvariant | unoq_ota/agent.py:497-511 | At every point, flash starts of a version plus the attempt charged and not yet spent are covered by its recorded and its lost attempts |
| Safety.FlashBudget | unoq_ota/agent.py:305-314 | Over any run with power cuts, a version's staged image starts being flashed at most as often as it had attempts left, plus the attempts whose record was lost |
| Safety.SignedOfferInvariant | unoq_ota/agent.py:434-436 | Whatever a session treats as signed was found authentic by a step of this very run |
| Safety.LineageInvariant | unoq_ota/agent.py:523-543 | Everything the session believes is backed by the trace, and the image files are whole and known, at every point |
| Safety.ImageLineage | unoq_ota/agent.py:233-253 | At every crash point current.bin and previous.bin are provisioned or passed verification, load and health under their own version, in that order; golden.bin never changes |
| Safety.VouchedWasEndorsed | unoq_ota/agent.py:432-436 | An image that was vouched for under a version loads, and some offer of that version, whose manifest this run found authentic when it checked it and which is for this board, declares its digest |
| Safety.EveryFlashIsTrusted | unoq_ota/reconciler.py:85-124 | What the agent starts flashing as an update loads and was signed and digest-checked before under that very version; what it or the reconciler reflashes loads and was that, or provisioned |
| Safety.HostStaysSound | unoq_ota/host.py:42-102 | Host trees stay well formed over every run |
| HostSafety.HostInvariant | unoq_ota/host.py:45-48 | At every point of every run the live tree and `.previous` are each part of one known tree, and the staged payload is the digest-checked one or gone |
| HostSafety.HostNeverMixed | unoq_ota/host.py:45-48 | At every crash point of every life neither the live tree nor `.previous` is a mix: each is one tree that was there at the start or one endorsed payload, with at most entries removed |
| HostSafety.AlwaysWholeExactlyWhen | unoq_ota/host.py:80-93 | The live tree is a whole known tree at every point of a life if and only if no rollback restored a `.previous` that an interrupted removal had torn |
| HostSafety.DisplacedOnlyForWholePayload | unoq_ota/host.py:73-77 | An update empties the live name only with its whole, signed and digest-checked payload at `.next` and the whole old tree going to `.previous` |
| Safety.PoisonProvenance | unoq_ota/agent.py:437-454 | An attempt or the poison is put on a version only if a manifest offered as that version passed signature, window and sequence, or it was capped to begin with |
| Safety.SignedMeansAuthentic | unoq_ota/verify.py:294-316 | What a `Signed` event stands for: at some step the offer of its cycle was that version, and a trusted key verified the canonical text of its manifest, which was within its window at the instant then read and newer than the sequence then on disk; its own version field names it |
| Safety.BlamedByASignedManifest | unoq_ota/agent.py:437-454 | A version that gained an attempt or became poisoned is named by the signed version field of a manifest that was authentic at the step that checked it, against the clock and the stored sequence of that step |
| Safety.PoisonIsForever | unoq_ota/agent.py:305-314 | Once poisoned a version stays poisoned, and is never fetched nor flashed as an update again, over any run |
| Safety.WatermarkStep | unoq_ota/agent.py:544-554 | No step lowers the watermark; a persisted commit or stamp raises it strictly, to that very sequence |
| Safety.WatermarkNeverFalls | unoq_ota/agent.py:316-318 | The watermark is monotone over every run, wherever it is cut |
| Safety.VerifiedMeansReached | unoq_ota/agent.py:316-326 | A cycle that reported VERIFIED has the stored watermark at its offer's sequence or above |
| Safety.SequencesIncrease | unoq_ota/agent.py:544-554 | Persisted commits and stamps carry strictly increasing sequences, across cycles and boots |
| Safety.NothingOldIsFetched | unoq_ota/agent.py:316-326 | Nothing is ever fetched for an offer at or below the watermark of any earlier moment, the start of the life included |
| Safety.CommitCarriesSignedSequence | unoq_ota/verify.py:114-129 | The sequence persisted is that of the offer of its cycle, whose manifest this run found authentic, and is that manifest's own |
| Safety.VerifyOnlyChangesNothing | unoq_ota/agent.py:468-476 | In verify-only mode no run changes an image file, the host tree, the committed sequence or a recorded version |
| Safety.VerifyOnlyKeepsMcu | unoq_ota/agent.py:468-476 | In verify-only mode no cycle starts a flash or changes the MCU |
| Safety.PhaseOnDisk | unoq_ota/agent.py:174-196 | The phase on disk is the last one the cycle set if that write got through, and otherwise the one that was there before it |
| Safety.LabelInvariant | unoq_ota/agent.py:525-550 | Inside a commit the recorded versions are one commit behind the files, outside it they match them |
| Safety.LabelsTrack | unoq_ota/agent.py:211-216 | Over runs with clean commits and honest health reports, each recorded version is absent or is what the file's image reports, across drift discards and rollbacks |
| Safety.LabelsAfterCutInWindow | unoq_ota/agent.py:525-554 | A cycle that ends inside the commit, however it does, leaves the label of current.bin right exactly if the file was not replaced or no version, or the update's own, was recorded; that of previous.bin, given a recorded version, exactly if it was not replaced or no previous version, or the same one, was recorded |
| Agent.TryStore | unoq_ota/agent.py:168-172 | A write is stored or lost, and nothing else happens |
| Agent.Set | unoq_ota/agent.py:174-196 | Only phase, version and core version can change on disk; the session remembers the phase that was tried |
| Agent.UnlinkStaged | unoq_ota/agent.py:285-288 | Both staged files are gone, or an unlink raised; no image file is touched |
| Agent.Admit | unoq_ota/agent.py:299-326 | Exactly when an offer is refused, is old news, goes on, or its state cannot be read - and what each leaves |
| Agent.Preflight | unoq_ota/agent.py:344-405 | The clock, the disk or the fetch gate defer without changing the record |
| Agent.FetchPayloads | unoq_ota/agent.py:409-430 | Succeeds exactly when every payload was delivered, and then the staged files are what was delivered |
| Agent.Download | unoq_ota/agent.py:407-430 | A failed download is reported, stored as idle, and counts against nobody |
| Agent.PoisonableIsAuthentic | unoq_ota/verify.py:294-316 | Any verdict but a plain refusal means signature, window and sequence passed |
| Agent.Examine | unoq_ota/agent.py:434-466 | The check's conclusion is the verdict's and the loader's, and the session learns exactly what was established |
| Agent.CondemnedByFailedRead | unoq_ota/artifact.py:65-70 | A staged file that passed its digest check and would load is condemned exactly if the read for the load fails |
| Agent.Condemn | unoq_ota/agent.py:444-454 | One attempt and the poison are put on the version, as far as the disk allows, and nothing else |
| Agent.VerifyStaged | unoq_ota/agent.py:432-466 | Passed, transient or condemned, as verification and load of the staged files conclude; and the exact record, the session and the files after each |
| Agent.VerifyOnly | unoq_ota/agent.py:468-476 | Exactly when the verified sequence is stamped; then no staged file is left, otherwise the exception leaves the record alone |
| Agent.Program | unoq_ota/flasher.py:151-159 | The MCU after a flash that stopped before the erase, after it, or after the write |
| Agent.FlashWith | unoq_ota/flasher.py:151-159 | One flash start in the trace; the MCU is torn, whole or untouched as the tool's answer says; too large an image never reaches the board |
| Agent.DropDrifted | unoq_ota/agent.py:486-495 | current.bin is dropped exactly when the drift check says so and the unlink works |
| Agent.ChargeAndFlash | unoq_ota/agent.py:497-511 | The attempt is written before the board is touched, and one flash is started |
| Agent.StageAndFlash | unoq_ota/agent.py:478-518 | How staging, gate, drift check and flash end, and the MCU, the files and the record after each |
| Agent.HostRestored | unoq_ota/agent.py:259-283 | A failed host side leaves the live tree as it was in exactly the cases of `Host.Undone`, for trees that are told apart |
| Agent.SwapHost | unoq_ota/agent.py:268-283 | Succeeds exactly when apply, restart and health check all do; otherwise the rollback has been attempted from exactly what the failed apply left, and what is live afterwards is what that rollback leaves there |
| Agent.HostSide | unoq_ota/agent.py:259-283 | The same over the device, with every intermediate host state in the trace; without a host payload nothing is touched |
| Agent.AtomicCopy | unoq_ota/agent.py:233-253 | The destination is the whole copy or exactly what it was, and no temporary file is left |
| Agent.CopyImages | unoq_ota/agent.py:524-543 | Both copies: the displaced image becomes previous and the staged one current; a failure leaves current.bin alone, and previous.bin as the first copy left it |
| Agent.CommitUpdate | unoq_ota/agent.py:523-556 | Exactly when a commit is reported, and the exact record it leaves: the update's sequence and version and the displaced image's version, unless the write is lost |
| Rollback.MeetsSpecification | unoq_ota/agent.py:573-631 | With labels readable, rolled back to the first candidate that qualifies, rejected if and only if none does |
| Rollback.HonestQualifiesIfRightlyLabelled | unoq_ota/agent.py:604-612 | Firmware that comes alive as what it is qualifies if and only if the version recorded for its file, if one is, is the one it reports |
| Rollback.HonestCandidateQualifies | unoq_ota/agent.py:604-612 | Over runs with clean commits, honest firmware other than the failed version is never passed over for a label |
| Rollback.TryCandidate | unoq_ota/agent.py:573-620 | One turn: reflashed exactly if usable, and restored only onto an MCU that runs this candidate |
| Rollback.TryCandidates | unoq_ota/agent.py:573-620 | The loop ends at the first turn that settles it, having reflashed exactly the usable candidates up to there |
| Rollback.RollBack | unoq_ota/agent.py:558-631 | Poison and phase as far as the disk allows, then the loop whatever those did, and the exact record; the files and the host are left alone |
| Cycle.Deliver | unoq_ota/agent.py:290-430 | Exactly when an offer is fully downloaded, exactly when it is reported as already verified, and the outcome and record of every other exit |
| Cycle.VerifyDelivered | unoq_ota/agent.py:432-466 | Over a complete download, what verification concludes, and the outcome and record of each conclusion |
| Cycle.Prepare | unoq_ota/agent.py:290-466 | Exactly when a cycle gets past everything that can stop it before the board is touched, with the fetched bytes staged; otherwise the exact outcome and record |
| Cycle.StampOnly | unoq_ota/agent.py:468-476 | Verify-only mode's last step, as the ending of its whole cycle |
| Cycle.CheckBothSides | unoq_ota/agent.py:517-522 | The host side is tried only after the MCU is healthy; true exactly when both sides run the update |
| Cycle.CommitBoth | unoq_ota/agent.py:523-556 | What a cycle whose two sides run the update leaves, committed or not, and the exact record |
| Cycle.BackOut | unoq_ota/agent.py:558-631 | What a cycle with a side that does not run the update leaves, restored or not |
| Cycle.Settle | unoq_ota/agent.py:517-631 | Committed or backed out, with the MCU, the host, the files, the exact record and the flashes of each |
| Cycle.Attempt | unoq_ota/agent.py:299-631 | How a cycle ends for an offer, in terms of the world it started from |
| Cycle.RunOnce | unoq_ota/agent.py:290-631 | The whole cycle: one of four endings, each with the MCU, the host, the image files, the flashes and the exact record it leaves; what is returned is what was last tried to be stored, and every offer has been reported on |
| Cycle.RecordAtTheEnd | unoq_ota/agent.py:497-561 | A cycle that was to go on adds one attempt exactly if the board was to be touched, the poison exactly if it backed out, the sequence and both versions exactly if it committed - each unless its write was lost - and changes nothing else that lasts |
| Cycle.ReturnedPhaseOnDisk | unoq_ota/agent.py:174-196 | The phase on disk is the one returned if and only if its own write got through, or none of the cycle's phases did and it was there already |
| Cycle.OldNewsStoresNothing | unoq_ota/agent.py:318-326 | An offer that is old news returns IDLE and leaves the record as it was |
| Cycle.FailedReadPoisons | unoq_ota/agent.py:434-454 | A delivered offer that would pass every check is rejected if and only if the read for the load fails, and then charged and poisoned as far as the disk allows |
| Cycle.CommitsExactlyWhen | unoq_ota/agent.py:478-556 | COMMITTED exactly if the gate agrees, the flash returns, both sides are healthy, the copies succeed and the state can be read |
| Cycle.CommittedMeansCoupled | unoq_ota/agent.py:519-556 | COMMITTED means the MCU runs the authentic, digest-checked image that is now current.bin, the coupled host payload is live with the old tree kept, and the board was flashed once |
| Cycle.CommitSurvivesDriftCheck | unoq_ota/preflight.py:95-118 | Right after a commit, with no outside writer and an SWD read that succeeds, the drift check keeps current.bin |
| Cycle.CommittedVersionOfferedAgain | unoq_ota/agent.py:305-326 | A committed version offered again is reported verified exactly if it is not barred; else it is rejected and poisoned |
| Cycle.PoisonedByItsOwnCommit | unoq_ota/agent.py:305-326 | Two cycles for one offer: after a persisted commit, the second reports it verified if attempts were left, and rejects and poisons the running version if the commit needed the last one |
| Cycle.BackedOutHost | unoq_ota/agent.py:259-283 | Backing out leaves the host untouched if the MCU failed first; otherwise the live tree is as it was in exactly the cases of `Host.Undone`, for trees that are told apart |
| Cycle.FirstPayloadIsKept | unoq_ota/agent.py:268-283 | A first host payload whose restart or health check fails stays live, though the MCU is rolled back |
| Cycle.RolledBackExactlyWhen | unoq_ota/agent.py:573-631 | Seen over the whole cycle: rolled back to the first qualifying candidate, which the MCU runs; rejected exactly if none qualifies |
| Cycle.NoHonestCandidateIsPassedOver | unoq_ota/agent.py:591-620 | In a life with clean commits and honest reports, a cycle that backs out is rolled back to the first candidate that reports what its image is, at the latest |
| Cycle.LabelsAfterFailedCopy | unoq_ota/agent.py:525-543 | After a commit copy that failed, current.bin is rightly labelled; previous.bin is exactly if it was not replaced or, given a recorded version, no previous version or the same one was recorded |
| Cycle.AtMostFourFlashes | unoq_ota/agent.py:509-582 | A cycle flashes the update at most once and first, then at most one of each rollback candidate, and those only when it backs out |
| Cycle.FailedFlashIsNotRolledBack | unoq_ota/agent.py:512-515 | An update that passed every check and cannot be flashed ends its cycle idle after that one flash, with the MCU as the flash left it: erased, if it got that far |
| Decision.OutcomeAsDecided | unoq_ota/agent.py:290-631 | What a cycle returns, or that it raises, is what the manifest, the record, the bytes and the answers call for, condition by condition |
| Decision.CommittedMeansHealthy | unoq_ota/agent.py:268-283 | Nothing is committed unless the MCU is healthy and a host payload, if there is one, was unpacked, restarted and found healthy |
| Decision.UnhealthyHostIsBackedOut | unoq_ota/agent.py:274-283 | A flashed update whose host side does not restart or is found unhealthy is backed out, with the outcome of the rollback |
| Decision.EndingAsDecided | unoq_ota/agent.py:290-631 | Which of the four endings a cycle comes to, told from its inputs |
| Decision.McuAsDecided | unoq_ota/agent.py:497-620 | The MCU is left alone, as the flash left it, or with the image that the rollback put back, each exactly when called for |
| Decision.ImagesAsDecided | unoq_ota/agent.py:486-543 | current.bin, previous.bin and golden.bin after the cycle: untouched, dropped for drift, or replaced as far as the copies went |
| Decision.HostAsDecided | unoq_ota/agent.py:259-283 | The host tree is touched only after a healthy flash of an update with a payload; the committed tree is the unpacked payload with the old one kept; and when a failure leaves the live tree as it was |
| Decision.FlashesAsDecided | unoq_ota/agent.py:509-582 | Every flash of a cycle, in order: the update once, then the usable ones of current.bin, previous.bin and golden.bin up to the one that settles the rollback |
| Decision.RecordAsDecided | unoq_ota/agent.py:299-561 | Attempt, poison, verify-only stamp and commit get onto the record exactly when called for and the disk takes them; nothing else that lasts changes |
| Decision.LastWriteLands | unoq_ota/agent.py:174-196 | If the write of the returned phase gets through, the record shows that phase, and the version while the update is still at issue |
| Decision.CheckAgrees | unoq_ota/agent.py:432-466 | An update passes, or is held against its version, exactly as manifest, payloads, clock and reads say: a genuine manifest with a wrong board or digest is condemned |
| Decision.DriftAgrees | unoq_ota/agent.py:486-495 | current.bin is dropped exactly if the unlink works and the resident header, when it can be read, does not have its length and magic |
| Reconciler.TryCandidate | unoq_ota/reconciler.py:85-124 | One candidate: reflashed exactly if present and loadable; alive only with the MCU running it |
| Reconciler.Reconcile | unoq_ota/reconciler.py:70-126 | Nothing if the board responds; otherwise the first of current.bin, previous.bin and golden.bin that is present, is an artifact, fits, flashes and makes it respond, after flashing exactly the good ones before it; exhausted if none does |
| Reconciler.ExhaustedIffNoneWorks | unoq_ota/reconciler.py:82-126 | Recovery fails if and only if the board does not respond and none of the three files works |
| Reconciler.RevivesIffWorks | unoq_ota/reconciler.py:85-124 | A candidate counts exactly if it is present, loads, is an artifact byte by byte, fits, is taken by the board and makes it respond |
| Reconciler.GoldenAlwaysSaves | unoq_ota/reconciler.py:13-29 | Whatever the other candidates answer or raise, a good golden.bin with a working flash ends healthy |
| Lifetime.RunCycles | unoq_ota/cli.py:269-276 | Any number of cycles, each with its own offer, one after another |
| Lifetime.LiveOnce | unoq_ota/agent.py:3-4 | A boot with recovery and cycles, cut after any number of its steps |
| Lifetime.Live | unoq_ota/agent.py:3-8 | Any number of such boots: flash budget, image and host-tree lineage, watermark, poison and verify-only guarantees hold at the end of every life |
| Lifetime.RecoverAfter | unoq_ota/reconciler.py:1-11 | From wherever any life was cut, a good golden.bin with a working flash brings the board back |
| Host.RollbackFromApplyPoint | unoq_ota/host.py:80-93 | Rolling back from any point of an apply gives the old tree if nothing of a stale `.previous` is left and, where nothing was live before, nothing is; unless the live tree is a remainder of the stale one, only then |
| Host.RestoredExactlyWhen | unoq_ota/agent.py:268-283 | An apply and the rollback after it, whatever either meets, leave the live tree as it was in exactly the cases of `Host.Undone`, for trees that are told apart; over an archive that does not unpack only the rollback counts |
| Host.ApplyAfterGapLosesOldTree | unoq_ota/host.py:73-77 | An apply that starts from the gap of an earlier one loses the old tree for good |
| Host.FailedExtractionBringsBackStaleTree | unoq_ota/host.py:66-71 | Apply and rollback over an archive that does not unpack, with a stale `.previous`: the stale tree is live afterwards |
| Host.EmptiedTreeGoesLive | unoq_ota/host.py:73-74 | Apply and rollback over a `.previous` whose own directory cannot be removed: an empty directory is live afterwards |
| Host.FirstPayloadStaysLive | unoq_ota/host.py:75-86 | Apply and rollback with nothing at any of the four names: the new payload is live afterwards |
| Host.HostSite.RmTree | unoq_ota/host.py:96-102 | Removes exactly the subtree, or raises exactly if something in it is stuck, leaving only its root if nothing below that is; no state on the way touches anything outside; terminates by the subtree's size |
| Host.HostSite.Unpack | unoq_ota/host.py:52-71 | Exactly when `.next` holds the whole payload; no other slot is touched at any point |
| Host.HostSite.MakeWay | unoq_ota/host.py:52-74 | Exactly when the payload is unpacked and a stale `.previous` gone; otherwise exactly what is left of `.previous`; the live tree is never touched |
| Host.HostSite.Swap | unoq_ota/host.py:75-77 | The two renames, and exactly what is left when either raises; the state with nothing live between them occurs over a live tree exactly if the first one works |
| Host.HostSite.Apply | unoq_ota/host.py:42-77 | Exactly when it returns, what it leaves whether it returns or raises - from its renames on, exactly - that every state on the way is an apply point, and exactly when one of them has nothing live |
| Host.HostSite.SwapBack | unoq_ota/host.py:89-91 | The two renames back, and exactly what is left when either raises |
| Host.HostSite.Rollback | unoq_ota/host.py:80-93 | Exactly when it returns, what it leaves, what is live whether it returns or raises, and that the tree being restored is whole in every state on the way |
| StateStore.RoundTrip | unoq_ota/state.py:141-176 | Loading what was saved gives the same state, for every state |
| StateStore.OneFieldOnly | unoq_ota/state.py:145-161 | Replacing one field of the document by anything changes only what that field is read as |
| StateStore.FieldsMean | unoq_ota/state.py:52-104 | Every field of a document is read as the text, the number, the counts or the entries it holds, and as nothing or zero where it holds something else |
| Json.IntOfTextExactly | unoq_ota/state.py:98-103 | A text is read as an integer exactly if it is white space, a sign, digits with single underscores, and white space, and as the number they spell |
| StateStore.LoadIsIdempotent | unoq_ota/state.py:114-176 | Whatever a file holds that loads at all, saving what was loaded and loading again changes nothing |
| StateStore.PhaseRoundTrip | unoq_ota/state.py:80-90 | Every phase survives its own name |
| StateStore.PhaseExactly | unoq_ota/state.py:24-34 | Each phase has its own name on disk and is read back from it; anything else is read as idle |
| StateStore.WithAttempt | unoq_ota/state.py:181-184 | One version's count goes up by one, every other count stays |
| StateStore.WithPoison | unoq_ota/state.py:186-190 | One version is added to the poisoned, none is lost |
| StateStore.Store.Save | unoq_ota/state.py:163-176 | The file loads as the saved state, or is untouched if the disk failed |
| StateStore.Store.RecordAttempt | unoq_ota/state.py:181-184 | The file loads with exactly one count raised, or is untouched |
| StateStore.Store.Poison | unoq_ota/state.py:186-190 | The file loads with exactly one version poisoned, or is untouched |
| Persistence.Perform | unoq_ota/state.py:163-190 | Every write of the protocol, made through the store, leaves the document of the changed record, or the file as it was |
| Persistence.ReadBarred | unoq_ota/agent.py:305-306 | The two reads of admission, poison list first, decide whether the version is barred, or that the file cannot be read |
| Persistence.Mirror | unoq_ota/state.py:110-193 | A store that goes through the writes of any run holds the document of that run's record, or what it held if none got through; a file that cannot be loaded is never replaced |
| Persistence.BarredAfter | unoq_ota/state.py:114-140 | From every kind of file and after any run: a missing or corrupt file is a fresh device, a saved one its record, and admission reads back whether the version is poisoned or capped; it raises exactly if the file cannot be read or is not UTF-8, and then no write replaces it |
| Verify.SignatureAcceptedIffTrusted | unoq_ota/verify.py:82-111 | The signature check passes exactly if the block names Ed25519 and a trusted key, and that key verifies the decoded signature over the canonical text |
| Verify.UnsignedIsRefused | unoq_ota/verify.py:105-111 | If no trusted key verifies anything over the canonical text, the verdict is a plain refusal, whatever else the manifest holds |
| Verify.PayloadVerdict | unoq_ota/verify.py:302-316 | A payload is accepted exactly if it can be read and hashes to the non-empty digest its block declares, and held against the version exactly if the block declares none or the bytes differ |
| Verify.WindowAcceptedIffWithin | unoq_ota/verify.py:164-180 | The window check passes exactly if each bound that is there parses and is kept |
| Verify.TargetAcceptedIffNamesBoard | unoq_ota/verify.py:202-259 | The target check passes exactly if the block names this board, its flash offset, and no other size or link mode |
| Verify.WindowIsAnInterval | unoq_ota/verify.py:164-180 | A manifest valid at two instants is valid at every instant between them |
| Verify.BoundsAreKept | unoq_ota/verify.py:164-180 | A bound that is present parses and is kept: never valid before `not_before`, never again after `expires` |
| Verify.VerdictMeaning | unoq_ota/verify.py:294-316 | All three verdicts, from the manifest's fields, the clock and the bytes: accepted exactly if every check passes; poisonable exactly if a genuine manifest has a wrong board or digest; plainly refused otherwise |
| Verify.NoReplay | unoq_ota/verify.py:114-129 | A manifest accepted once is refused, without poisoning, from any baseline at or above its own sequence |
| Verify.SignedBytesDecide | unoq_ota/verify.py:73-111 | Manifests with equal signed bytes and verifying signatures get the same verdict, whatever the files and the clock |
| Canonical.EscapeIsPrefixCode | unoq_ota/verify.py:77-77 | String escapes of JSON form a prefix code, surrogate pairs included |
| Canonical.EscapeExactly | unoq_ota/verify.py:77-77 | Each character is written by its two-character escape, as itself, or by its UTF-16 units in four lower-case hexadecimal digits |
| Canonical.SortIgnoresInsertionOrder | unoq_ota/verify.py:77-77 | Sorting the keys gives one order whatever order they were inserted in |
| Canonical.KeysAscend | unoq_ota/verify.py:77-77 | The keys are in ascending order by code point |
| Canonical.PrintAgrees | unoq_ota/verify.py:77-77 | The text of any value in its place, floats included, determines the value and where it ends |
| Canonical.SameTextSameManifest | unoq_ota/verify.py:73-79 | Two manifests have the same signed bytes exactly if they agree on everything but the signature block |
| Reader.SignedTextReadsBack | unoq_ota/verify.py:73-79 | The signed text, read by a JSON reader that demands ascending names and no white space, is the manifest without its signature block |
| Reader.ReadsBack | unoq_ota/verify.py:77-77 | Every value is read back from its text, whatever follows it |
| Canonical.SpellingSpells | unoq_ota/verify.py:77-77 | What is asked of the spelling of floats can be met: one such spelling is given |
| Artifact.LoadsIffArtifact | unoq_ota/artifact.py:65-106 | A file loads exactly if, byte by byte, its version, length, magic, flags and section table are those of an artifact |
| Artifact.HeaderIsInTheFirstBytes | unoq_ota/artifact.py:55-62 | The header depends on the first fifteen bytes alone |
| Artifact.Pack32 | unoq_ota/artifact.py:59-60 | Little-endian packing that the decoder inverts |
| Artifact.UnpackThenPack | unoq_ota/artifact.py:59-60 | Four bytes are exactly the packing of the number they are read as |
| Artifact.AcceptedArtifactsArePrefixFree | unoq_ota/artifact.py:65-106 | No proper prefix and no proper extension of an accepted artifact is accepted |
| Artifact.NoDriftWhenResidentIsBelieved | unoq_ota/preflight.py:95-118 | A resident image equal to the believed one shows no drift; a comparison that cannot be made always does |
| Artifact.DriftIsInSixBytes | unoq_ota/preflight.py:95-118 | The drift check compares the six bytes of length and magic, and nothing else |
| Artifact.DriftSeesADifferentSize | unoq_ota/preflight.py:95-118 | Between accepted artifacts, drift is exactly a difference in size |
| Health.LineExactly | unoq_ota/health/version_report.py:32-50 | A line is read as a report exactly if it spells the marker, the version and the count, however its words are spaced |
| Health.Reports | unoq_ota/health/version_report.py:177-183 | Exactly the lines that parse, in order |
| Health.Progressed | unoq_ota/health/version_report.py:212-225 | True exactly if no later sample is below any earlier one and the last exceeds the first |
| Health.GroupByVersion | unoq_ota/health/version_report.py:193-195 | Grouping by version gives for each version what filtering by it gives |
| Health.WaitHealthy | unoq_ota/health/version_report.py:205-225 | True exactly if among these lines' reports the expected version has enough, none of them below an earlier one, and one above another; raises exactly on none with none asked for |
| Health.WaitAlive | unoq_ota/health/version_report.py:185-203 | Returns a version exactly if it is the one and only one that makes progress on these lines |
| Health.ShowsIffProgress | unoq_ota/health/version_report.py:205-225 | What is asked of a version's own counts is what is asked of its reports among all of them |
| Health.RestartIsUnhealthy | unoq_ota/health/version_report.py:212-225 | One report of a version below an earlier one of it, anywhere among the reports, refuses the version |
| Journal.TornOffsetIsNeverLarger | unoq_ota/events.py:131-139 | However little of an offset was written, what is read back is at most that offset |
| Journal.StoredExactly | unoq_ota/events.py:131-135 | The stored offset is the positive number that its file spells; a file that spells none, or is not there, counts for zero |
| Journal.SafeLosesNothing | unoq_ota/events.py:81-106 | With the high-water mark in place, every parsable line up to the stored offset has reached the server |
| Journal.StaleOffset | unoq_ota/events.py:88-90 | Of a journal cut short from outside, a parsable line that ends by the stale offset is among what a flush goes through if and only if the journal is still shorter than that offset |
| Journal.NextLine | unoq_ota/events.py:93-106 | From any position up to the mark, even inside a line, the next newline ends at or below the mark or ends the line at the mark |
| Journal.EventsOfAppend | unoq_ota/events.py:108-114 | Appending changes no event that was already complete |
| Journal.EventsOfNextLine | unoq_ota/events.py:93-106 | One more line adds exactly its event, if it has one |
| Journal.LineIsAmongEvents | unoq_ota/events.py:93-106 | Every whole parsable line after where reading starts is gone through |
| Journal.EventsEndLater | unoq_ota/events.py:91-106 | Nothing that ends at or before where reading starts is gone through |
| Journal.EventsExactly | unoq_ota/events.py:91-106 | The events between two positions are those of the parsable lines between them, and no others, once each and in order |
| Journal.EventLog.AppendBytes | unoq_ota/events.py:108-114 | The payload, or the part of it that fits, is at the end; every state on the way is safe |
| Journal.EventLog.WriteOffset | unoq_ota/events.py:137-139 | The new offset or a torn one, never beyond what has been posted, in every state on the way |
| Journal.EventLog.FlushLine | unoq_ota/events.py:99-106 | A line is posted before the offset passes it, and skipped only if it does not parse |
| Journal.EventLog.FlushUnsent | unoq_ota/events.py:81-106 | From any stored offset, stale ones included: on success exactly the parsable lines from there on have been posted, once each, in order; over intact files every complete parsable line has been; with refusals alone the posts stay exact |
| Journal.EventLog.Record | unoq_ota/events.py:47-62 | Never raises, and keeps both guarantees whatever fails |
| Journal.KeepJournal | unoq_ota/events.py:47-114 | Over any records, failures, torn writes and power cuts nothing is lost; with refusals and full disks alone the server has the parsable lines up to the offset and no others, once each, in order |
| Journal.RecordAfterShortening | unoq_ota/events.py:47-62 | One record after the journal was cut short: a line that ends by the stale offset reaches the server if and only if the journal is still shorter than the offset |
| Jobs.HandleExecution | unoq_ota/jobs_runner.py:139-168 | A job succeeds exactly if its document asks for a check and nothing was offered, or old news, or an update that passed every check and was noted; an unsupported document runs no cycle; success for an offered update means the stored watermark has reached it |
| Jobs.ReportedMeansReached | unoq_ota/jobs_runner.py:104-156 | In verify-only mode COMMITTED is never reported, and VERIFIED means the watermark is there |
| Jobs.FirstsGrow | unoq_ota/jobs_runner.py:275-282 | Later callbacks only add to the end of the queue's history |
| Jobs.FirstClaimIsQueued | unoq_ota/jobs_runner.py:86-102 | The first claim of an id is queued with its document, right behind everything claimed before it |
| Jobs.Client.Offer | unoq_ota/jobs_runner.py:275-282 | The queue's history is the first claims of what was heard, with duplicates dropped |
| Jobs.Client.Next | unoq_ota/jobs_runner.py:292-293 | The head of the queue is taken |
| Jobs.Client.Publish | unoq_ota/jobs_runner.py:295-306 | A status follows the job's own, and a report that raises may have arrived |
| Jobs.Announce | unoq_ota/jobs_runner.py:180-180 | A taken job is published as in progress before anything else is |
| Jobs.Conclude | unoq_ota/jobs_runner.py:175-185 | The terminal status of an announced job is the one its cycle earned |
| Jobs.RunJobsLoop | unoq_ota/jobs_runner.py:171-185 | Under any interleaving with callbacks: distinct jobs in first-claim order, published statuses a prefix of IN_PROGRESS-then-terminal pairs, and every success still true at the end |
| Jobs.NoJobRepeated | unoq_ota/jobs_runner.py:171-185 | Two updates name the same job only as the two neighbours of its pair |

## Left out

- The state file inside `World` is the state it loads as; that a file going through a run's writes loads as the run's record is `Persistence.Mirror`. A state file that cannot be read is an answer (`loads`), and lost writes are an answer (`persists`), so neither has to be consistent with the other.
- Two processes sharing one state directory, and outside edits to its files: the code takes no lock. Renames and replacements are taken to be atomic and durable.
- Cycle.RunOnce: a `source.report` or an `is_file` that raises inside the agent is not among its endings, because every source only logs its reports. The statements over runs cover it all the same: a cycle may be left after any step, and the next one begins.
- The bytes of the state file: a readable file holds a JSON value, text that is none, or bytes that are not UTF-8. Text nested deeper than the interpreter's stack is not modelled.
- Ed25519 (RFC 8032), SHA-256, base64, timestamp parsing and `int(text, 0)` are functions given to the checks; nothing is assumed of them.
- Tar and gzip: an archive is the tree it unpacks to, or a refusal; refusing members that escape the directory or are links is part of that refusal. A live directory that is itself a symbolic link.
- How Python spells a float is a function; of it is asked only that different floats are spelled differently, and none like an integer, a word, or with a comma or a closing bracket in it. Strings with lone surrogates, which `char` does not have, are not covered.
- `int()` and `\d` on decimal digits outside ASCII.
- Fetching: bytes arriving in the middle of a download are an answer (`Fails(touched, left)`); HTTP, S3, KMS, IoT credentials, MQTT connection set-up, DNS repair and routes.
- OpenOCD, SWD, systemctl and serial capture: a flash, a header read and a list of report lines are answers.
- Health.Progressed: on an empty list the source raises IndexError, so the model asks for a sample; `Health.WaitHealthy` says when that happens.
- Timeouts, sleeps, jitter and memory exhaustion other than as a collaborator that raises.
- Wake-up publishes of the Jobs client (`start_next`), the text of status details, and the `last` query of the journal: nothing depends on them.
- Command line parsing, logging, signing and bench tools, systemd units, board discovery and the bodies of the gates: wiring, or members that would be easy.

# Concurrency protocols, quotas and deadlines of the license server

This project models the hard logic of the saas-admin license server and proves what it
promises. Each SQL statement, or each transaction that locks its rows, is one atomic step.
Services that run concurrently are step machines: a state, a label per step, and runs that
are arbitrary sequences of enabled labels, so every theorem over runs speaks about every
interleaving of any number of workers. Objects with mutable fields are classes whose methods
are proved equal to functions on their contents; the step machines and the laws are built on
those functions, and where a service runs several steps in sequence a refinement lemma says
that one undisturbed machine worker does exactly what the method does.

| area | modules |
|---|---|
| Stripe exactly-once fulfilment | ProcessedEvents, Fulfilment, Stranding, FulfilmentLimits, Checkout, PendingSync |
| Release publishing and signing | ReleaseStore, ReleaseLaws, Publishing, PublishingLimits, ReleaseService |
| Versions, "latest" and the feed | Text, Decimal, Semver, SemverLaws, Sorting, ReleaseFeed |
| Seats and invite tokens | Seats, SeatRuns |
| Idempotency keys | IdempotencyStore, Idempotency, IdempotencyMiddleware |
| Quotas and calendar periods | Usage, Calendar, Periods |
| License deadlines and tokens | LicenseTime |
| In-memory limiters | RateLimit, BruteForce |
| Dunning ladder | Dunning |

## Where the guarantees end

Several promises hold only under a condition. Exact conditions are
proved as equivalences, and concrete runs or inputs show what happens where a condition fails.

- A slot has one holder, and a reserved one, throughout a run exactly if no takeover hits a slot
  that is held or not reserved any more (`Fulfilment.SoleHolderIff`). Timely owners and marker
  writes that leave no orphan are sufficient (`Fulfilment.ExclusiveRun`, `Fulfilment.OneLiveOwner`).
  An owner that outlives its claim is joined by a second one
  (`FulfilmentLimits.OverdueOwnerIsJoined`). A marker is orphaned by a release whose second delete
  fails, by a release whose first delete takes effect but reports an error, and by a claim whose
  marker insert does; each leads to two owners with fresh claims
  (`FulfilmentLimits.OrphanedMarkerIsSharedOwnership`, `LostReleaseIsSharedOwnership`,
  `LostMarkerIsSharedOwnership`). So does a takeover that finds the slot free but released
  (`FulfilmentLimits.UnreservedTakeoverIsSharedOwnership`). The license rows stay unique under
  all of them.
- "Reservation without marker" reads as done. In fault-free, crash-free, timely runs the answer is
  right exactly when no worker holds the slot with its handler ahead or failed
  (`Fulfilment.DoneAnswerIsRight`); it is early between the two inserts of a claim
  (`FulfilmentLimits.DoneCanBePremature`) and after the second delete of a release has removed the
  marker of a claim made between its two deletes (`FulfilmentLimits.ReleaseUnmarksTheNextClaim`).
- With faults, crashes and overdue owners a slot can be stranded: it reads as done, nobody holds it,
  and it was never handled. Stranding is for ever (`Stranding.StrandedIsForever`), and a run ends
  with no stranded slot exactly if none of its steps is one of seven (`Stranding.DoneIsTrueIff`).
  Nobody else holding the slot, they are: its holder dies while the reservation stands without a
  marker; the reservation's insert takes effect but reports an error; undoing the reservation fails;
  the delete of a stale marker takes effect but reports an error; the takeover's own insert fails; a
  release fails at its first delete with the marker gone; the second delete of a release takes the
  marker of a slot reserved anew. Runs: `FulfilmentLimits.CrashStrandsTheSlot`,
  `LostReservationStrandsTheSlot`, `FailedTakeoverStrandsTheSlot`, and the dying owner in
  `ReleaseUnmarksTheNextClaim`.
- Finalizing a re-upload between a publish call's read of the release and its signature write can
  ship a signature that does not cover the recorded bytes
  (`PublishingLimits.FinalizeDuringSigningShipsAWrongSignature`): the gate compares key ids,
  not bytes. Without such a finalize every stored signature covers its bytes
  (`Publishing.SignaturesCoverTheirBytes`). Exactly, every signature covers its bytes throughout a
  run if and only if no signature write passes its guard after the digest has moved
  (`Publishing.SignaturesCoverIff`).
- "Latest" is the maximum exactly when the maximum lies inside its own channel's window of 1000
  rows (`ReleaseFeed.LatestIsMaximumIff`, `ReleaseFeed.SaturationHidesTheMaximum`).
- With handlers that end before their row expires, every handler in flight is alone on its slot
  and has the slot's row exactly if no conflicting idempotency row is deleted before it is read
  back (`Idempotency.RunsHaveRowsIff`); otherwise a second handler can run beside it
  (`Idempotency.VanishedRowAdmitsTwoRuns`).
- An expiry of zero or less reads as "never". A token honours the license's deadline exactly when
  the deadline and its check-in interval both end at least a second after the epoch
  (`LicenseTime.TokenHonoursDeadlineIff`). The bounds checked on every plan
  (internal/handler/admin.go:797-823) guarantee that for every license found usable.
- The two license checks disagree at one single instant (`LicenseTime.ChecksDisagreeIff`), and
  the trial job ends trials that the license check still admits within their grace
  (`LicenseTime.TrialJobCutsGrace`).
- Where a failure is recorded only while its key is not locked out, as for addresses
  (internal/service/license.go:74-78), the failure window bounds the backoff: no lockout lasts
  longer than the first one or twice the window (`BruteForce.GatedLockoutIsBounded`), and the k-th
  in a row is reached exactly if every earlier one fits the window (`BruteForce.KthLockoutIff`).
  With the server's window of five minutes (cmd/server/main.go:88-93) and a first lockout of at
  most ten, the cap of thirty minutes is never reached.
- A seat whose license cannot be looked up after the acceptance stays accepted although the caller
  is told of an error (`Seats.Store.AcceptSeatInvite`).
- A bound seat that is not removed stays bound to its user exactly if no acceptance of that seat is
  rolled back meanwhile (`SeatRuns.BindingLastsIff`). The rollback names the row, not the acceptance:
  one that is late, after the seat was removed and restored, unbinds the next occupant although that
  caller was told of success (`SeatRuns.LateRollbackUndoesASuccess`).
- A quota period with an unknown name has the monthly key but announces no reset
  (`Periods.UnknownPeriod`). Plan entitlements cannot carry one (a CHECK in
  db/migrations/000001_schema.up.sql:137-138), so usage is never recorded under it; an add-on can
  (internal/handler/admin.go:1702-1729), and its quota is then only displayed
  (internal/service/entitlement.go:144-164).

Where comments and code disagree, the model follows the code. A comment at
internal/store/release.go:543-553 calls the signature write lock-free, while the code locks the
release row first (lines 598-627). The header comment of the
idempotency middleware says that oversized requests skip the layer
(internal/middleware/idempotency.go:38-41), while the code refuses them with 413 (lines 86-95).
A handler that panics after writing a status below 500 has that answer stored, because the
writer's `aborted` flag is never set (lines 148-167).

## Assumptions

- Statements and row-locking transactions are atomic; a statement may fail, or take effect and
  report an error, where the fulfilment model says so.
- Row ids and plain invite tokens are fresh; hashing and signing are injective and uninterpreted.
- Time is an integer: microseconds for database rows, nanoseconds for durations, seconds for the
  dunning ladder. `PendingSync` compares session ids in byte order.
- Stripe lookups, storage contents, database failures and handler output are parameters or labels.

## Model

| member | source | states |
|---|---|---|
| ProcessedEvents.EventStore.ClaimProcessedEvent | internal/store/store.go:1161-1174 | The claim is granted exactly when no row stood there, and an existing row keeps its timestamp |
| ProcessedEvents.EventStore.HasProcessedEvent | internal/store/store.go:1062-1065 | Answers whether the row is there |
| ProcessedEvents.EventStore.DeleteProcessedEvent | internal/store/store.go:1094-1098 | Removes that row and no other |
| ProcessedEvents.EventStore.CompleteProcessedEvent | internal/store/store.go:1070-1072 | Completing a claim removes its in-flight marker and leaves the reservation |
| ProcessedEvents.EventStore.ReleaseStaleProcessedEvent | internal/store/store.go:1141-1151 | Deletes and reports the row exactly when it is older than the claim age, in one step |
| Fulfilment.OneLiveOwner | internal/payment/stripe.go:396-441 | After any interleaving with timely owners and no orphaned marker, a slot has at most one live owner, and an owned slot is reserved |
| Fulfilment.OneLicensePerSession | db/migrations/000001_schema.up.sql:193-194 | Under every fault, crash, takeover and overdue owner, a checkout session has at most one license row, and no license row is lost |
| Fulfilment.ExactlyOnce | internal/payment/stripe.go:631-704 | In fault-free timely runs each handler succeeds at most once per slot; once nobody works on a slot it has no marker and is reserved exactly when it is handled or recorded by an older binary |
| Fulfilment.DoneAnswerIsRight | internal/payment/stripe.go:412-417 | In fault-free, crash-free, timely runs "reservation without marker" means handled exactly when no worker still holds the slot with its handler ahead of it or failed |
| Stranding.TruthfulStepIff | internal/payment/stripe.go:396-441 | From a state without stranded slots, where whoever is completing is handled, a statement, fault or crash leads to another exactly if it is not one of the seven stranding steps |
| Stranding.StrandedIsForever | internal/payment/stripe.go:412-417 | A slot that reads as done, held by nobody and never handled, stays so in every continuation |
| Stranding.DoneIsTrueIff | internal/payment/stripe.go:366-441 | After any run with any faults, crashes and overdue owners, every slot that reads as done with no holder is done if and only if no step stranded a slot; and then so is every slot whose holders are all completing |
| Stranding.CleanNeverStrands | internal/payment/stripe.go:396-441 | Fault-free timely runs strand no slot |
| Fulfilment.ExclusiveStep | internal/payment/stripe.go:396-441 | Every statement keeps the invariant: one holder per slot, holders are reserved, every marker is tended by its writer or left over on a reserved slot nobody holds |
| Fulfilment.OneHolderIff | internal/payment/stripe.go:396-441 | A step from one holder per slot, each reserved, keeps one holder exactly if it does not expire the stale marker of a held slot |
| Fulfilment.ReservedIff | internal/payment/stripe.go:424-431 | Such a step keeps held slots reserved exactly if it does not expire a stale marker whose reservation is gone |
| Fulfilment.SoleHolderIff | internal/payment/stripe.go:396-441 | Under every fault, every point of a run has one holder per slot, a reserved one, if and only if no takeover hits a held or unreserved slot |
| Fulfilment.ExclusiveRun | internal/payment/stripe.go:396-441 | Timely owners and no orphaned marker imply that no takeover hits a held or unreserved slot, and keep the invariant |
| Fulfilment.SettledRun | internal/payment/stripe.go:564-704 | Every fault-free run keeps: each marker is tended, nothing is being taken over, done slots stay reserved, successes are unique |
| Fulfilment.CleanIsOrderly | internal/payment/stripe.go:396-441 | Fault-free timely runs meet the hypotheses of the mutual-exclusion theorem |
| FulfilmentLimits.OverdueOwnerIsJoined | internal/payment/stripe.go:824-824 | A fault-free run in which an owner outlives its claim and a second owner joins it |
| FulfilmentLimits.OrphanedMarkerIsSharedOwnership | internal/payment/stripe.go:401-411 | A run in which one failed marker delete leads to two owners with brand-new claims |
| FulfilmentLimits.LostReleaseIsSharedOwnership | internal/payment/stripe.go:436-441 | A run in which the reservation's delete takes effect but reports an error leads to two owners |
| FulfilmentLimits.LostMarkerIsSharedOwnership | internal/payment/stripe.go:405-409 | A run in which the marker's insert takes effect but reports an error leads to two owners |
| FulfilmentLimits.UnreservedTakeoverIsSharedOwnership | internal/payment/stripe.go:424-430 | A run whose only takeover hits a free but released slot and still leads to two owners |
| FulfilmentLimits.DoneCanBePremature | internal/payment/stripe.go:401-418 | A fault-free run in which a slot reads as done before its handler started |
| FulfilmentLimits.CrashStrandsTheSlot | internal/payment/stripe.go:401-418 | A crash between the two inserts leaves an unhandled slot that reads as done with nobody on it |
| FulfilmentLimits.LostReservationStrandsTheSlot | internal/payment/stripe.go:397-400 | A reservation insert that takes effect but reports an error strands the slot |
| FulfilmentLimits.FailedTakeoverStrandsTheSlot | internal/payment/stripe.go:424-430 | A takeover that deletes the stale marker and fails to insert its own strands the slot |
| FulfilmentLimits.ReleaseUnmarksTheNextClaim | internal/payment/stripe.go:436-441 | A fault-free, timely run in which a release's second delete removes the next claim's marker, so the slot reads as done while its owner has yet to run |
| Checkout.BrokenReleaseCanBeRetried | internal/payment/stripe.go:433-441 | However a release is cut short, by failure, lost acknowledgement or crash, the slot does not read as done and can be claimed again: at once if the reservation went, else once the marker is stale |
| Checkout.ReserveIsWorkerAlone | internal/payment/stripe.go:396-431 | A protocol worker that nobody disturbs reaches exactly the rows and the verdict of reserve, for events and sessions |
| Checkout.StripeHandler.ReserveSlot | internal/payment/stripe.go:396-431 | Done exactly for a slot reserved without a marker or a session with a license, busy exactly for a claim at most ten minutes old, and otherwise the slot becomes this caller's, with a marker written now |
| Checkout.StripeHandler.DeliverEvent | internal/payment/stripe.go:282-364 | 200 exactly if the event was finished before or is handled now, 503 exactly while a claim at most ten minutes old stands, 500 exactly if the handler fails, and then the event can be claimed again |
| Checkout.DoneVerdictIsTrue | internal/payment/stripe.go:412-423 | After any run that strands no slot, a caller told "done" about a slot whose holders are all completing is told the truth |
| Checkout.VerdictsAreRight | internal/payment/stripe.go:396-431 | In fault-free timely runs "done" with nobody on the slot means handled, "busy" means a worker tends it for at most ten minutes, and a claim is granted only on a free, unreserved slot |
| Checkout.OwnerAloneFinishes | internal/payment/stripe.go:631-704 | An owner whose handler succeeds adds that one license or application and leaves its slot handled and reading as done |
| Checkout.OwnerAloneGivesBack | internal/payment/stripe.go:433-441 | An owner whose handler fails leaves neither row of its slot and no outcome |
| Checkout.ConflictEndsTheOwner | internal/payment/stripe.go:675-682 | An owner whose session has a license already leaves without a second one |
| Checkout.FailChangesNothing | internal/payment/stripe.go:396-441 | A statement that fails in the model changes no row and no outcome |
| Checkout.LostTakesEffect | internal/payment/stripe.go:396-441 | A statement whose acknowledgement is lost changes exactly what an acknowledged one would |
| Checkout.AnythingCanHappen | internal/payment/stripe.go:366-441 | Runs leave nothing out: time, older binaries, arrivals, every fault and crashes are possible at every point |
| Checkout.StripeHandler.Release | internal/payment/stripe.go:436-441 | A completed release leaves neither row, so the slot does not read as done |
| Checkout.StripeHandler.SessionFulfilled | internal/payment/stripe.go:786-800 | True exactly when a license stands for the session or its reservation stands without a marker |
| Checkout.StripeHandler.FulfillCheckout | internal/payment/stripe.go:564-704 | Answers "fulfilled" exactly when it was before, its license is written now, or another worker's license wins the unique index; a failed insert frees the slot; a failed check or claim changes nothing; a success leaves it done and not pending; licenses stay unique |
| PendingSync.ListPendingCheckoutSessions | internal/store/store.go:1112-1127 | The page holds the least rows after the cursor in keyset order among the unlicensed rows of the last thirty days, and leaves none of them out unless it is full |
| PendingSync.PageIsListable | internal/store/store.go:1112-1127 | A page holds unlicensed pending rows younger than thirty days after the cursor, and all of them unless it is full |
| PendingSync.PendingWalk.SyncPendingCheckouts | internal/payment/stripe.go:870-905 | A walk that reaches the end has visited every row present throughout it, in strictly ascending order if no listing failed; a round visits fewer rows than its limit plus a page |
| PendingSync.AscendingIsOnce | internal/payment/stripe.go:885-904 | An ascending walk visits no row twice |
| ReleaseStore.Store.Create | internal/store/release.go:55-64 | Inserts a draft, or refuses a version the product already has |
| ReleaseStore.Store.Publish | internal/store/release.go:187-216 | Publishes exactly when the release is a draft with artifacts, all uploaded, and all signed by the key when signatures are required; otherwise changes nothing and names the reason |
| ReleaseStore.Store.Diagnose | internal/store/release.go:223-277 | The reason for a refused publish, in the order the store tests them |
| ReleaseStore.RefusalIsExact | internal/store/release.go:223-277 | With nothing in between, each refusal is given exactly when its own precondition failed |
| ReleaseLaws.YankCycle | internal/store/release.go:282-295 | Yanking takes exactly a published release out of publication, and unyanking it restores everything; each refusal has its own condition |
| ReleaseLaws.UnyankCycle | internal/store/release.go:298-311 | Unyanking publishes exactly a yanked release again, and yanking it anew restores everything |
| ReleaseLaws.PublishChangesStatus | internal/store/release.go:187-216 | A publish turns that draft into a published release and changes nothing else; a refused one changes nothing |
| ReleaseLaws.UploadTests | internal/store/release.go:187-216 | The gate's tests mean: some artifact exists, and each has a file key and a digest |
| ReleaseLaws.SignatureTests | internal/store/release.go:187-216 | The gate's signature test means: each artifact has both signature columns, and the key given |
| ReleaseLaws.DraftCycle | internal/store/release.go:55-64 | Creation is refused exactly for a version the product has, and deleting the draft undoes it |
| ReleaseLaws.DeleteTakesTheDraft | internal/store/release.go:331-367 | Deletion takes exactly a draft and its artifacts |
| ReleaseLaws.ArtifactCycle | internal/store/release.go:434-465 | A new artifact is neither uploaded nor signed, is refused exactly outside drafts or for a platform the release has, and deleting it undoes it |
| ReleaseLaws.ArtifactRefusals | internal/store/release.go:508-664 | Finalizing, signing and deleting an artifact are refused exactly if it is missing or its release has left draft |
| ReleaseLaws.UploadThenSign | internal/store/release.go:508-627 | Finalizing records file and digest and leaves the artifact unsigned; signing then adds exactly the two signature columns |
| ReleaseLaws.ClearLeavesNoneSigned | internal/store/release.go:562-588 | Clearing leaves no artifact of the draft signed, keeps their files and touches no other release |
| ReleaseLaws.RotationActivates | internal/store/release_signing.go:96-138 | A rotation always ends with the new key, and it alone, active for the product |
| ReleaseLaws.CreationActivates | internal/store/release_signing.go:32-41 | A key is created, active, exactly if the product has no active key |
| ReleaseLaws.DeactivationTurnsOff | internal/store/release_signing.go:157-173 | Deactivation turns exactly an active key off, and no other |
| ReleaseLaws.DeactivateThenCreate | internal/store/release_signing.go:157-173 | After the active key is deactivated a new one can be created, and is the active one |
| ReleaseStore.Store.Yank | internal/store/release.go:282-295 | Only a published release becomes yanked; not found and wrong status are told apart |
| ReleaseStore.Store.Unyank | internal/store/release.go:298-311 | Only a yanked release becomes published again |
| ReleaseStore.Store.Delete | internal/store/release.go:331-367 | Deletes a draft with its artifacts and returns exactly their storage keys; other releases are refused |
| ReleaseStore.Store.AddArtifact | internal/store/release.go:434-465 | Adds an artifact to a draft, one per platform |
| ReleaseStore.Store.UpdateFile | internal/store/release.go:508-541 | Records a new upload on a draft's artifact and drops its signature |
| ReleaseStore.Store.UpdateSignature | internal/store/release.go:598-627 | Writes both signature columns of a draft's artifact |
| ReleaseStore.Store.ClearSignatures | internal/store/release.go:562-588 | Drops every signature of a draft and touches no other release |
| ReleaseStore.Store.RemoveArtifact | internal/store/release.go:632-664 | Removes one artifact of a draft and returns its storage key |
| ReleaseStore.Store.CreateKey | internal/store/release_signing.go:32-41 | Inserts an active key unless the product has one |
| ReleaseStore.Store.RotateKey | internal/store/release_signing.go:96-138 | Ends with the new key active, no other key of the product active, and the keys of other products as they were |
| ReleaseStore.Store.DeactivateKey | internal/store/release_signing.go:157-173 | Deactivates an active key; missing and inactive keys are told apart |
| Publishing.ShippedIsFrozen | internal/store/release.go:434-664 | From any reachable state and over every interleaving, a release that left draft never returns, is never deleted, and its artifacts with files, digests, signatures and key ids never change |
| Publishing.ShippedIsComplete | internal/store/release.go:187-216 | Every release that ever ships has an artifact, and all its artifacts are uploaded |
| Publishing.StrictReleasesCarryOneKey | internal/service/release.go:501-657 | A shipped release of a product that requires signing carries one single key's signatures, a key of that product, on all artifacts, under any concurrent publishes, finalizes and rotations |
| Publishing.AtMostOneActiveKey | internal/store/release_signing.go:96-138 | No interleaving of creation, rotation and deactivation leaves a product with two active keys |
| Publishing.SignatureCoversIff | internal/service/release.go:588-624 | A signature write covers bytes with the row's digest exactly when the digest is still the one the publish call read |
| Publishing.CoverIff | internal/service/release.go:588-624 | A step keeps every signature over bytes with its row's digest exactly if it is not a signature write over a moved digest |
| Publishing.SignaturesCoverIff | internal/service/release.go:588-624 | Throughout a run every stored signature covers bytes with its row's digest if and only if no signature write passes its guard after the digest has moved |
| Publishing.SignaturesCoverTheirBytes | internal/service/release.go:501-624 | In every run in which no upload of an artifact is finalized between a publish call's read of the release and its signature write, every stored signature covers bytes with its row's digest |
| Publishing.DigestStays | internal/store/release.go:508-541 | A run without a finalize of an artifact leaves its digest alone |
| Publishing.SnapsCurrentStep | internal/service/release.go:501-624 | Every step but a finalize of an artifact about to be signed keeps the publish calls' snapshots equal to the rows they were read from |
| PublishingLimits.FinalizeDuringSigningShipsAWrongSignature | internal/service/release.go:588-635 | A run that ships a strict release whose signature does not cover the recorded bytes |
| ReleaseService.Publisher.Publish | internal/service/release.go:501-657 | One undisturbed call: its exact answer and the exact tables it leaves, for every starting state |
| ReleaseService.Publisher.SignAndShip | internal/service/release.go:588-635 | The sign loop stops at the first artifact whose bytes changed, and otherwise the gate lets the release through |
| ReleaseService.Publisher.FindActiveKey | internal/store/release_signing.go:45-58 | Finds an active key of the product exactly when there is one |
| ReleaseService.ShipsIff | internal/service/release.go:501-657 | An undisturbed call ships exactly when the release is a complete draft with its files in storage and either no key is active and none is required, or one is and every file still has its recorded digest |
| ReleaseService.ChecksAreExact | internal/service/release.go:501-539 | Each refusal of a call's checks is given exactly when its own condition is the first to fail |
| ReleaseService.SigningIsExact | internal/service/release.go:541-624 | Past the checks, a call is refused for signing exactly if a required key is missing, or a file changed under the active key, and otherwise ships |
| ReleaseService.AnyOperationCanCome | internal/store/release.go:55-664 | Runs leave nothing out: every operation with a fresh id is possible at every point and does what the store does |
| ReleaseService.AnythingCanHappen | internal/service/release.go:501-657 | Runs leave nothing out: every upload, call, listing and abort is possible at every point |
| ReleaseService.RotatedKeySigns | internal/store/release_signing.go:96-138 | After a rotation the key that signs the product's releases is the new one |
| ReleaseService.ShipsAllOrNone | internal/service/release.go:541-624 | A call that ships leaves every artifact signed by the active key over its own bytes, or none signed, and changes no other row |
| ReleaseService.RefusalKeepsTheTables | internal/service/release.go:501-657 | A call that does not ship changes at most signature columns of a draft |
| ReleaseService.GateOpens | internal/service/release.go:626-657 | After an undisturbed sign loop the gate's signature test cannot fail |
| ReleaseService.PublishIsWorkerAlone | internal/service/release.go:501-657 | A machine worker that nobody disturbs leaves exactly the tables the call leaves, missing files included |
| ReleaseService.Administer | internal/store/release.go:331-664 | Each administrative step of the concurrent model is the store's own method for it |
| Semver.PrecedenceIsTotalOrder | internal/service/release.go:897-911 | Precedence is a strict total order on accepted strings: two compare equal only if they are the same string |
| SemverLaws.PrecedesIsSection11 | internal/service/release.go:897-911 | On every two accepted strings the order is the precedence of section 11 of Semantic Versioning 2.0.0, read off the strings |
| SemverLaws.ReleaseAbovePrerelease | internal/service/release.go:897-911 | A version is above each of its own prereleases |
| SemverLaws.NumbersDecide | internal/service/release.go:897-911 | Major, then minor, then patch decide first, by value, whatever the prereleases |
| SemverLaws.MoreIdentifiersAreHigher | internal/service/release.go:897-911 | With equal numbers, more identifiers after the same ones are higher |
| SemverLaws.FirstIdentifierDecides | internal/service/release.go:897-911 | With equal numbers, the first different identifier decides: numbers by value and below others, others by their bytes |
| SemverLaws.DecimalNotation | internal/service/release.go:229-242 | Digit strings are read in decimal |
| SemverLaws.VerdictsAreExact | internal/service/release.go:229-242 | Build metadata is refused exactly for a plus sign, and accepted strings have plain characters only |
| Semver.ParseInjective | internal/service/release.go:229-242 | Accepted strings with the same parsed version are the same string |
| Semver.RenderParse | internal/service/release.go:167-169 | Every well-formed version, written out, is accepted and parses back to itself |
| Semver.ParseRender | internal/service/release.go:229-242 | Every accepted string is its parsed version written out |
| Semver.NotBelowIsTransitive | internal/service/release.go:897-911 | Not being below is transitive, which a comparison sort needs |
| Sorting.Sort | internal/service/release.go:897-911 | The result is a sorted permutation of the input in which elements that tie keep their order, for any strict weak order |
| Sorting.InsertStable | internal/service/release.go:897-911 | Inserting an element before those it is less than keeps every group of ties in the order of arrival |
| Sorting.SortedIsUnique | internal/service/release.go:897-911 | Where the order tells all members apart, only one sorted permutation exists |
| ReleaseFeed.NewerIsWeakOrder | internal/service/release.go:897-911 | The feed's comparison, unparsable versions last, is a strict weak order |
| ReleaseFeed.FindLatestPublished | internal/service/release.go:858-878 | Answers a highest version of the gathered pool, and nothing exactly when the pool is empty |
| ReleaseFeed.ListForFeed | internal/service/release.go:939-970 | Answers the pool sorted by descending version, cut to the limit, which is twenty unless it is between 1 and 100 |
| ReleaseFeed.PoolMembers | internal/service/release.go:837-878 | The pool holds only eligible releases, and all of them unless a window is saturated |
| ReleaseFeed.LatestIsMaximum | internal/service/release.go:858-878 | With no saturated window, the latest release is eligible and above every other eligible release |
| ReleaseFeed.LatestIsMaximumIff | internal/service/release.go:850-870 | In general the answer is the true maximum exactly when that release lies in its own channel's window |
| ReleaseFeed.WindowIff | internal/store/release.go:384-415 | A matching release lies in its channel's window exactly if fewer than 1000 matching ones were published after it |
| ReleaseFeed.ListingLimit | internal/store/release.go:384-415 | The listing returns twenty rows by default and never more than 5000 |
| ReleaseFeed.InPoolIff | internal/service/release.go:858-870 | A release is gathered exactly if its channel is in the chain and it lies in that channel's window |
| ReleaseFeed.WiderChannelIsNotLower | internal/service/release.go:837-848 | A wider channel never answers with a lower version |
| ReleaseFeed.ChainIsDownward | internal/service/release.go:837-848 | A channel is served from itself and every more stable channel, once each |
| ReleaseFeed.ComparisonIsPrecedence | internal/service/release.go:897-924 | The comparison is section 11 on accepted versions, and puts those that do not parse last |
| ReleaseFeed.LatestPrefersRelease | internal/service/release.go:858-878 | Where a release and one of its prereleases are both gathered, the prerelease is never the latest |
| ReleaseFeed.FeedStartsWithLatest | internal/service/release.go:939-970 | The feed is determined by the catalog alone, whatever the sort did, and its head is the latest release |
| ReleaseFeed.SaturationHidesTheMaximum | internal/service/release.go:850-870 | A well-formed catalog of 1001 releases whose eligible maximum is above whatever is answered |
| Seats.Store.Add | internal/store/seats.go:83-208 | Refused exactly if the limit is positive and reached and no live row has the email; an accepted seat is left alone; otherwise one row, pending, live and with this invite's role, token and expiry, is all that changes |
| Seats.Store.AcceptInvite | internal/store/seats.go:223-304 | Accepts exactly a live, pending row of the token that is not past its expiry, binds it to the user of its own email and forgets the token; otherwise changes nothing |
| Seats.Store.Rollback | internal/store/seats.go:319-326 | Undoes the binding and leaves the token forgotten |
| Seats.Store.Remove | internal/store/seats.go:353-359 | Marks a live seat removed; removing again changes nothing |
| Seats.Store.AcceptSeatInvite | internal/service/seats.go:188-228 | A success binds a seat of a license in good standing; in bad standing the acceptance is rolled back unless the rollback fails; a failed lookup leaves it standing; otherwise nothing changes |
| Seats.RolledBackIsVacant | internal/store/seats.go:319-326 | A rolled-back acceptance leaves the seat unbound and its token forgotten |
| SeatRuns.SeatsWithinLimit | internal/store/seats.go:83-208 | In every run live seats stay within a positive limit, a license has one row per email, and accepted means bound and without token |
| SeatRuns.TokenAcceptedOnce | internal/store/seats.go:223-326 | In every run, crashes and rollbacks included, no token is accepted twice |
| SeatRuns.DeadIsForever | internal/service/seats.go:205-216 | A token that is issued and stored in no live row is never accepted in any continuation |
| SeatRuns.RotationAndRemovalKill | internal/store/seats.go:110-150 | Re-inviting a live seat or removing it makes its old token dead |
| SeatRuns.AcceptKills | internal/store/seats.go:280-304 | Accepting makes the token dead, and only a token that was not dead is accepted |
| SeatRuns.AcceptedIff | internal/store/seats.go:223-304 | In every reachable state a token is accepted exactly if a live, pending, unexpired row holds it |
| SeatRuns.AnythingCanHappen | internal/service/seats.go:188-228 | Runs leave nothing out: invites, tokens, license answers, failing rollbacks, crashes and removals are possible at every point, and do what the store does |
| SeatRuns.BindingLastsIff | internal/store/seats.go:319-326 | A bound seat that is not removed stays bound to the same user throughout a run if and only if no acceptance of that seat is rolled back meanwhile |
| SeatRuns.LateRollbackUndoesASuccess | internal/service/seats.go:205-216 | A run in which a late rollback unbinds the seat's next occupant, who was told of success |
| IdempotencyStore.Store.IdempotencyClaim | internal/store/idempotency.go:51-86 | Granted exactly on a vacant slot or when the conflicting row vanishes before it is read back; otherwise mismatch, replay or in-flight by the stored row |
| IdempotencyStore.Store.IdempotencyComplete | internal/store/idempotency.go:90-103 | Stores the status and the body, or its first 65536 bytes if it is longer, on the row if it is there |
| IdempotencyStore.Store.IdempotencyAbandon | internal/store/idempotency.go:109-115 | Deletes the row unless it is complete |
| IdempotencyStore.Store.IdempotencyPruneExpired | internal/store/idempotency.go:119-128 | Deletes exactly the expired rows and counts them |
| IdempotencyStore.ValidKeys | internal/store/idempotency.go:133-141 | Valid keys have 1 to 256 characters, none of them NUL, line feed or carriage return |
| Idempotency.OneRunInFlight | internal/middleware/idempotency.go:106-170 | With atomic claims and timely handlers, at most one run is in flight for a key and endpoint, and it has its row |
| Idempotency.OneResultAndItsReplays | internal/middleware/idempotency.go:148-170 | At most one run ends below 500 while the row stands, its answer is kept, and every replay has its body hash, status and body, or the first 65536 bytes of a longer one |
| Idempotency.InvIff | internal/store/idempotency.go:63-86 | In a timely state a step keeps the protocol's invariant exactly if it is not a claim granted on a vanished row |
| Idempotency.RunsHaveRowsIff | internal/store/idempotency.go:63-86 | With timely handlers, every handler in flight is alone on its slot and has the slot's row throughout a run if and only if no conflicting row vanishes before it is read back |
| Idempotency.OtherBodyIsRefused | internal/middleware/idempotency.go:106-146 | In every orderly run, while a slot's row stands, every replay and every handler in flight for the slot has the row's body hash, and no further handler starts |
| Idempotency.FinishIsExact | internal/middleware/idempotency.go:148-167 | A finished run frees its row exactly if it wrote nothing or failed; otherwise its answer is to be stored |
| Idempotency.AnythingCanHappen | internal/middleware/idempotency.go:47-172 | Runs leave nothing out: time, requests, answers, failing stores, crashes and pruning are possible at every point |
| Idempotency.VanishedRowAdmitsTwoRuns | internal/store/idempotency.go:63-86 | A run in which a row deleted between insert and read-back lets two handlers run at once |
| Idempotency.FirstWriteDecides | internal/middleware/idempotency.go:178-205 | The status the cache records is that of the first write, whatever follows |
| Idempotency.BodyIsWritten | internal/middleware/idempotency.go:191-205 | The recorded body is everything the handler wrote, in order |
| IdempotencyMiddleware.Middleware.Handle | internal/middleware/idempotency.go:47-172 | One request through the middleware, with failures of the body read, of the claim (before or after its insert took effect) and of the deferred statement: its answer and the rows it leaves, for every starting state |
| IdempotencyMiddleware.RetryIsReplayed | internal/middleware/idempotency.go:21-46 | After a stored run that ended below 500 and any requests and failures in between, a retry gets that run's status and its body, or the first 65536 bytes of a longer one, and another body is refused |
| IdempotencyMiddleware.FailureLeavesNoTrace | internal/middleware/idempotency.go:148-167 | A failed or silent run leaves the rows as it found them, exactly unless the claim's insert took effect behind an error or the row could not be deleted |
| IdempotencyMiddleware.RepliesAreExact | internal/middleware/idempotency.go:47-172 | Each answer of a request is given exactly in its own case; only a request that runs its handler, or loses its claim's acknowledgement, changes rows |
| IdempotencyMiddleware.HandleIsRequestAlone | internal/middleware/idempotency.go:47-172 | A request of the concurrent protocol that nobody disturbs leaves and replays what the middleware does |
| Usage.Store.IncrementUsageCounterWithLimit | internal/store/usage.go:48-109 | Accepts exactly what fits the limit and int64; a rejected call leaves the counter |
| Usage.Store.ResetUsageCounter | internal/store/usage.go:145-152 | Zeroes an existing counter and creates none |
| Usage.Service.RecordUsage | internal/service/usage.go:44-166 | Charges the first quota of the feature; tells refusals apart; remaining, also under a negative limit, and the warning follow from the counter before and after |
| Usage.Service.FindQuota | internal/service/usage.go:58-70 | Finds the first quota entitlement of the feature, or none exactly when there is none |
| Usage.ChargedQuantity | internal/service/usage.go:44-55 | A positive quantity is charged as given, anything else as one |
| Usage.WarnsAtCrossing | internal/service/usage.go:128-140 | The warning is due exactly when a call crosses the threshold |
| Usage.QuotaRun | internal/store/usage.go:48-109 | Over every run with a positive limit, the counter stays within it and equals the accepted quantities since the reset, and the warning fired once if the threshold is reached and not at all otherwise |
| Usage.QuotaFromFresh | internal/store/usage.go:48-109 | The same over every run of a counter that starts at zero |
| Usage.BalancedStep | internal/service/usage.go:128-140 | One call or reset keeps that balance, and a call that is not accepted changes nothing |
| Usage.UnlimitedRun | internal/store/usage.go:48-109 | Without a limit the counter stays within int64 and equals the accepted quantities |
| Usage.DecideFits | internal/store/usage.go:70-90 | The overflow test admits only sums within int64, and under a limit exactly what fits is accepted |
| Calendar.CivilOfDayNumber | internal/service/entitlement.go:172-186 | Numbering a calendar date and reading the number back gives the date |
| Calendar.DaysBeforeYearClosed | internal/service/entitlement.go:172-186 | The days before a year, from the count of years and leap years before it |
| Calendar.DaysBeforeMonthClosed | internal/service/entitlement.go:172-186 | The days before a month, by the five-month rule of the civil calendar |
| Periods.PeriodIsInterval | internal/store/usage.go:154-168 | The instants that share a key with t are exactly those from the period's start to its announced reset |
| Periods.KeysReadBack | internal/store/usage.go:154-168 | The keys read back as the civil year, month, day and hour of the instant, in the layouts of the source |
| Periods.KeyHoldsUntilReset | internal/service/entitlement.go:172-186 | The key is constant until the announced reset and different at it |
| Periods.KeyAndResetAgree | internal/service/entitlement.go:172-186 | Two instants have one key exactly when they have one reset |
| Periods.UnknownPeriod | internal/store/usage.go:154-168 | An unknown period has the monthly key and no announced reset |
| LicenseTime.TokenEndsWithLicense | internal/service/license.go:537-575 | The token of a usable license is accepted only up to the second of the deadline the server itself uses, and of its check-in interval |
| LicenseTime.TokenHonoursDeadlineIff | internal/service/license.go:537-575 | A token is accepted only up to its license's deadline exactly when the deadline and the check-in interval both end at least a second after the epoch |
| LicenseTime.TokenHonoursIntervalIff | internal/service/license.go:537-575 | Without an end date a token is accepted only up to the end of its check-in interval exactly when that is at least a second after the epoch |
| LicenseTime.UsableMeetsCondition | internal/handler/admin.go:797-823 | Every usable license meets that condition under the bounds checked on plans, and under any bounds that fit a duration |
| LicenseTime.RefusedLicenseRefusedToken | internal/license/token.go:106-134 | Once the server refuses the unchanged license, the token it signed is accepted at most within the deadline's own second |
| LicenseTime.TokenExpiresIff | internal/license/token.go:130-132 | A token is refused some day exactly when its expiry is positive |
| LicenseTime.PlanDecides | internal/service/license.go:480-535 | The plan's own grace and check-in interval are used, and seven days each without a plan |
| LicenseTime.UsableUntil | internal/service/license.go:446-471 | A running license is usable until the end of its grace, a canceled one before its end, and each status has its own refusal |
| LicenseTime.TokenFields | internal/service/license.go:537-575 | The token's expiry is the earlier of the check-in interval's end and the license's deadline, to the second |
| LicenseTime.CanceledHasNoGrace | internal/service/license.go:495-502 | The token of a canceled license ends with the license |
| LicenseTime.VerifyByTheSecond | internal/license/token.go:130-132 | A token with an expiry is accepted exactly up to that second |
| LicenseTime.ChecksDisagreeIff | internal/service/release.go:1041-1062 | The two license checks disagree exactly at the last usable instant of a running license with an end date |
| LicenseTime.GraceJobMatchesCheck | internal/service/expiry.go:55-89 | The grace job expires exactly the active and past-due licenses the license check refuses, and no other license |
| LicenseTime.TrialJobCutsGrace | internal/service/expiry.go:92-119 | The trial job ends a trial the license check still admits exactly within its grace period |
| RateLimit.MemoryBackend.Allow | internal/middleware/ratelimit.go:48-68 | Opens a new window when the old one closed and otherwise counts; allowed exactly when the count is within the rate or the window is new |
| RateLimit.MemoryBackend.Cleanup | internal/middleware/ratelimit.go:75-88 | The deleting sweep removes exactly the counters past their lifetime |
| RateLimit.SweepsAreUnobservable | internal/middleware/ratelimit.go:75-88 | Sweeps at any points of a run change no answer |
| RateLimit.AtMostTwiceTheRate | internal/middleware/ratelimit.go:48-68 | At most twice the rate gets through in any interval one window long, in every run with any sweeps |
| RateLimit.AtMostRatePerWindow | internal/middleware/ratelimit.go:48-68 | No window ever opened in a run lets more than the rate through |
| RateLimit.RateIsGranted | internal/middleware/ratelimit.go:48-68 | A request is let through exactly if, with itself, its window has seen no more requests of the key than the rate |
| BruteForce.BruteForceProtection.RecordFailure | internal/middleware/bruteforce.go:43-70 | What a failure makes of the key's record: a fresh count, one more, or a lockout |
| BruteForce.BruteForceProtection.IsBlocked | internal/middleware/bruteforce.go:80-94 | Blocked exactly while lockout time remains |
| BruteForce.BruteForceProtection.Cleanup | internal/middleware/bruteforce.go:96-109 | The deleting sweep removes exactly the old records that are not locked |
| BruteForce.Backoff | internal/middleware/bruteforce.go:56-64 | The doubling loop computes the capped power of two for every configuration, and no value on the way exceeds twice the cap when the first lockout is within it |
| BruteForce.LockoutIsCappedPower | internal/middleware/bruteforce.go:56-64 | The k-th lockout is min(lockout * 2^k, cap), never shorter than the one before |
| BruteForce.SuccessiveLockouts | internal/middleware/bruteforce.go:43-70 | Where failures are recorded without a gate, as for license keys, under steady failures every maxFails-th one locks the key out and no other does, and the k-th lockout lasts the k-th duration; for a threshold of at least two |
| BruteForce.GatedLockoutIsBounded | internal/service/license.go:73-101 | Over every run in which a key's failures are recorded only while it is not locked out, it is never locked out for longer than the first lockout or twice the window |
| BruteForce.KthLockoutIff | internal/service/license.go:73-101 | Such a run with k lockouts of a key in a row exists exactly if every earlier lockout fits the window |
| BruteForce.GatedLockoutDuration | internal/middleware/bruteforce.go:55-69 | In such a run the k-th lockout in a row lasts the k-th duration from the failure that caused it |
| BruteForce.FirstFailureNeverLocks | internal/middleware/bruteforce.go:47-51 | The first failure never locks, not even with a threshold of one |
| BruteForce.SweepsAreUnobservable | internal/middleware/bruteforce.go:96-109 | Sweeps at any points of a run change no answer about any key |
| Dunning.ExpiryChecker.SendPaymentFailureReminders | internal/service/expiry.go:209-265 | One run sends each license the highest tier it has reached, unless that was sent, and records it |
| Dunning.TierByAge | internal/service/expiry.go:218-262 | The tier is the highest reached: at one, seven and fourteen whole days past due |
| Dunning.DueIsExact | internal/service/expiry.go:209-265 | A reminder is due exactly for a past-due license whose highest tier reached was not sent in its episode |
| Dunning.LadderIsClimbedOnce | internal/service/expiry.go:196-208 | Over any series of runs an episode's reminders go strictly up the ladder, none twice |
| Dunning.ReachedIsSent | internal/service/expiry.go:196-208 | After a run, the highest tier a past-due license has reached has been sent, whenever the job ran before |

## Left out

- Routing, JSON binding, response envelopes, the front end, configuration, audit logs, webhooks and mail contents: plumbing around the modelled calls.
- Stripe, S3, SMTP and Redis calls: a Stripe lookup is one of resolved, missing or transient; the Redis limiter backend is not part of this model.
- Ed25519, AES-GCM, HKDF, SHA-256 and token encoding: hashes and signatures are uninterpreted and injective; only the expiry test of Verify is modelled.
- PostgreSQL snapshots, advisory locks and their hash function: a transaction that locks its rows is one step.
- Sessions without an id: fulfilCheckout then skips the claim altogether, and no uniqueness is promised.
- Fulfilment after a license conflict: the worker leaves its marker behind, as in the code; once the license stands every later prober leaves, so that marker goes only with the winner's completion or with a worker already past that probe; this is part of the machine, not of the sequential method.
- Checkout.StripeHandler.FulfillCheckout: a failure in the middle of reserve, release or completion is not a branch of this method; the Fulfilment machine has it at every statement.
- ReleaseService.Publisher.Publish: a disabled signer or storage, the size limit for signing and database failures are not branches of this method; the Publishing machine may abort a call at any point instead.
- Publishing.StrictReleasesCarryOneKey: the set of products that require signing is fixed during a run; for other products concurrent calls may leave mixed signatures, which the gate does not test.
- PendingSync.PendingWalk.SyncPendingCheckouts: the sweep of fulfilled rows is part of the views that vary from query to query.
- Sorting.Sort: an insertion sort stands for the library's stable sort, which is not part of this repository.
- ReleaseFeed.FindLatestPublished: build metadata and other versions that release creation refuses all count as unparsable and sort last.
- SeatRuns.SeatsWithinLimit: the seat limit of a license is fixed during a run; lowering it removes no seats in the original either.
- Usage.Store.IncrementUsageCounterWithLimit: entitlement values arrive as integers; parsing the quota text, add-ons and the feature map of the entitlement check are not modelled.
- Idempotency.OneResultAndItsReplays: claims whose row vanishes before the read-back are excluded; Idempotency.InvIff shows that they are exactly what breaks the invariant.
- Idempotency.FirstWriteDecides: the framework's own writer lets a later status win until bytes are written, so a handler that sets two statuses is replayed with one its first client did not see; that writer is not part of this model.
- RateLimit.AtMostTwiceTheRate: each key keeps one rate and one window length; four times a window is assumed to fit a duration in the sweeps of both limiters.
- BruteForce.Backoff: a negative first lockout doubled some sixty times would leave int64, which is not modelled.
- BruteForce.GatedLockoutIsBounded: check and recording of one request are one step; requests that pass the check together can record failures while the key is already locked out.
- Dunning.LadderIsClimbedOnce: one job runs at a time and notification rows are written; past-due days are whole seconds divided, where the original divides in floating point.
- Floating sessions, device activations, subscription webhooks after the purchase, refunds and disputes: their status changes do not follow one invariant.
- Analytics, license-key generation and download signing: they would add only easy members.

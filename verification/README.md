# Invitation service: a verified model

This project models the stateful core of the invitation service in Dafny and proves what it guarantees.

* **The analytics outbox publisher** (`OutboxRow`, `OutboxProtocol`, `OutboxCounting`, `OutboxBackoff`, `OutboxRetry`,
  `OutboxPublisher`, `OutboxProgress`). Several
  instances scan, claim, read, send and finish rows of one shared table. The protocol is a state machine with one step
  per await and arbitrary interleaving, failing writes and crashes; the class `Publisher` is the running code of one
  pass, and every pass is shown to be a run of the protocol with the same sends in the same order.
* **The invitation store and the guest confirmation** (`Store`, `Forest`, `Rsvp`, `Confirmation`, `Operations`,
  `System`). Each service call, handler, message, job and outside event is one `Step`; `System.Run` runs any list of
  them, so messages and jobs may be late, repeated or out of order, event settings may come and go, and cache entries
  and cooldown keys may vanish at any moment. `Invariants`, `Evolution`, `SeatFirst`, `Resends`, `Reminders`, `Ledger`,
  `PlusOnes`, `Overfull`, `Deletion`, `Approvals` and `Replies` prove properties of whole runs and of pairs of calls.
  `ConfirmationEffects`, `ApprovalEffects`, `GuestEffects` and `AdminEffects` say of every single call, told from outside
  in columns, numbers and messages, when it is refused, and with which error, and what exactly it leaves behind.
* **The services as they run** (`Platform` for what they share, then `ConfirmationService`, `AdminWriteService`,
  `GuestWriteService`, `InvitationWriteService`, `Handlers`): classes with the loops and early returns of the code.
  Each method is proved to leave exactly the state, and end exactly as, the function of the same name in `Operations`
  or `Confirmation` says, so every result about runs is a result about these methods.
* **Four smaller pieces**: the choice behind a magic link (`MagicLink`), the rate limiter in front of it
  (`RateLimiter`), the last-writer-wins access projection (`Access`), and the dedupe of an import (`Imports`).

`dafny verify dfyconfig.toml` checks everything.

## Assumptions

* In the outbox protocol the instances share a clock, and the filter of a claim and the `lockedAt` it writes use one
  reading of it, taken at any moment up to the write. A write that fails has no effect.
* In the store each service call is one atomic step. The code reads before its transactions, so two overlapping calls
  can do what no sequence of calls does; that is not covered.
* Requests to the rate limiter's store are ordered in time.
* Invitation ids and cache tokens are fresh: they are numbers in order of creation. Parents are named at creation and
  must exist then (a foreign key with cascade).
* The caller's event permissions, the outcome of the access grant and the active event come as parameters. Clock
  readings within one call agree.
* A missing name is the empty string. Contact columns that decide nothing (e-mail, notes, phone labels) are left out
  of the rows; the phone numbers a call carries are there for its checks.

## What the proofs show about the code

Where the code does not keep a property one would expect of it, the property comes with an input that breaks it and
with the exact condition under which it holds.

* **A resend never sends a link itself.** It would only if the stored payload named a seat
  (`Reminders.ResendLinksExactlyWithSeat`), and no call ever stores one (`Reminders.ResendSendsNoLink`). Every resend
  goes through a seat request, and `confirmationResendCount` stays 0. So **the reminder cap bounds reminders exactly when
  it is not positive** (`Reminders.CapBoundsExactlyWhenNotPositive`), and from the empty store there are runs with any
  number of reminders under any positive cap (`Reminders.RemindersWithoutBound`).
* **Some acceptances can never get a link.** An unlinked acceptance can still get one exactly when it has a stored
  contact (`Approvals.LinkExactlyWithContact`). One that was rejected has none for good, nor have the plus-ones that a
  reply or a public RSVP creates (`Approvals.RejectionIsFinal`, `Approvals.ReplyPlusOnesGetNoLink`,
  `Approvals.PublicPlusOnesGetNoLink`).
* **`approve` may throw after writing**, exactly when it passed its first checks and an unlinked row lacks a name or its
  contact; the retry is then refused as already approved (`Approvals.ApprovalThrowsAfterWriting`).
* **The service's own README.md:52 says that plus-ones are capped by `maxInvitees`; the code does not keep that.** A reply
  creates children without lowering the number, so the same places can be used again (`PlusOnes.PlacesCanBeUsedTwice`).
  Capacity plus children follows a conservation law (`Ledger.PlusOneLedger`), and plus-ones can be pushed past what was
  granted exactly when more children were given without a slot than were taken without giving one back
  (`Overfull.OverfullExactlyByGifts`); a single call does that exactly when it is about to give one
  (`Overfull.OneCallBreaksTheCap`).
* **A negative capacity can only come from an import** (`PlusOnes.CapacityStaysNonNegative`); a reply then cuts the list
  from its end (`Replies.YesBringsTheFirstPeople`).
* **Backoff spacing can fail with two instances** (`OutboxBackoff.TwoInstancesBreakBackoff`). It holds throughout a run
  exactly when no claim succeeds on a record whose `nextAttemptAt` lies ahead, the filter the claim lacks
  (`OutboxBackoff.SpacedUnlessClaimedEarly`); a lone instance makes no such claim.
* **A publish that outlives its lease may lose a recorded failure** (`OutboxBackoff.LatePublishLosesAFailure`). With no
  timing assumption the count is exact at the end of a run exactly when no failure was written on a count another publish
  had overtaken (`OutboxCounting.ExactUnlessOvertaken`).
* **Ten magic-link requests per window are twenty in a moment**, across a window's edge, and never more
  (`RateLimiter.TwentyIsReached`, `RateLimiter.AtMostTwentyAnHour`). An address is shut out for good exactly when its key
  has no expiry and counted ten (`RateLimiter.ShutOutExactlyWhenFull`).
* **Equal times in the access projection are settled by the order of arrival**
  (`Access.ConvergesExactlyWhenNewestAgree`), and what counts is what came since the event was last deleted
  (`Access.StoresANewestSinceDeletion`).
* **Import keys join first and last name with a hyphen.** Two names share a key exactly when one is the other split at a
  later hyphen (`Imports.KeysCollideExactlyAtHyphens`), and a new person is dropped exactly then
  (`Imports.DroppedExactlyOnCollision`).

## Main results

The table below has a row for every member that models or states something. The results are these; the other rows are
the running code and the steps on the way.

* Outbox: `OutboxProtocol.PublishedOnlyAfterASend`, `OutboxProtocol.LeaseSafety`, `OutboxProtocol.MutualExclusion`,
  `OutboxCounting.ExactUnlessOvertaken`, `OutboxBackoff.SpacedUnlessClaimedEarly`,
  `OutboxRetry.RetriesFollowTheTable`, `OutboxRetry.TenAttemptsTakeAWhile`,
  `OutboxPublisher.CleanPassPublishesTheBatch`, `OutboxPublisher.PassIsARun`, `OutboxProgress.NoOpenRecordIsStuck`.
* Store: `Invariants.StoreRun`, `Evolution.LastsRun`, `Replies.AnswersFitStatuses`, `Replies.AnswersAreFinal`,
  `Replies.YesBringsTheFirstPeople`, `Replies.PublicBringsEveryone`.
* Plus-ones: `Ledger.PlusOneLedger`, `Overfull.OverfullExactlyByGifts`, `Overfull.OneCallBreaksTheCap`,
  `PlusOnes.CreateThenDelete`, `PlusOnes.CapacityStaysNonNegative`, `Deletion.AllAtOnceOrOneByOne`.
* Deletion: `Deletion.DeleteManyIsAllOrNothing`, `Deletion.DeletingTheTree`,
  `InvitationWriteService.InvitationWriteService.CollectInvitationTree`.
* Approval: `Approvals.StageThenUnstage`, `Approvals.StagingCommutesWithYes`, `Approvals.ApprovalThrowsAfterWriting`,
  `Approvals.LinkExactlyWithContact`, the three `...AutoApprovalNeverTrips`.
* Confirmation: `SeatFirst.NoLinkWithoutSeat`, `SeatFirst.SentWhileActionable`, `Resends.FirstSendIgnoresTheCache`,
  `Resends.ResendsKeepTheCooldown`, `Reminders.RemindersStayBelowTheCap`, `Reminders.CapBoundsExactlyWhenNotPositive`.
* Single calls: `ApprovalEffects.ApprovalDelivers`, `ApprovalEffects.ReplyDecides`, `ApprovalEffects.PlusOneDecides`,
  `ConfirmationEffects.FirstSend`, `ConfirmationEffects.AheadIsComplete`, `ConfirmationEffects.ResendEffects`,
  `GuestEffects.ReplyEnds`, `GuestEffects.CreatePlusOneEnds`, `GuestEffects.DeleteAllEnds`,
  `AdminEffects.DeleteManyFails`, `AdminEffects.DeleteByGuestEffect`, `AdminEffects.LinkThenDelete`.
* Smaller pieces: `MagicLink.DispatchesToTheOne`, `MagicLink.OrderDoesNotMatter`, `RateLimiter.AtMostTwentyAnHour`,
  `RateLimiter.ShutOutExactlyWhenFull`, `Access.ConvergesExactlyWhenNewestAgree`, `Access.StoresANewestSinceDeletion`,
  `Imports.KeysCollideExactlyAtHyphens`, `Imports.RetryCompletesTheImport`.

## Model

| member | source | states |
|---|---|---|
| OutboxRow.BackoffNeverDecreases | src/analytics/analytics-outbox.publisher.ts:100-114 | the delay never falls from one attempt to a later one and never exceeds 300 s |
| OutboxRow.BackoffTotal | src/analytics/analytics-outbox.publisher.ts:100-114 | the nine delays between ten attempts add up to 810 s, and only the ninth is capped |
| OutboxProtocol.PublishedOnlyAfterASend | src/analytics/analytics-outbox.publisher.ts:68-117 | any number of instances, any interleaving, no timing assumption: a set `publishedAt` or `deadLetteredAt` stays set, `publishedAt` needs an acknowledged send, dead-lettering needs ten recorded failures |
| OutboxProtocol.LeaseStep | src/analytics/analytics-outbox.publisher.ts:47-118 | while every live publish is within 60 s of its claim, one step of any instance keeps ownership, exact counting and finished rows |
| OutboxProtocol.LeaseSafety | src/analytics/analytics-outbox.publisher.ts:47-118 | over every such run: `attempts` is the number of recorded failures, a record is dead-lettered exactly at its tenth, never both published and dead-lettered, and a finished row never changes again |
| OutboxProtocol.MutualExclusion | src/analytics/analytics-outbox.publisher.ts:47-61 | at most one live instance is between claim and finish of a record |
| OutboxCounting.CountsStayExact | src/analytics/analytics-outbox.publisher.ts:99-116 | from a state with exact counts one step keeps them exact if and only if it is not a failure write on a count that is no longer the row's |
| OutboxCounting.ExactUnlessOvertaken | src/analytics/analytics-outbox.publisher.ts:68-117 | every run, no timing assumption: at its end the count of a record equals its recorded failures if and only if none was written on an overtaken count; once short, it stays short |
| OutboxBackoff.OneInstanceKeepsBackoff | src/analytics/analytics-outbox.publisher.ts:27-66 | with a single instance no record is sent before its `nextAttemptAt`, whatever fails or crashes |
| OutboxBackoff.SpacingStep | src/analytics/analytics-outbox.publisher.ts:47-58 | while publishes are in time, a step keeps everybody from holding a record early if and only if it is not a claim that succeeds on a record with `nextAttemptAt` ahead |
| OutboxBackoff.SpacedUnlessClaimedEarly | src/analytics/analytics-outbox.publisher.ts:33-58 | over every run in time, any number of instances: nobody ever holds a record early if and only if no such claim happens |
| OutboxBackoff.EarlyClaimSendsEarly | src/analytics/analytics-outbox.publisher.ts:47-89 | after such a claim and its read the record is being sent early |
| OutboxBackoff.TwoInstancesBreakBackoff | src/analytics/analytics-outbox.publisher.ts:47-58 | a run of two instances, every publish in time, in which one sends before `nextAttemptAt` |
| OutboxBackoff.LatePublishLosesAFailure | src/analytics/analytics-outbox.publisher.ts:99-116 | a run with a publish longer than its lease: two recorded failures leave a count of one |
| OutboxRetry.RetriesFollowTheTable | src/analytics/analytics-outbox.publisher.ts:99-116 | over every run in time: a record with k = 1..9 recorded failures is due again 2, 4, 8, 16, 32, 64, 128, 256 or 300 s after the last of them, and at its tenth it is dead-lettered with that time |
| OutboxRetry.TenAttemptsTakeAWhile | src/analytics/analytics-outbox.publisher.ts:27-117 | over every run of a lone instance, crashes included and with no timing assumption: the first and the tenth recorded failure of a record are at least 810 s apart |
| OutboxRetry.FailureWrites | src/analytics/analytics-outbox.publisher.ts:99-116 | a failure write stores the count it read plus one, releases the row, keeps the error and either the next of those waits or, at ten, the dead letter; no other row changes |
| OutboxRetry.BatchMeans | src/analytics/analytics-outbox.publisher.ts:33-45 | a scan returns at most fifty unfinished, due rows that nobody locked within the last minute, oldest first, and leaves one out only for fifty that are no younger |
| OutboxPublisher.Publisher.FindCandidates | src/analytics/analytics-outbox.publisher.ts:33-45 | the batch holds due rows only, each once, oldest first, at most fifty, and leaves out no row older than one it takes |
| OutboxPublisher.Publisher.Publish | src/analytics/analytics-outbox.publisher.ts:68-117 | how each way the awaits can end leaves row, clock, acknowledged sends and the pass |
| OutboxPublisher.Publisher.PublishReady | src/analytics/analytics-outbox.publisher.ts:27-66 | a tick during a pass does nothing; otherwise one pass over one batch, and `running` is false again however it ends |
| OutboxPublisher.AllDelivered | src/analytics/analytics-outbox.publisher.ts:46-62 | when all sends and writes succeed every candidate is published, in order, and no other row changes |
| OutboxPublisher.CleanPassPublishesTheBatch | src/analytics/analytics-outbox.publisher.ts:33-62 | such a pass publishes the fifty oldest due rows, or all of them if there are fewer |
| OutboxPublisher.PassIsARun | src/analytics/analytics-outbox.publisher.ts:27-117 | every pass of the running code, from its scan to its end and however its awaits end, is a run of the protocol by that instance with the same batch, rows, clock and acknowledged sends |
| OutboxProgress.NoOpenRecordIsStuck | src/analytics/analytics-outbox.publisher.ts:27-117 | from any state, whatever others crashed in: a run of one resting instance and the clock publishes any given open record |
| Forest.ClosureIsLeast | src/prisma/generated/internal/class.ts:23 | what a cascade removes is the least set with the roots that is closed under children |
| Forest.CascadeKeepsForest | src/prisma/generated/internal/class.ts:23 | a cascade leaves no row with a missing parent |
| Forest.CascadeTwice | src/prisma/generated/internal/class.ts:23 | deleting one set and then another is deleting both at once |
| Rsvp.DecisionMeaning | src/invitation/models/domain/rsvp.domain.ts:23-59 | the decision is refused exactly for a repeated YES or NO; a decided status fits its answer, and contact is asked for exactly when a YES brings it |
| Invariants.StoreStep | src/invitation/service/guest-write.service.ts:126-1162 | every call, message, job and outside event keeps: parents form a forest, status fits answer, pending token and payload come together, a live cache entry equals the stored payload, tokens are unique, no payload names a seat, no resend is counted |
| Invariants.StoreRun | src/invitation/service/guest-write.service.ts:126-1162 | so does every run |
| Invariants.ApproveKeeps | src/invitation/service/invitation-admin.write.service.ts:170-349 | an approval or rejection keeps it, also when it throws after writing |
| Invariants.ReplyKeeps | src/invitation/service/guest-write.service.ts:126-414 | a reply with its children, contact and automatic approval keeps it |
| Invariants.SendFirstKeeps | src/invitation/service/guest-confirmation.service.ts:84-162 | a first send keeps it: the new token's cache entry and the stored payload agree |
| Invariants.DeleteEachIsACascade | src/invitation/service/invitation-admin.write.service.ts:529-539 | deletes one after the other add up to one cascade |
| Evolution.LastsStep | src/invitation/service/guest-write.service.ts:144-156 | from any state: no step reuses an id, changes a parent, a YES or NO, undoes a guest link, gives an acceptance without a contact one, or lowers the resend count |
| Evolution.LastsRun | src/invitation/service/guest-write.service.ts:144-156 | nor does any run |
| Evolution.SendFirstEffect | src/invitation/service/guest-confirmation.service.ts:84-162 | a first send adds one link and then only reminders, for a row that is unlinked, approved or accepted and holds the link's token; otherwise it does nothing |
| Replies.AnswersFitStatuses | src/invitation/service/guest-write.service.ts:151-156 | in every reachable store CANCELED does not occur and every status allows exactly the answers listed; a NO is declined or rejected |
| Replies.AnswersAreFinal | src/invitation/service/guest-write.service.ts:144-146 | a YES or NO is never changed by any later run, nor the parent, nor a guest link removed |
| Replies.YesBringsTheFirstPeople | src/invitation/service/guest-write.service.ts:176-321 | a YES creates the first people of the list that the row has places for, in order, as accepted children; the anchored contact names exactly them; other rows stay |
| Replies.OtherAnswersBringNobody | src/invitation/service/guest-write.service.ts:176-321 | a MAYBE or NO creates nobody and leaves contact, cache and other rows alone |
| Replies.PublicBringsEveryone | src/invitation/service/guest-write.service.ts:847-1031 | a public RSVP creates the invitee and everyone named with it under one fresh contact |
| GuestEffects.ReplyEnds | src/invitation/service/guest-write.service.ts:126-200 | every reason for refusing a reply, which then changes nothing: no row, an earlier YES or NO, a YES without details, without a phone number or with an incomplete person among those there are places for; otherwise it can fail only in the approval it triggers |
| GuestEffects.ReplyBrings | src/invitation/service/guest-write.service.ts:222-268 | every column of every plus-one a YES creates |
| GuestEffects.PublicEnds | src/invitation/service/guest-write.service.ts:820-839 | every reason a public RSVP is refused for; otherwise it can fail only on an empty name |
| GuestEffects.PublicBrings | src/invitation/service/guest-write.service.ts:888-918 | every column of every plus-one a public RSVP creates |
| SeatFirst.LogStep | src/invitation/service/guest-confirmation.service.ts:102-182 | from any state one step keeps: every link so far had its seat granted before or named by its row's stored payload, none follows a guest link, and every scheduled job's seat was granted |
| SeatFirst.NoLinkWithoutSeat | src/invitation/service/guest-confirmation.service.ts:102-182 | every run from the empty store: a link carries a seat that an approval or a `seat.reserved` gave the same invitation before, and none goes out after the invitation was linked to a guest |
| SeatFirst.SentWhileActionable | src/invitation/service/guest-confirmation.service.ts:105-127 | from any state, whatever the step: a link goes out only for a row that is then unlinked, approved or accepted, and holds the link's token |
| SeatFirst.NoContactNoLink | src/invitation/service/guest-confirmation.service.ts:129-149 | an acceptance without a stored contact never gets a link, in any later run |
| SeatFirst.LogOnlyGrows | src/invitation/service/guest-confirmation.service.ts:84-343 | nothing that was sent is taken back |
| Resends.FirstSendIgnoresTheCache | src/invitation/service/guest-confirmation.service.ts:129-149 | in a reachable store the first send decides, writes and emits the same for any cache content, and depends only on link, status and pending contact |
| Resends.CeilNeverShortens | src/invitation/service/guest-confirmation.service.ts:315-316 | rounding the cooldown up to seconds never shortens it and adds less than a second |
| Resends.CooldownStep | src/invitation/service/guest-confirmation.service.ts:305-316 | every step keeps: the key of an accepted resend lasts for the cooldown unless it was evicted |
| Resends.ResendsKeepTheCooldown | src/invitation/service/guest-confirmation.service.ts:305-332 | every run: two accepted resends of one invitation are at least the cooldown apart unless its key was evicted in between |
| Reminders.ReminderRespectsTheCap | src/handlers/guest-confirmation-reminder.handler.ts:140-166 | from any state a reminder counts at most one resend, of its own row, and only below the cap |
| Reminders.RemindersStayBelowTheCap | src/handlers/guest-confirmation-reminder.handler.ts:140-166 | from any state, over runs whose only resends are reminders under a fixed cap: the count never falls, rises by at most one per reminder, and never passes a cap at or above its start |
| Reminders.CapPassesExactlyWhenPositive | src/handlers/guest-confirmation-reminder.handler.ts:140-151 | in a reachable store the cap lets a reminder pass exactly when it is positive |
| Reminders.ResendLinksExactlyWithSeat | src/invitation/service/guest-confirmation.service.ts:318-333 | from any state a resend sends a link exactly when it is accepted and the stored payload names a seat |
| Reminders.ResendSendsNoLink | src/invitation/service/guest-confirmation.service.ts:318-333 | in a reachable store no resend does |
| Reminders.TheCapDoesNotBoundLinks | src/invitation/service/guest-confirmation.service.ts:318-333 | for an invitation whose reminder goes out now: for every n there is a run in which n reminders are accepted and n further links go out, the count staying 0 |
| Reminders.AnyPublicGuestIsWaiting | src/invitation/service/guest-write.service.ts:811-1031 | one public RSVP to the empty store is such an invitation, under the default cap |
| Reminders.RemindersWithoutBound | src/handlers/guest-confirmation-reminder.handler.ts:137-166 | so from the empty store, under any positive cap, any number of reminders is accepted |
| Reminders.CapBoundsExactlyWhenNotPositive | src/handlers/guest-confirmation-reminder.handler.ts:137-166 | over all runs under it, the cap bounds the accepted resends of an invitation waiting for its reminder if and only if it is not positive |
| Confirmation.ScheduledRemindersAreNotEarly | src/invitation/service/guest-confirmation.service.ts:520-558 | a preset reminder is scheduled ahead, for a preset of the list, and the reminder job turns it away as early exactly before its due time |
| ConfirmationEffects.FirstSend | src/invitation/service/guest-confirmation.service.ts:84-162 | a first send acts exactly on an unlinked approved or accepted row with a pending contact, stored or still cached: row and cache hold it under a new token, and the link with the given seat is followed in the log by exactly the reminders due: one for each known preset still ahead, in order, at the start minus 7, 3 or 1 days, or one after the fallback delay if no preset is usable |
| ConfirmationEffects.AheadIsComplete | src/invitation/service/guest-confirmation.service.ts:530-553 | a preset that is due ahead has as many reminders as the list names it, at its own time |
| ConfirmationEffects.ResendReasons | src/invitation/service/guest-confirmation.service.ts:256-316 | each verdict on a resend holds exactly for its own reason |
| ConfirmationEffects.ResendEffects | src/invitation/service/guest-confirmation.service.ts:256-343 | a resend acts exactly if no such reason holds: a cooldown in whole seconds, the configured one rounded up, and then either the link with the stored seat under a new token, counted once, or one seat request |
| ConfirmationEffects.ReminderEffects | src/handlers/guest-confirmation-reminder.handler.ts:76-166 | a reminder turns into a resend exactly for a resendable row below the cap of its event, unless reminders are off or it comes before the start minus 7, 3 or 1 days |
| ConfirmationEffects.TicketEffects | src/handlers/ticket-generation.handler.ts:45-116 | a ticket job acts exactly on a row that is approved, unlinked, named and in contact: with a seat a first send, without one exactly one seat request |
| Ledger.LedgerStep | src/invitation/service/guest-write.service.ts:497-510 | one call moves capacity plus direct children of a surviving parent exactly by the children given without a slot and those an administrative delete names, or to the limit just granted |
| Ledger.LimitTotal | src/invitation/service/invitation-admin.write.service.ts:481-497 | a limit change makes capacity plus children equal the granted total, from any state, and moves no other parent's |
| AdminEffects.UpdateLimitEnds | src/invitation/service/invitation-admin.write.service.ts:461-500 | every reason a limit is refused for; otherwise the row has left what was granted less its present children |
| Ledger.PlusOneLedger | src/invitation/service/guest-write.service.ts:225-268 | over every run: capacity plus direct children is the last granted total plus the children given without a slot since, minus those taken by administrative deletes |
| Overfull.ExceedsExactlyBeyondTotal | src/invitation/service/guest-write.service.ts:497-510 | calls to createPlusOne can take a parent's children past a number exactly when capacity plus children exceeds it |
| Overfull.OverfullExactlyByGifts | src/invitation/service/guest-write.service.ts:176-181 | after any run that leaves the limit alone, plus-ones can be created past the granted total if and only if more children were given without a slot than were taken without giving one back |
| Overfull.OneCallBreaksTheCap | src/invitation/service/guest-write.service.ts:225-268 | one such call makes that possible if and only if it gives the parent a child without a slot |
| PlusOnes.CreateThenDelete | src/invitation/service/guest-write.service.ts:728-806 | deleting the plus-one just created, approved at once or not, succeeds and gives back the same rows and cache |
| PlusOnes.CapacityStaysNonNegative | src/invitation/service/guest-write.service.ts:497-510 | from a store without negative capacity a step leads to one exactly when it imports a negative number |
| PlusOnes.CapacityOverRuns | src/invitation/service/guest-write.service.ts:497-510 | without such an import no run does |
| GuestEffects.CreatePlusOneEnds | src/invitation/service/guest-write.service.ts:419-515 | every reason a createPlusOne is refused for, told from the call and the parent row; one that is not refused always succeeds |
| GuestEffects.UpdatePlusOneEnds | src/invitation/service/guest-write.service.ts:630-723 | every reason an update is refused for; otherwise the two names of that row change and nothing else |
| GuestEffects.DeletePlusOneEnds | src/invitation/service/guest-write.service.ts:728-806 | every reason a deletion is refused for; otherwise the row, those under it and its token are gone, the parent has one place more, and a linked guest's deletion is asked for |
| GuestEffects.DeleteAllEnds | src/invitation/service/guest-write.service.ts:1070-1145 | the children in the parent's event are gone with those under them and their tokens, the parent has one place more for each, their guests' deletion is asked for, and nothing else changes |
| GuestEffects.GuestsCounted | src/invitation/service/guest-write.service.ts:1094-1109 | a user is named in that request as often as a removed child is linked to it |
| PlusOnes.PlacesCanBeUsedTwice | src/invitation/service/guest-write.service.ts:225-268 | what could be created before a reply can be created after it; a childless parent whose reply filled its places ends with one child too many |
| Deletion.DeleteEachSucceedsIffClean | src/invitation/service/invitation-admin.write.service.ts:529-539 | the loop succeeds exactly for lists of existing ids of the active event, none repeated or below an earlier one |
| Deletion.DeleteManyIsAllOrNothing | src/invitation/service/invitation-admin.write.service.ts:521-544 | a bulk delete succeeds exactly for such a non-empty list and then removes the listed rows with all descendants; otherwise nothing changes |
| AdminEffects.DeleteManyEffect | src/invitation/service/invitation-admin.write.service.ts:521-544 | a bulk delete that succeeds takes exactly the listed rows and those under them |
| AdminEffects.DeleteManyFails | src/invitation/service/invitation-admin.write.service.ts:521-544 | one that fails changes nothing and gives the reason of the first id that cannot be deleted: gone with an earlier one, never there, or of another event |
| AdminEffects.DeleteOneEnds | src/invitation/service/invitation-admin.write.service.ts:505-515 | a delete is refused exactly for a missing row or another active event; otherwise the row goes with those under it |
| Deletion.DeletingTheTree | src/invitation/service/invitation-write.service.ts:145-160 | deleting the collected tree is cascade-deleting its roots, and no survivor misses its parent |
| AdminEffects.DeleteByGuestEffect | src/invitation/service/invitation-write.service.ts:130-169 | exactly the rows linked to the guest and those under them go |
| AdminEffects.DeleteByEventsEffect | src/invitation/service/invitation-write.service.ts:171-190 | exactly the rows of the events and those under them go |
| AdminEffects.LinkThenDelete | src/invitation/service/invitation-write.service.ts:130-204 | a link stores the user in that row, so linking a user and then deleting it takes exactly that row, the rows it was linked to before, and everyone under one of them |
| Deletion.AllAtOnceOrOneByOne | src/invitation/service/guest-write.service.ts:1070-1162 | when the children share the parent's event, removing all plus-ones at once and one by one in any order leave the same rows, cache and guests to delete |
| Deletion.SameGuests | src/invitation/service/guest-write.service.ts:1086-1110 | the order of the query does not change which guests are deleted |
| Approvals.StageIsAllOrNothing | src/invitation/service/invitation-admin.write.service.ts:616-641 | a batch is staged or unstaged exactly when every member exists, is in the active event and has a fitting status; otherwise nothing changes |
| AdminEffects.StageEffect | src/invitation/service/invitation-admin.write.service.ts:643-658 | staging marks every row of the batch; unstaging makes a row ACCEPTED if it holds a YES and else PENDING; no other row changes |
| AdminEffects.FirstStageFailure | src/invitation/service/invitation-admin.write.service.ts:623-641 | in the order of the query the first row that may not change stage decides the error: another event, or a status that does not fit |
| Approvals.StageThenUnstage | src/invitation/service/invitation-admin.write.service.ts:632-654 | from any state, unstaging what was staged gives back the same store exactly when ACCEPTED goes with YES throughout the batch |
| Approvals.ReachableStageThenUnstage | src/invitation/service/invitation-admin.write.service.ts:632-654 | in a reachable store it always does |
| Approvals.StagingCommutesWithYes | src/invitation/service/guest-write.service.ts:151-156 | without automatic approval, staging then a YES and a YES then staging leave the same store |
| Approvals.ReplyAutoApprovalNeverTrips | src/invitation/service/guest-write.service.ts:391-407 | the approval a reply triggers fails only in the access grant or on an empty name |
| Approvals.PlusOneAutoApprovalNeverTrips | src/invitation/service/guest-write.service.ts:607-614 | the approval of a plus-one created by staff or under an approved parent always goes through |
| Approvals.PublicAutoApprovalNeverTrips | src/invitation/service/guest-write.service.ts:1054-1061 | the approval of a public RSVP fails only on an empty name |
| Approvals.ApprovalThrowsAfterWriting | src/invitation/service/invitation-admin.write.service.ts:226-278 | an approve call throws with the store changed if and only if it passed the first checks and an unlinked row lacks a name or its contact; then the approval is stored, the error says which is missing, and the retry is refused |
| ApprovalEffects.ApprovalOutcomes | src/invitation/service/invitation-admin.write.service.ts:181-278 | for every ending of an approve call the exact condition on row and caller |
| ApprovalEffects.ApprovalDelivers | src/invitation/service/invitation-admin.write.service.ts:246-318 | a complete approval of an unlinked row: if tickets are held back until a time ahead, one job due then and no link or request; otherwise with a seat the link with that seat under a new token; otherwise exactly one seat request |
| ApprovalEffects.ApprovalOfGuest | src/invitation/service/invitation-admin.write.service.ts:206-262 | the approval of a linked row changes status and approver and logs the seat, nothing else |
| ApprovalEffects.ApprovalOfIncomplete | src/invitation/service/invitation-admin.write.service.ts:226-278 | an incomplete row is stamped in the same way although the call throws |
| ApprovalEffects.RejectionDrops | src/invitation/service/invitation-admin.write.service.ts:321-338 | a rejection drops token, payload and cache entry, stores status and approver, and changes nothing else |
| ApprovalEffects.ReplyDecides | src/invitation/service/guest-write.service.ts:137-407 | after a reply that is not refused: NO is declined, MAYBE pending, a staged YES stays staged, and any other YES is APPROVED by the inviter if and only if the row's own flag is set or the mode is AUTO, AUTO_PUBLIC_ONLY for a public or AUTO_INVITE_ONLY for a private row, and there is an inviter, and else ACCEPTED |
| ApprovalEffects.ReplyDelivers | src/invitation/service/guest-write.service.ts:391-407 | a reply approved at once asks for a seat, or leaves a ticket job when tickets are held back, and sends nothing else |
| ApprovalEffects.PublicDecides | src/invitation/service/guest-write.service.ts:847-1061 | every column of the invitee of a public RSVP; APPROVED at once if and only if the mode is AUTO or AUTO_PUBLIC_ONLY |
| ApprovalEffects.PublicDelivers | src/invitation/service/guest-write.service.ts:1054-1061 | such an approval asks for a seat or leaves a ticket job; without it nothing is sent |
| ApprovalEffects.PlusOneDecides | src/invitation/service/guest-write.service.ts:497-578 | every column of a new plus-one: APPROVED with YES if and only if the caller is staff, or the parent is APPROVED and the event's settings ask for no approval of plus-ones, and else PENDING without an answer; the parent has one place less and no other row changes |
| ApprovalEffects.PlusOneDelivers | src/invitation/service/guest-write.service.ts:607-617 | one approved at once asks for a seat or leaves a ticket job; any other sends nothing |
| Approvals.LinkExactlyWithContact | src/invitation/service/guest-confirmation.service.ts:129-149 | in a reachable store an unlinked acceptance gets a link in some later run if and only if it has a contact |
| Approvals.RejectionIsFinal | src/invitation/service/invitation-admin.write.service.ts:321-338 | after a YES was rejected no later run sends the invitation a link |
| Approvals.ReplyPlusOnesGetNoLink | src/invitation/service/guest-write.service.ts:225-268 | after the whole reply, automatic approval included, no run sends a plus-one it created a link |
| Approvals.PublicPlusOnesGetNoLink | src/invitation/service/guest-write.service.ts:888-918 | nor one that a public RSVP created |
| ConfirmationService.GuestConfirmationService.ResolvePendingContactPayload | src/invitation/service/guest-confirmation.service.ts:416-443 | the row's payload, else a live cache entry, else nothing |
| ConfirmationService.GuestConfirmationService.Emit | src/invitation/service/guest-confirmation.service.ts:445-486 | cache entry, row and link carry one fresh token and the same payload; a resend is counted |
| ConfirmationService.GuestConfirmationService.SendFirstConfirmation | src/invitation/service/guest-confirmation.service.ts:84-162 | refines `SendFirst`; true exactly when a link went out |
| ConfirmationService.GuestConfirmationService.SendFirstConfirmationOrReserve | src/invitation/service/guest-confirmation.service.ts:172-182 | with a seat a first send, without one a seat request |
| ConfirmationService.GuestConfirmationService.RequestSeatReservation | src/invitation/service/guest-confirmation.service.ts:189-250 | refines `RequestSeat`; true exactly when a seat was asked for |
| ConfirmationService.GuestConfirmationService.ResendConfirmation | src/invitation/service/guest-confirmation.service.ts:256-343 | refines `Resend`; the reason given is the first guard that fails |
| ConfirmationService.GuestConfirmationService.ScheduleReminders | src/invitation/service/guest-confirmation.service.ts:506-576 | schedules one job per known preset still ahead, in order, or the fallback delay |
| Handlers.Handlers.Remind | src/handlers/guest-confirmation-reminder.handler.ts:39-177 | nothing while the lock is held elsewhere; otherwise the guard chain lets exactly the reminders of `ReminderFires` through to a resend |
| Handlers.Handlers.GenerateTicket | src/handlers/ticket-generation.handler.ts:26-124 | nothing while the lock is held elsewhere; otherwise the delayed job acts only if the stored row still allows it |
| Handlers.Handlers.HandleReserved | src/handlers/guest-seat-reservation.handler.ts:51-66 | a reserved seat triggers the first send with that seat |
| AdminWriteService.AdminWriteService.CreateInvitation | src/invitation/service/invitation-admin.write.service.ts:77-164 | refines `Create`: checks, defaults from the event settings, the foreign key |
| AdminWriteService.AdminWriteService.Approve | src/invitation/service/invitation-admin.write.service.ts:170-349 | refines `Approve`: same refusals in the same order, same writes before and after the checks |
| AdminWriteService.AdminWriteService.AcceptInvitation | src/invitation/service/invitation-admin.write.service.ts:206-320 | the approving branch: grant, write, checks, scheduled release or confirmation |
| AdminWriteService.AdminWriteService.UpdatePlusOneLimit | src/invitation/service/invitation-admin.write.service.ts:461-500 | refines `UpdateLimit` |
| AdminWriteService.AdminWriteService.DeleteInvitation | src/invitation/service/invitation-admin.write.service.ts:505-515 | refines `DeleteOne` |
| AdminWriteService.AdminWriteService.DeleteMany | src/invitation/service/invitation-admin.write.service.ts:521-544 | the loop with its rollback refines `DeleteMany`, and reports the first failure |
| AdminWriteService.AdminWriteService.BulkStage | src/invitation/service/invitation-admin.write.service.ts:609-667 | the checking loop and the writing loop, in any order of rows, refine `Stage`; the error is that of the first row that fails in that order |
| AdminWriteService.AdminWriteService.ImportInvitations | src/invitation/service/invitation-admin.write.service.ts:816-915 | missing fields are all reported and import nothing; otherwise the kept lines are stored in order and the rest reported as duplicates; when an insert throws, the lines before it stay |
| AdminEffects.CreateEnds | src/invitation/service/invitation-admin.write.service.ts:77-121 | every column of a created row: approved upon a YES exactly in the modes AUTO and AUTO_INVITE_ONLY, the end taken from the settings, the rest from the caller |
| AdminEffects.ImportStores | src/invitation/service/invitation-admin.write.service.ts:872-901 | every column of every imported row: trimmed names, the number of the line, the importer as inviter |
| AdminEffects.TrimFindsTheCore | src/invitation/service/invitation-admin.write.service.ts:859-861 | trimming takes the blanks off both ends and nothing else |
| AdminEffects.FieldsReported | src/invitation/service/invitation-admin.write.service.ts:816-826 | the report names exactly the fields that are empty, each with its row in the file |
| AdminEffects.DuplicatesReported | src/invitation/service/invitation-admin.write.service.ts:865-870 | the duplicates are the names of exactly those lines whose key was taken before them |
| Imports.NothingMissing | src/invitation/service/invitation-admin.write.service.ts:816-826 | a file is free of errors exactly when every line has both names |
| Imports.EveryLineCounts | src/invitation/service/invitation-admin.write.service.ts:859-903 | imported plus duplicates is the number of lines |
| Imports.NothingKeptIffAllKnown | src/invitation/service/invitation-admin.write.service.ts:865-870 | nothing is imported exactly when every line's key was taken before |
| Imports.KeptKeysAreNew | src/invitation/service/invitation-admin.write.service.ts:865-901 | kept lines come from the file, with new keys, all different |
| Imports.KeptKeysCover | src/invitation/service/invitation-admin.write.service.ts:865-901 | afterwards every key of the file is in use and no other was added |
| Imports.StoredKeys | src/invitation/service/invitation-admin.write.service.ts:853-901 | the names in use after an import are those before it and those of the lines it stored |
| Imports.ImportingTwiceAddsNothing | src/invitation/service/invitation-admin.write.service.ts:853-903 | importing the same file again into the store it left adds nothing |
| Imports.RetryCompletesTheImport | src/invitation/service/invitation-admin.write.service.ts:865-903 | importing the file again after it stopped at any line stores exactly what one uninterrupted import would have stored besides |
| Imports.KeysCollideExactlyAtHyphens | src/invitation/service/invitation-admin.write.service.ts:853-863 | two different names share a key if and only if one is the other split at a later hyphen |
| Imports.DroppedExactlyOnCollision | src/invitation/service/invitation-admin.write.service.ts:853-870 | a name that is neither stored nor earlier in the file is dropped if and only if it collides with one that is |
| Imports.HyphensCollide | src/invitation/service/invitation-admin.write.service.ts:853-863 | two people whose hyphenated names share a key, of whom the second is dropped |
| InvitationWriteService.InvitationWriteService.ImportMany | src/invitation/service/invitation-write.service.ts:84-128 | the loop with its rollback refines `ImportMany`; a record may name an earlier row of the same import as parent |
| AdminEffects.ImportManyOutcome | src/invitation/service/invitation-write.service.ts:96-108 | an import of records goes through exactly if every parent is stored or comes earlier in the import; otherwise it stores nothing |
| AdminEffects.ImportManyStores | src/invitation/service/invitation-write.service.ts:96-108 | every column of every row it stores, in order |
| InvitationWriteService.InvitationWriteService.CollectInvitationTree | src/invitation/service/invitation-write.service.ts:206-228 | terminates on a forest without a visited check and returns the roots and exactly their descendants, even when one root is below another |
| InvitationWriteService.InvitationWriteService.DeleteByGuestId | src/invitation/service/invitation-write.service.ts:130-169 | leaves the store minus the descendants-or-self of the guest's invitations, again a forest |
| InvitationWriteService.InvitationWriteService.DeleteByEventIds | src/invitation/service/invitation-write.service.ts:171-190 | removes the events' invitations with their descendants, wherever those belong |
| InvitationWriteService.InvitationWriteService.AddGuestId | src/invitation/service/invitation-write.service.ts:192-204 | refines `LinkGuest` |
| GuestWriteService.GuestWriteService.Reply | src/invitation/service/guest-write.service.ts:126-414 | refines `Reply`: validation, transaction, automatic approval, and every way it throws |
| GuestWriteService.GuestWriteService.StoreReply | src/invitation/service/guest-write.service.ts:203-321 | the transaction: own row, children one by one, contact anchored in cache and row |
| GuestWriteService.GuestWriteService.CreateChildren | src/invitation/service/guest-write.service.ts:222-268 | the loop stores one accepted child per person, in order, and lists their ids |
| GuestWriteService.GuestWriteService.EnsureUserCanManageParentInvitation | src/invitation/service/guest-write.service.ts:1224-1269 | owner or creator, else staff of the event, else refused |
| GuestWriteService.GuestWriteService.CreatePlusOne | src/invitation/service/guest-write.service.ts:419-619 | refines `CreatePlusOne`: a slot taken, the child stored with its contact, approved when staff or the settings say so |
| GuestWriteService.GuestWriteService.UpdatePlusOne | src/invitation/service/guest-write.service.ts:630-723 | refines `UpdatePlusOne` |
| GuestWriteService.GuestWriteService.DeletePlusOne | src/invitation/service/guest-write.service.ts:728-806 | refines `DeletePlusOne`: cache entry, row, slot back, guest deletion |
| GuestWriteService.GuestWriteService.DeleteAllPlusOnes | src/invitation/service/guest-write.service.ts:1070-1162 | the loop, in whatever order the query returns the children, leaves the same state for every order |
| GuestWriteService.GuestWriteService.RemoveChildren | src/invitation/service/guest-write.service.ts:1086-1110 | each child is still there when its turn comes; afterwards rows, cache entries and guests of exactly the children are gone or collected |
| GuestWriteService.GuestWriteService.CreateFromPublicRsvp | src/invitation/service/guest-write.service.ts:811-1068 | refines `PublicRsvp` |
| MagicLink.ResolvesExactlyTheWinner | src/invitation/service/guest-magic-link.service.ts:83-128 | a candidate is chosen exactly when it is the only name match, or the only root among several, or, with a full name, the strictly newest root |
| MagicLink.OrderDoesNotMatter | src/invitation/service/guest-magic-link.service.ts:83-128 | every permutation of the candidates gives the same answer |
| MagicLink.SortIsSorted | src/invitation/service/guest-magic-link.service.ts:113-115 | the sort is a permutation, newest first |
| MagicLink.RequestIgnoresOrder | src/invitation/service/guest-magic-link.service.ts:170-195 | so does the whole request, reasons included |
| MagicLink.DispatchesToTheWinner | src/invitation/service/guest-magic-link.service.ts:176-198 | a link is dispatched to a user exactly when the winner among the eligible rows is that guest |
| MagicLink.DispatchesToTheOne | src/invitation/service/guest-magic-link.service.ts:83-128 | told row by row: a link goes to a user exactly if a linked, approved row of that user, its event not over and with the given name, is the only such row, or the only such root, or, with a name, the root updated last |
| MagicLink.OtherAnswers | src/invitation/service/guest-magic-link.service.ts:170-195 | no row, no such row with the first reason some row gives, or such rows but none to choose: each answer exactly then |
| MagicLink.IneligibleHasAReason | src/invitation/service/guest-magic-link.service.ts:263-278 | when no row is eligible one of the three named reasons applies |
| RateLimiter.GuestMagicLinkService.IsRateLimited | src/invitation/service/guest-magic-link.service.ts:287-298 | counts, sets the expiry after the first request of a window, limits from the eleventh; without an address or a store it neither counts nor limits |
| RateLimiter.AlwaysFits | src/invitation/service/guest-magic-link.service.ts:292-297 | however `incr` and `expire` of different requests interleave, windows of one address do not overlap and let ten requests through each |
| RateLimiter.AtMostTwentyAnHour | src/invitation/service/guest-magic-link.service.ts:292-297 | at most twenty requests of one address are let through in any span of 3600 s, ends included |
| RateLimiter.TwentyIsReached | src/invitation/service/guest-magic-link.service.ts:292-297 | twenty is tight: a burst across a window's edge gets all of its requests through |
| RateLimiter.ShutOutExactlyWhenFull | src/invitation/service/guest-magic-link.service.ts:293-296 | no later request of an address passes if and only if its key has no expiry, none is to come, and ten were counted |
| Access.EventRoleHandler.HandleUserAccessChanged | src/handlers/event-role.handler.ts:55-114 | a message older than the stored time is skipped, any other is stored with its time |
| Access.EventRoleHandler.HandleEventDeleted | src/handlers/event-role.handler.ts:282-302 | exactly the access entries, roles and settings of the deleted events go |
| Access.StoresANewest | src/handlers/event-role.handler.ts:69-100 | what is stored for a key is a newest message about it, as soon as there is one |
| Access.ConvergesExactlyWhenNewestAgree | src/handlers/event-role.handler.ts:69-100 | all orders with any repetition end alike exactly when the newest messages about the key do not disagree |
| Access.DistinctTimesConverge | src/handlers/event-role.handler.ts:69-100 | with distinct times per key every order ends in the newest message |
| Access.StoresANewestSinceDeletion | src/handlers/event-role.handler.ts:55-114 | over every run of messages and event deletions: a newest message about the key since its event was last deleted is what is stored, and nothing exactly when there was none since |

## Left out

- Overlapping calls: each call on the store is one step, so lost updates between calls that read before their transactions are not modelled.
- OutboxProtocol.LeaseSafety: assumes that every live publish ends within 60 s of its claim; `OutboxCounting.ExactUnlessOvertaken` says exactly what is left without that.
- Handlers.Handlers.Remind: whether the 60 s lock was free is a parameter; what else the lock service promises is not part of this model, and the results hold without it.
- Handlers.Handlers.GenerateTicket: as for `Remind`.
- Resends.ResendsKeepTheCooldown: allows for an evicted cooldown key, because the cache may drop it.
- MagicLink.ResolvesExactlyTheWinner: names are compared as already normalised strings; lower-casing and white space are not modelled, nor are identifiers.
- AdminWriteService.AdminWriteService.ImportInvitations: lines are parsed and mapped already, numbers are integers, white space is blank, tab and line ends, and a row stored without a name has the key of two empty names.
- `update`: nothing calls it; it also writes status and answer, and a null answer would break the coupling.
- `setGuestProfileId` and `addGuestProfileToInvitation`: nothing calls them; unlinking a guest would allow further links.
- `bulkApprove` and `resendGuestConfirmations`: one `approve` or resend after the other, stopped by the first that throws.
- `requestPublicResend`: one more source of resends, for the one invitation its contact filter matches.
- `reconcile-guest-links.ts`: one more source of seat requests.
- The role and settings projections: they compare with the time of the write and keep none after a removal, so they do not converge in general.
- Outbox rows enqueued by the services, milestones, seating messages, metrics, logs and traces: they decide nothing modelled here.
- File parsing, column mapping, permission resolution, GraphQL, configuration and wiring.

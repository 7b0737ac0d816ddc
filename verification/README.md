# Trader registry: verified model

A Dafny 4.11 model of the backend of the traders registry, and proofs about it. It covers

- **the consent protocol**: consent requests move through QUEUED, SENDING, SENT, FAILED, SUPERSEDED,
  ACCEPTED and DECLINED while admins edit, bulk-edit and delete the actors they ask, any number of
  dispatchers claim, mail and conclude, stale claims are swept, failures are retried, actors answer
  by link, and the clock runs;
- **the evidence rules** those writes must keep on the actor's consent record, and the audit trail
  that must retell them;
- **the bulk import**: duplicate classification over a bucketed index, the consent gate, chunked
  commits with bounded retry, and a report that must balance;
- **five small concurrent or arithmetic cores**: the mail transport's FIFO mutex, the
  compare-and-set append of duplicate dismissals, id allocation, the one-time-code budgets, and the
  LIKE escaper.

`dafny verify dfyconfig.toml` checks all of it.

## How it is modelled

| file | module | what it holds |
|---|---|---|
| `consent_types.dfy`, `consent_policy.dfy` | `ConsentTypes`, `ConsentPolicy` | consent columns, the provenance predicate, update rules 1 to 3, the link re-grant |
| `consent_requests.dfy` | `ConsentRequests` | request rows, the pending set, eligibility, supersession, sweep, retry |
| `bulk_consent.dfy` | `BulkConsent` | the bulk fill: per-row meaning, audit diffs, grouped in-place writes |
| `consent_protocol.dfy` | `ConsentProtocol` | the transition system: one step for each transaction or dispatcher statement |
| `consent_invariants.dfy`, `consent_history.dfy`, `consent_dispatch.dfy` | `ConsentInvariants`, `ConsentHistory`, `ConsentDispatch` | what every step keeps; what whole runs leave in the table, the trail and the mailbox |
| `consent_effects.dfy` | `ConsentEffects` | what each step does to the stored rows, column by column, and when it does nothing |
| `consent_service.dfy` | `ConsentService` | the services as loops and in-place updates, each proved to be a step or a run of the protocol |
| `sequences.dfy`, `intake_duplicates.dfy` | `Sequences`, `IntakeDuplicates` | stable sorting; the match relation, the partition by strength, the in-file index |
| `import_*.dfy` | `ImportRows`, `ImportClassification`, `ImportCommit`, `ImportReport`, `ImportRun` | one bulk import over an array of working rows, from validated rows to report |
| `mail_mutex.dfy`, `dismissals.dfy`, `identifiers.dfy`, `decimals.dfy`, `otp.dfy`, `like_escape.dfy` | `MailMutex`, `Dismissals`, `Identifiers`, `Decimals`, `Otp`, `LikeEscape` | the small cores |

Each `$transaction` is one atomic step. This is an assumption about the database: `remove`,
`bulkDelete` and `bulkSetConsent` do not lock the actor rows first, so under weaker isolation their
reads could be older than their writes. A dispatcher is not atomic: finding, claiming, re-checking,
mailing and writing the result are separate steps, and anything may happen between two of them. The
clock never runs backwards. Tokens are fresh and hashing is injective. A request is named by its place
in the table. A date is an instant together with its spelling, spelling 0 being what `toISOString`
writes, because the code compares submitted dates as text.

The environment (what other participants do in each gap, what the mail service or the database
answers, generated ids and codes) is a parameter of the methods, and every theorem is for all its
values.

## Where the code does not do what is promised

Each of these is a theorem with its exact condition, beside a concrete counterexample.

- **A SENT row's token is the one that was mailed.** Not when a claimant is swept, the row claimed
  again, and the first claimant then concludes: the row becomes SENT under the second claim's token,
  which may never be mailed (`LateClaimantLeavesUnmailedToken`). The stored hash is that of the
  token the concluding claimant mailed exactly when its attempt is still the row's latest
  (`SentHashMatchesExactlyWhenLatest`); if no claimant acts after its two minutes it always is a
  mailed token (`TimelySentRowHoldsMailedToken`).
- **Re-sending stored values is never refused.** Leaving aside a row left without an email, it is
  refused exactly when the date comes back in another spelling and the row answered by link or is
  GRANTED without a recorded method (`ResendUpdateRefusedExactlyWhen`; the provenance check alone,
  `ResendRefusedExactlyWhen`, refuses the second family only). `NonCanonicalResendIsRefused` holds a
  row of each family.
- **The bulk audit diff names only fields that changed.** It has a phantom date entry exactly when
  the batch re-spells the instant a link row already holds (`BulkDiffIsExactUnlessRespelled`).
- **Every breakdown reason is a template column or one of two literals.** A row that fails only
  because it names no crop has the reason `crops`, which is no column
  (`ReasonIsInVocabularyExactlyWhen`, `MissingCropsReasonIsNoColumn`).

## Model

| member | source | states |
|---|---|---|
| ConsentPolicy.ProvenanceMeansPostWriteEvidence | backend/src/common/consent-provenance.policy.ts:81-119 | the shared predicate refuses exactly the writes that would leave a GRANTED row without method or date, except those leaving a GRANTED row's provenance values as they were |
| ConsentPolicy.ApprovalIsEvidenced | backend/src/registrations/admin-registrations.service.ts:1001-1017 | the check inside approval can never refuse, and the published actor is GRANTED with the registration's evidence |
| ConsentPolicy.UpdateAcceptedExactlyWhen | backend/src/actors/actors-admin.service.ts:340-398 | an update is taken if and only if the row keeps an email, a move into GRANTED is acknowledged, link answers are neither asserted, inherited nor edited in place, and a row left GRANTED brings evidence or repeats what was stored; and which refusal comes first otherwise |
| ConsentPolicy.UpdateWritesColumns | backend/src/actors/actors-admin.service.ts:594-632 | a given column is written, an absent one kept, except that a link re-grant that names no reference loses the stored one |
| ConsentPolicy.CreateAcceptedExactlyWhen | backend/src/actors/actors-admin.service.ts:192-215 | a create is taken unless it is GRANTED without acknowledgement, recorded method and date; absent columns take their defaults |
| ConsentPolicy.UpdateKeepsEvidence | backend/src/actors/actors-admin.service.ts:594-632 | an accepted update leaves a row GRANTED without evidence only if the row already was |
| ConsentPolicy.UpdateNeverAssertsLink | backend/src/actors/actors-admin.service.ts:1010-1074 | no update moves a row into EMAIL_LINK or into a link grant, and while its status stays a link row keeps all its evidence |
| ConsentPolicy.ReGrantTakesPayloadAlone | backend/src/actors/actors-admin.service.ts:603-629 | a lapsed link row re-granted takes method, date and reference from the payload alone |
| ConsentPolicy.ResendRefusedExactlyWhen | backend/src/common/consent-provenance.policy.ts:96-105 | the provenance check refuses re-sent stored values if and only if a GRANTED row has a date, no recorded method, and the date's spelling differs |
| ConsentPolicy.ResendUpdateRefusedExactlyWhen | backend/src/actors/actors-admin.service.ts:1010-1074 | an update that re-sends the stored consent values is refused if and only if the row is left without an email, or its date is re-spelled and it answered by link or is GRANTED with no recorded method |
| ConsentPolicy.NonCanonicalResendIsRefused | backend/src/common/consent-provenance.policy.ts:132-141 | a concrete row and save in each refused family: no recorded method, and an answer by link |
| ConsentPolicy.LegacyRowStaysEditable | backend/src/actors/actors-admin.service.ts:594-632 | re-sending a row's stored consent values, the date as the API spells it, succeeds on every row with an email, evidenced or not, and changes at most the email |
| ConsentRequests.FindLatestRequest | backend/src/consent-requests/consent-eligibility.ts:61-76 | the loop returns the first row among the most recently created |
| ConsentRequests.PendingExactlyWhen | backend/src/consent-requests/consent-eligibility.ts:47-58 | queued, being sent and failed rows are pending, and sent ones until they expire; any other row of known dates is final |
| ConsentRequests.LatestIsNewest | backend/src/consent-requests/consent-eligibility.ts:61-76 | the latest of an actor's own rows is the first of its rows of greatest creation date in the whole table |
| ConsentRequests.LatestIsFirstMaximum | backend/src/consent-requests/consent-eligibility.ts:61-76 | the specification function names a row no other exceeds, the first such |
| ConsentRequests.RowsOfAnyPending | backend/src/consent-requests/consent-requests.service.ts:437-477 | an actor's own rows contain a pending one exactly when the whole table has a pending row of that actor |
| ConsentRequests.SupersededSetIsPendingSet | backend/src/consent-requests/consent-supersession.service.ts:24-54 | supersession writes exactly the rows eligibility calls pending and leaves none of them pending |
| BulkConsent.OnePatchPerKeySet | backend/src/actors/actors-admin.service.ts:784-872 | two rows that need the same fields get the same patch, so one shared write per key set is sound |
| BulkConsent.UnlockLeavesEvidence | backend/src/actors/actors-admin.service.ts:801-900 | after an unlock a row is GRANTED with method and date unless it was a link grant without evidence |
| BulkConsent.BatchPassesExactlyWhen | backend/src/actors/actors-admin.service.ts:750-770 | a lock always passes the gate, an unlock exactly with acknowledgement, a recorded method and a date |
| BulkConsent.BatchWritesColumns | backend/src/actors/actors-admin.service.ts:801-908 | a lock leaves DENIED and nothing else changed; an unlock leaves a link grant alone and gives every other row the batch's own value for each missing field, a lapsed link row for all three |
| BulkConsent.PreservedExactlyWhen | backend/src/actors/actors-admin.service.ts:801-848 | the preserved rows are the link grants and the rows that hold method and date of their own |
| BulkConsent.RecordedFieldsSurvive | backend/src/actors/actors-admin.service.ts:840-861 | no recorded field of a row that never answered by link is overwritten; a lapsed link row takes all three from the batch |
| BulkConsent.DiffReplays | backend/src/actors/actor-audit.service.ts:719-771 | carrying out an update's diff on the before-row gives exactly the after-row |
| BulkConsent.DiffsUndo | backend/src/actors/actor-audit.service.ts:293-351 | both diffs read backwards too: from the row after, the row before |
| BulkConsent.BulkDiffReplays | backend/src/actors/actor-audit.service.ts:293-351 | carrying out a bulk diff on the before-row gives exactly the written row |
| BulkConsent.BulkDiffIsExactUnlessRespelled | backend/src/actors/actor-audit.service.ts:301-346 | the bulk diff names exactly the fields the write changed, and besides them the date if and only if the batch re-spells a lapsed link row's own instant; with the canonical spelling it equals the field diff |
| BulkConsent.RespelledDateLeavesPhantom | backend/src/actors/actor-audit.service.ts:321-336 | a concrete row and batch whose diff names a date that did not move |
| BulkConsent.GateMakesPatchesUniform | backend/src/actors/actors-admin.service.ts:756-760 | past the gate, the patches of any found rows depend on their key sets only |
| BulkConsent.JoinGroup | backend/src/actors/actors-admin.service.ts:829-871 | adding a row to its key-set group keeps every row in exactly the group of its key set |
| BulkConsent.ActorTable.PartitionRows | backend/src/actors/actors-admin.service.ts:801-873 | the loop splits the found rows into preserved ones and groups, none lost, none twice |
| BulkConsent.ActorTable.BulkWrite | backend/src/actors/actors-admin.service.ts:885-908 | the grouped writes, in any group order, equal the per-row fill for every id list |
| ConsentProtocol.EligibleOf | backend/src/consent-requests/consent-requests.service.ts:437-477 | the eligible list holds exactly the eligible found actors, once each |
| ConsentProtocol.FindByToken | backend/src/consent-requests/consent-public.service.ts:179-233 | the row found carries the token's hash, and a miss means no row does |
| ConsentProtocol.EnqueueOnRow | backend/src/consent-requests/consent-requests.service.ts:203-246 | enqueue keeps or supersedes each old row, and each new row asks an existing actor at its address |
| ConsentInvariants.EnqueueKeepsInv | backend/src/consent-requests/consent-requests.service.ts:203-246 | enqueue keeps the invariant: bulk skips a pending actor, single supersedes first |
| ConsentEffects.OutcomeExactlyWhen | backend/src/consent-requests/consent-eligibility.ts:93-117 | each of the five eligibility outcomes, if and only if, over the actor and the table's own rows; a single request needs an address and no grant only |
| ConsentEffects.EnqueueWrites | backend/src/consent-requests/consent-requests.service.ts:203-246 | an enqueue writes one queued row, with this batch, requester, address and instant, for every target that may be asked and for no one else, and of the old rows changes only the pending ones a single resend replaces |
| ConsentEffects.BulkNeverAsksDecliner | backend/src/consent-requests/consent-eligibility.ts:107-114 | no bulk enqueue writes a row for an actor whose latest request was declined |
| ConsentEffects.AnswerWrites | backend/src/consent-requests/consent-public.service.ts:236-283 | an answer that is taken makes its actor GRANTED or DENIED by EMAIL_LINK with the instant and the request as evidence, its request ACCEPTED or DECLINED at that instant, logs one entry, and changes nothing else; any other answer changes nothing |
| ConsentEffects.UpdateWrites | backend/src/actors/actors-admin.service.ts:340-455 | an update that is taken moves that actor alone, logs its diff unless it is empty, and withdraws its pending requests exactly if status or email changed |
| ConsentEffects.CreateWrites | backend/src/actors/actors-admin.service.ts:192-285 | a create that is taken adds that actor alone and logs its snapshot |
| ConsentEffects.SetConsentWrites | backend/src/actors/actors-admin.service.ts:741-921 | a batch past the gate moves exactly the named actors that exist and withdraws all their pending requests, on a lock too |
| ConsentEffects.BatchLogs | backend/src/actors/actor-audit.service.ts:293-372 | one entry for each row whose diff says something, and no other |
| ConsentEffects.RemoveWrites | backend/src/actors/actors-admin.service.ts:945-970 | exactly the named actors go, each logged as it last was, and their pending requests are withdrawn |
| ConsentEffects.GrantIsAcknowledged | backend/src/actors/actors-admin.service.ts:380-388 | an actor becomes GRANTED only by an acknowledged create, update or unlock of that actor, or by an accepted and identified answer to its own request |
| ConsentEffects.ClaimWrites | backend/src/consent-requests/consent-requests.service.ts:306-330 | a claim takes a QUEUED row only, counts the attempt, stores the time and the hash, and changes nothing else |
| ConsentEffects.RecheckWrites | backend/src/consent-requests/consent-requests.service.ts:333-345 | a claim is cleared exactly if its actor exists, is not GRANTED and is at the address the request was made for, and otherwise ineligible |
| ConsentEffects.HandOverWrites | backend/src/consent-requests/consent-requests.service.ts:354-366 | a cleared claim mails its own token to the row's recipient, once |
| ConsentEffects.ConcludeWrites | backend/src/consent-requests/consent-requests.service.ts:346-391 | each result is written only on a row still SENDING: withdrawn, failed with the reason, or sent now with thirty days and its audit entry; the claim ends either way |
| ConsentEffects.SweepWrites | backend/src/consent-requests/consent-requests.service.ts:400-408 | rows claimed more than 120000 ms ago fail as stale, no other row moves |
| ConsentEffects.RetryWrites | backend/src/consent-requests/consent-requests.service.ts:414-420 | failed rows of the batch are queued again without a token, no other row moves |
| ConsentEffects.OnlyRecheckClears | backend/src/consent-requests/consent-requests.service.ts:333-345 | only a claim's own re-check clears it, in a state in which its actor may be asked at that address |
| ConsentEffects.MailWasRechecked | backend/src/consent-requests/consent-requests.service.ts:333-360 | in every run every message follows a re-check of its own claim that found the actor existing, not GRANTED and at exactly the address the message went to |
| ConsentInvariants.ClaimKeepsInv | backend/src/consent-requests/consent-requests.service.ts:306-330 | a claim keeps the invariant |
| ConsentInvariants.ConcludeKeepsInv | backend/src/consent-requests/consent-requests.service.ts:330-391 | each of the three result writes keeps the invariant, however late it comes |
| ConsentInvariants.SweepKeepsInv | backend/src/consent-requests/consent-requests.service.ts:400-408 | the stale sweep keeps the invariant |
| ConsentInvariants.RetryKeepsInv | backend/src/consent-requests/consent-requests.service.ts:414-420 | retry keeps the invariant |
| ConsentInvariants.UpdateKeepsInv | backend/src/actors/actors-admin.service.ts:340-455 | an update keeps the invariant because it supersedes on every status or email change |
| ConsentInvariants.SetConsentKeepsInv | backend/src/actors/actors-admin.service.ts:741-921 | a bulk status change keeps the invariant |
| ConsentInvariants.RemoveKeepsInv | backend/src/actors/actors-admin.service.ts:945-970 | deleting actors keeps the invariant |
| ConsentInvariants.RespondKeepsInv | backend/src/consent-requests/consent-public.service.ts:234-283 | an answer, accepted or declined, keeps the invariant |
| ConsentInvariants.LinkGrantComesFromAnswer | backend/src/consent-requests/consent-public.service.ts:236-280 | a step that leaves an actor with a link grant it did not have took the accepted answer to that actor's own request, and recorded that request and the instant |
| ConsentInvariants.StepKeepsInv | backend/src/consent-requests/consent-requests.service.ts:180-420 | every step of every participant keeps all four parts of the invariant |
| ConsentInvariants.AtMostOnePendingRequest | backend/src/consent-requests/consent-eligibility.ts:47-58 | in every reachable state each actor has at most one pending request |
| ConsentInvariants.GrantedActorHasNoPendingRequest | backend/src/consent-requests/consent-requests.service.ts:333-350 | in every reachable state a GRANTED or deleted actor has no pending request, and each pending request holds its actor's current, non-empty email |
| ConsentInvariants.LinkGrantIsBackedByAcceptedRequest | backend/src/consent-requests/consent-public.service.ts:236-280 | in every reachable state a link grant names an ACCEPTED request of that same actor, answered at the recorded date |
| ConsentInvariants.AnswerIsTakenExactlyWhen | backend/src/consent-requests/consent-public.service.ts:179-283 | an answer is taken if and only if its token names an unexpired SENT row (and an acceptance is identified); the actor then exists and is not GRANTED |
| ConsentInvariants.StepAddsNoUnevidenced | backend/src/common/consent-provenance.policy.ts:81-119 | no step of any participant adds an actor GRANTED without method or date |
| ConsentInvariants.EvidenceRatchet | backend/src/common/consent-provenance.policy.ts:81-119 | over any run the unevidenced actors are among those it began with |
| ConsentInvariants.UnlockInProtocol | backend/src/actors/actors-admin.service.ts:741-921 | in a reachable state an unlock leaves every found actor GRANTED with method and date, link grants included |
| ConsentHistory.FinalRowNeverChanges | backend/src/consent-requests/consent-requests.service.ts:306-420 | answered, superseded and expired rows never change again in any run; no row ever changes whom and where it asks |
| ConsentHistory.SentAtMeansEverSent | backend/src/consent-requests/consent-requests.service.ts:360-391 | a row carries a sent date exactly when some moment of the run had it SENT |
| ConsentHistory.AuditEntriesPerRow | backend/src/actors/actor-audit.service.ts:572-644 | the trail of any run has exactly one CONSENT_REQUESTED entry for a row that was ever SENT and none otherwise, and exactly one CONSENT_RESPONDED entry for an ACCEPTED or DECLINED row and none otherwise |
| ConsentHistory.StepIsReplayed | backend/src/actors/actor-audit.service.ts:190-413 | the entries one step appends, carried out on the registry before it, give the registry after it |
| ConsentHistory.TrailRebuildsRegistry | backend/src/actors/actor-audit.service.ts:190-644 | replaying a run's whole trail on the initial registry gives the registry as it is |
| ConsentDispatch.DispatchAccounting | backend/src/consent-requests/consent-requests.service.ts:306-420 | with any number of dispatchers, mails handed over for a row <= its attempts = claims made on it <= 1 + the retries that moved it |
| ConsentDispatch.StepOnMailbox | backend/src/consent-requests/consent-requests.service.ts:350-360 | mail leaves only when a re-checked claim is handed over, one message to the row's recipient |
| ConsentDispatch.TokenNamesOneRow | backend/src/consent-requests/consent-public.service.ts:179-233 | a token's hash is stored in at most one row of a reachable state |
| ConsentDispatch.SentHashMatchesExactlyWhenLatest | backend/src/consent-requests/consent-requests.service.ts:306-391 | when a claimant writes SENT, the stored hash is of the token it mailed if and only if its attempt is still the row's latest |
| ConsentDispatch.TimelySentRowHoldsMailedToken | backend/src/consent-requests/consent-requests.service.ts:306-408 | if no claimant acts after its two minutes, every SENT row stores the hash of a token mailed to its recipient |
| ConsentDispatch.LateClaimantLeavesUnmailedToken | backend/src/consent-requests/consent-requests.service.ts:360-408 | a concrete run with a late claimant that ends SENT under a token nobody was mailed |
| ConsentDispatch.IneligibleClaimWritesNothing | backend/src/consent-requests/consent-requests.service.ts:331-352 | in every run the row of a claim that failed its re-check is final already, so the guarded write to SUPERSEDED changes no row |
| ConsentDispatch.AtMostOneAnswerPerToken | backend/src/consent-requests/consent-public.service.ts:236-260 | however concurrent answers interleave, at most one per token is taken in a run |
| ConsentService.EveryTargetCounted | backend/src/consent-requests/consent-requests.service.ts:437-477 | eligible actors plus the four skip counts add up to the targets |
| ConsentService.SkipsAreCounted | backend/src/consent-requests/consent-requests.service.ts:437-477 | each skip count is the number of targets without address, granted, pending or declined, read off the tables |
| ConsentService.QueuedIsSize | backend/src/consent-requests/consent-requests.service.ts:286-288 | the remaining count is the number of queued rows of the batch |
| ConsentService.OthersDoAnything | backend/src/consent-requests/consent-requests.service.ts:306-391 | in a gap other participants may take any steps but those of the call's own claims |
| ConsentService.NextQueued | backend/src/consent-requests/consent-requests.service.ts:267-271 | the row picked is an oldest queued row of the batch, and none is picked only when none is queued |
| ConsentService.ConsentDatabase.PartitionEligibility | backend/src/consent-requests/consent-requests.service.ts:437-477 | the grouping loop computes exactly the eligible list and the skip counts |
| ConsentService.ConsentDatabase.Enqueue | backend/src/consent-requests/consent-requests.service.ts:180-246 | enqueue is the protocol's enqueue step, and reports how many rows it added |
| ConsentService.ConsentDatabase.SupersedePendingFor | backend/src/consent-requests/consent-supersession.service.ts:24-54 | the guarded loop writes exactly the rows of these actors that eligibility calls pending and leaves every other row, and is the protocol's supersession |
| ConsentService.ConsentDatabase.SweepStaleClaims | backend/src/consent-requests/consent-requests.service.ts:400-406 | every row that changes was SENDING for more than two minutes and fails as stale, none such is left, and the loop is the protocol's sweep step |
| ConsentService.ConsentDatabase.RetryAll | backend/src/consent-requests/consent-requests.service.ts:414-420 | every row that changes was FAILED in the batch and is queued without its token, none such is left, and the answer is the number of rows that changed |
| ConsentService.ConsentDatabase.ClaimAndSendOne | backend/src/consent-requests/consent-requests.service.ts:306-391 | whatever others do between its statements, the call is a run whose own steps are one claim, one re-check, at most one hand-over and one result write, and the claim ends as the call reports; a lost claim is no step at all |
| ConsentService.ConsentDatabase.ClaimQueued | backend/src/consent-requests/consent-requests.service.ts:319-332 | the guarded write is the protocol's claim and tells whether the row was still QUEUED |
| ConsentService.ConsentDatabase.RecheckActor | backend/src/consent-requests/consent-requests.service.ts:337-344 | reading the actor again is the protocol's re-check and clears exactly the still eligible claim |
| ConsentService.ConsentDatabase.SendCleared | backend/src/consent-requests/consent-requests.service.ts:354-390 | the mail call, its catch branch and the result write are a hand-over, a gap and a conclusion, and the outcome is how the claim ended |
| ConsentService.ConsentDatabase.WriteSuperseded | backend/src/consent-requests/consent-requests.service.ts:346-352 | an ineligible claim's guarded write is the protocol's conclusion |
| ConsentService.ConsentDatabase.WriteFailed | backend/src/consent-requests/consent-requests.service.ts:358-366 | a rejected mail's guarded write is the protocol's conclusion and counts as failed exactly if the row was still SENDING |
| ConsentService.ConsentDatabase.WriteSent | backend/src/consent-requests/consent-requests.service.ts:369-390 | SENT and its audit entry are written together exactly if the row was still SENDING, and are the protocol's conclusion |
| ConsentService.ConsentDatabase.Dispatch | backend/src/consent-requests/consent-requests.service.ts:254-297 | the call is exactly this run: the sweep, then turn by turn the claim of what that turn's find picked (none if the row left QUEUED meanwhile, mailed only if its re-check passed), then the count; sent counts exactly its own claims that ended SENT, the failures name in order the actor and reason of exactly its own that ended FAILED, and it stops early only when its last find saw nothing queued |
| ConsentService.ConsentDatabase.Respond | backend/src/consent-requests/consent-public.service.ts:179-283 | an answer is the protocol's respond step, and says whether it was taken |
| ConsentService.ConsentDatabase.UpdateRecord | backend/src/actors/actors-admin.service.ts:340-455 | an update is the protocol's step, with its success, result row and refusal |
| ConsentService.ConsentDatabase.LogBulkConsent | backend/src/actors/actor-audit.service.ts:293-372 | one entry for every row whose diff is not empty, in order |
| ConsentService.ConsentDatabase.BulkSetConsent | backend/src/actors/actors-admin.service.ts:741-921 | gate, log, grouped writes and supersession are together the protocol's step, with the applied and preserved counts |
| ConsentService.ConsentDatabase.RemoveAll | backend/src/actors/actors-admin.service.ts:640-661 | log, supersede and delete are together the protocol's step, and no id remains |
| Sequences.ArrivalOrderDoesNotMatter | backend/src/actors/intake-duplicate.service.ts:105-116 | a stable sort by a strict total order depends on the elements alone |
| Sequences.LeastComesFirst | backend/src/actors/actor-import.service.ts:1546-1548 | sorting by rank puts first the earliest element of least rank |
| IntakeDuplicates.MatchedOnMeaning | backend/src/registrations/duplicate-detection.service.ts:243-274 | each attribute is listed exactly when both sides carry the same non-empty value (or lie within the box), once; the list is empty exactly when nothing agrees |
| IntakeDuplicates.MatchedExactlyWhen | backend/src/registrations/duplicate-detection.service.ts:243-274 | over the raw candidate: each attribute matches by its own normalizer on both sides, non-empty, and the position within a hundredth of a degree each way |
| IntakeDuplicates.MatchingIsSymmetric | backend/src/registrations/duplicate-detection.service.ts:243-274 | two records match on the same attributes whichever is the candidate |
| IntakeDuplicates.PartitionMeaning | backend/src/actors/intake-duplicate.service.ts:105-116 | strong holds every phone or email match in order, weak the five that no dropped weak match precedes |
| IntakeDuplicates.PartitionIsRanked | backend/src/actors/intake-duplicate.service.ts:105-116 | both lists are ordered by number of attributes, then key, and a weak match is dropped only behind five that go before it |
| IntakeDuplicates.PartitionIgnoresArrival | backend/src/actors/intake-duplicate.service.ts:105-116 | the partition depends on which matches there are, not on the order they were found in |
| IntakeDuplicates.ClassifyAgainstSnapshot | backend/src/actors/intake-duplicate.service.ts:123-149 | the loop over a snapshot is the linear scan followed by the partition |
| IntakeDuplicates.StrongMeansSharedContact | backend/src/actors/intake-duplicate.service.ts:94-96 | the strong list is exactly the records sharing a non-empty normalized phone or email |
| IntakeDuplicates.MatchOne | backend/src/registrations/duplicate-detection.service.ts:277-318 | a registration's candidate list is the first five, by strength and key, of the matches still shown |
| IntakeDuplicates.ShownExactlyWhen | backend/src/registrations/duplicate-detection.service.ts:277-318 | a match is shown if and only if its actor is neither dismissed nor the registration's own, unless five others go before it by number of attributes and key |
| IntakeDuplicates.DismissedIsNeverShown | backend/src/registrations/duplicate-detection.service.ts:284-292 | neither a dismissed actor nor the registration's own published actor is ever listed |
| IntakeDuplicates.LatestAfter | backend/src/actors/intake-duplicate.service.ts:235-241 | adding a key replaces that key's record and keeps every other |
| IntakeDuplicates.IntakeDuplicateIndex.Add | backend/src/actors/intake-duplicate.service.ts:235-241 | every current record stays in its buckets, stale entries allowed |
| IntakeDuplicates.IntakeDuplicateIndex.CandidateKeys | backend/src/actors/intake-duplicate.service.ts:249-268 | the three buckets and the position scan miss no record that matches |
| IntakeDuplicates.IntakeDuplicateIndex.MatchInput | backend/src/actors/intake-duplicate.service.ts:249-287 | after any run of adds, in any iteration order, the result is that of a linear scan of the latest records |
| ImportClassification.CollectConfirmations | backend/src/actors/actor-import.service.ts:1043-1046 | the last entry for a row number is the one that counts |
| ImportClassification.ConfirmedExactlyWhen | backend/src/actors/actor-import.service.ts:1043-1046 | a key is confirmed for a row if and only if the last entry of that row number names it |
| ImportClassification.MatchesAreRecorded | backend/src/actors/actor-import.service.ts:1054-1100 | the first fifty strong matches in order, actors first, the number of all of them, every weak one as a warning, and held exactly if some strong one is unconfirmed |
| ImportClassification.ClassifyRow | backend/src/actors/actor-import.service.ts:1054-1100 | one row is decided against the actors and the rows indexed before it, then joins the index if it is valid |
| ImportClassification.ClassifyDuplicates | backend/src/actors/actor-import.service.ts:1034-1101 | the in-place loop gives every row its decision over the rows as they came |
| ImportClassification.HeldExactlyWhen | backend/src/actors/actor-import.service.ts:1034-1101 | a valid row is held if and only if some actor, or some earlier valid row, held ones included, shares its phone or email and is not named in its own confirmation |
| ImportClassification.SharedContactWasConfirmed | backend/src/actors/actor-import.service.ts:1084-1099 | a row that goes on and shares contact data with an earlier valid row has confirmed it |
| ImportClassification.RowAboveTheCapIsHeld | backend/src/actors/actor-import.service.ts:1067-1082 | with confirmations of at most fifty names, a row with more strong matches stays held |
| ImportClassification.ApplyConsentGate | backend/src/actors/actor-import.service.ts:1131-1202 | the in-place gate gives every row, held or not, its gated form |
| ImportClassification.GateMeaning | backend/src/actors/actor-import.service.ts:1142-1229 | a row fails the gate exactly when it would be GRANTED without evidence, or on commit unheld and unacknowledged; a failing row gains an error, any other changes in its warnings only |
| ImportClassification.GateSays | backend/src/actors/actor-import.service.ts:1131-1229 | a failing row gains exactly the fields it lacks, or the acknowledgement; a row that passes gains at most the preview warning |
| ImportCommit.ImportDatabase.Attempt | backend/src/actors/actor-import.service.ts:1284-1340 | a transaction yields its entries only if every statement succeeds, each confirmation resolved against all rows created so far |
| ImportCommit.ImportDatabase.CommitChunk | backend/src/actors/actor-import.service.ts:1267-1370 | the chunk is created and logged whole under the actor ids and the allocation of its committing attempt, the first that commits with only collisions before it and at most three in all; otherwise it fails whole and leaves no entry; exactly one allocation was made for each attempt that got numbers |
| ImportCommit.ImportDatabase.Commit | backend/src/actors/actor-import.service.ts:1239-1258 | every candidate ends created or rolled back as its own chunk of a hundred, a created one under the actor id and the own number of its chunk's committing attempt; no other row changes; the trail gains exactly one entry for each created row, resolved against what this import created; no two rows share a trader id |
| ImportCommit.EndsExactly | backend/src/actors/actor-import.service.ts:1341-1369 | column by column: a created row gains its two ids alone, a rolled-back one fails under the batch marker and carries no id |
| ImportCommit.CommitsExactlyWhen | backend/src/actors/actor-import.service.ts:1276-1369 | a chunk commits in the first of at most three attempts that commits, and only if all before it collided; the allocations made are the attempts that were reached and got numbers |
| ImportCommit.ChunksAreHundreds | backend/src/actors/actor-import.service.ts:1244-1258 | chunks start at the multiples of a hundred |
| ImportCommit.RolledBackAttemptIsNeverReported | backend/src/actors/actor-import.service.ts:1276-1369 | no created row carries an actor id or a trader id that an attempt which did not commit was given |
| ImportCommit.TrailNamesNoRolledBackAttempt | backend/src/actors/actor-import.service.ts:1278-1340 | no entry's own actor id and no actor id its confirmation resolves an earlier row to is one that an attempt which was rolled back was given |
| ImportCommit.TrailNamesNoRolledBackTraderId | backend/src/actors/actor-import.service.ts:1278-1340 | nor is any trader id there one that such an attempt's allocation gave out |
| ImportCommit.TrailIsComplete | backend/src/actors/actor-import.service.ts:1310-1340 | every created row has its entry, and there are exactly as many entries as created rows |
| ImportCommit.CreatedMapNames | backend/src/actors/actor-import.service.ts:1414-1429 | a row number resolves to the identity of a created row of that number, and stays a row number exactly if there is none |
| ImportCommit.ResolvesExactly | backend/src/actors/actor-import.service.ts:1398-1431 | an entry has a confirmation if and only if something was confirmed, and each confirmed candidate keeps its name and attributes, a row this import created under its new ids |
| ImportCommit.TrailIsStable | backend/src/actors/actor-import.service.ts:1398-1431 | rows created later do not change how earlier rows' confirmations were resolved |
| ImportReport.LeftmostColumnNamesRow | backend/src/actors/actor-import.service.ts:1536-1552 | a row failing several columns is named by the leftmost of them, whatever order they were found in |
| ImportReport.FirstErrorNamesRow | backend/src/actors/actor-import.service.ts:1536-1552 | a row without an error on a template column is named by its first error, or as rolled back if it has none or that is the batch marker |
| ImportReport.TextBeforeExactlyWhen | backend/src/actors/actor-import.service.ts:1521-1526 | texts are compared at the first unit in which they differ, a text before its own continuations |
| ImportReport.ReasonIsInVocabularyExactlyWhen | backend/src/actors/actor-import.service.ts:1536-1552 | the reason is a template column or a literal if and only if the row has no error, an error on a column, or a first error that is the batch marker or a literal |
| ImportReport.MissingCropsReasonIsNoColumn | backend/src/actors/actor-import.service.ts:838-841 | a row failing only the crop requirement has a reason outside that vocabulary |
| ImportReport.BuildFailureBreakdown | backend/src/actors/actor-import.service.ts:1510-1527 | the counting loop and the sort compute the breakdown function |
| ImportReport.BreakdownMeaning | backend/src/actors/actor-import.service.ts:1510-1527 | each reason appears once with the number of rows it names, most frequent first then alphabetical, and the counts sum to failed plus held |
| ImportReport.BuildReport | backend/src/actors/actor-import.service.ts:1454-1499 | each row is reported under the outcome of its state, each total is the number of working rows in a state, each breakdown count the number of working rows with that reason, most frequent first; to-create plus possible duplicates plus failed is the number of rows |
| ImportRun.Run | backend/src/actors/actor-import.service.ts:387-407 | an import settles every row as classified, gated and committed; a commit gives every survivor the fate of its chunk and logs exactly the created rows; the report balances; a preview writes and allocates nothing |
| ImportRun.PreviewIgnoresAnswers | backend/src/actors/actor-import.service.ts:387-407 | a preview classifies and gates without confirmations and acknowledgement |
| ImportRun.CreatedDuplicatesWereConfirmed | backend/src/actors/actor-import.service.ts:1034-1101 | of two created rows sharing a phone or email the later one's confirmation names the earlier |
| ImportRun.CreatedActorMatchesWereConfirmed | backend/src/actors/actor-import.service.ts:1034-1101 | a created row's confirmation names every existing actor it shares a phone or email with |
| ImportRun.CreatedGrantsAreEvidenced | backend/src/actors/actor-import.service.ts:1105-1202 | no import creates a GRANTED actor without method and date, or without the acknowledgement |
| ImportRun.EveryRowIsAccounted | backend/src/actors/actor-import.service.ts:1239-1370 | every failed row has an error, a commit leaves no candidate, and exactly the created rows carry ids |
| MailMutex.RunKeepsInv | backend/src/mail/microservice-mail.transport.ts:357-402 | over all runs: locked exactly while held, and then by the latest granted call alone, a free lock has no queue, nobody queued was answered, and every call was granted, waits or timed out in exactly one way |
| MailMutex.AtMostOneHolder | backend/src/mail/microservice-mail.transport.ts:338-402 | over all runs no two calls hold the lock, and every grant but the one outstanding has been released |
| MailMutex.GrantFindsNoHolder | backend/src/mail/microservice-mail.transport.ts:365-401 | when a call is granted the lock, every call granted before has released it, the last by this very event if it is a hand-over |
| MailMutex.ReleaseHandsOver | backend/src/mail/microservice-mail.transport.ts:390-401 | a release gives the lock to the head of the queue and never drops it while anyone waits |
| MailMutex.TimerTurnsAway | backend/src/mail/microservice-mail.transport.ts:379-385 | a queued call whose time is up is rejected and leaves the queue, every other call keeps its place and the lock its holder |
| MailMutex.GrantsAreFirstComeFirstServed | backend/src/mail/microservice-mail.transport.ts:365-388 | in every run, whoever arrived before a granted call was granted before it or timed out |
| MailMutex.AnsweredOnce | backend/src/mail/microservice-mail.transport.ts:370-386 | a call is granted at most once and never both granted and timed out |
| MailMutex.MailSendMutex.TryAcquire | backend/src/mail/microservice-mail.transport.ts:365-387 | acquire grants the lock at once exactly when nobody holds it, and queues otherwise |
| MailMutex.MailSendMutex.Timer | backend/src/mail/microservice-mail.transport.ts:379-385 | a timer rejects and dequeues its call unless the call was answered, and never touches the lock |
| MailMutex.MailSendMutex.ReleaseLock | backend/src/mail/microservice-mail.transport.ts:390-401 | the branch in which a handed-over turn is already settled cannot be reached |
| Dismissals.RegistrationRow.TryWrite | backend/src/registrations/admin-registrations.service.ts:759-794 | the conditional write appends one entry exactly if the column still holds what was read |
| Dismissals.RegistrationRow.DismissDuplicate | backend/src/registrations/admin-registrations.service.ts:712-805 | whatever others do in its gaps, the call is exactly its first read, then its conditional writes with a re-read after each lost one and nothing after the one that ends it; it answers not found if and only if the registration or the candidate is unknown, then alone without a write, and a conflict only after three |
| Dismissals.NoDismissalIsLost | backend/src/registrations/admin-registrations.service.ts:743-796 | in every interleaving the list is the initial one followed by one entry for each success, in write order, and a call has one entry exactly if it succeeded |
| Dismissals.ConflictMeansThreeOthers | backend/src/registrations/admin-registrations.service.ts:798-804 | a call ending in the conflict left no entry, and at least three dismissals, all of other calls, succeeded between its first read and its giving up |
| Identifiers.IdsAreInjective | backend/src/actors/trader-id.util.ts:27-29 | a year and a number give one id and no other pair gives it, past four digits included |
| Identifiers.IdSpells | backend/src/actors/trader-id.util.ts:27-29 | an id is its prefix, the year and the number in decimal, four digits at least, zeros only to fill |
| Identifiers.DerivedIdsAreInjective | backend/src/registrations/admin-registrations.service.ts:313-320 | two references derive the same trader id only if they are the same |
| Identifiers.DerivedIdsAreApart | backend/src/registrations/admin-registrations.service.ts:313-320 | a derived id carries its reference's year and number and is never a team-managed id |
| Identifiers.RangesAreDisjoint | backend/src/actors/trader-id.util.ts:36-57 | of two allocations of a year the earlier range lies wholly below the later |
| Identifiers.RangesCoverCounter | backend/src/actors/trader-id.util.ts:36-57 | every number from one to a year's counter was received by some allocation, and no other |
| Identifiers.NoIdIsIssuedTwice | backend/src/actors/trader-id.util.ts:36-64 | over any run of allocations two ids of equal text are the same number of the same call |
| Identifiers.SequenceTable.AllocateTraderIds | backend/src/actors/trader-id.util.ts:36-64 | a call returns exactly the ids of its own range, lowest first |
| Identifiers.SequenceTable.AllocateRegistrationReference | backend/src/registrations/registration-reference.util.ts:92-122 | a call returns the reference of its own single number |
| Decimals.PaddedTextIsInjective | backend/src/actors/trader-id.util.ts:27-29 | zero padding never makes two numbers' texts equal |
| Otp.StepOnCode | backend/src/registrations/email-verification.service.ts:300-343 | a step charges a code by at most one guess, never changes a consumed one, and issuing changes none |
| Otp.GuessExactly | backend/src/registrations/email-verification.service.ts:300-325 | a guess matches the first live row of the email with that very code and fewer than five attempts, changing nothing; if there is none, every live row of the email, and no other, gains one attempt |
| Otp.IssueExactly | backend/src/registrations/email-verification.service.ts:257-286 | a send counts in its hour whatever follows, and stores a code good for fifteen minutes exactly if it is among the first three |
| Otp.WindowHoldsInstant | backend/src/registrations/email-verification.service.ts:366-368 | the bucket of an instant is the whole hour it lies in |
| Otp.ConsumeExactly | backend/src/registrations/email-verification.service.ts:337-343 | consuming marks an unconsumed row with the instant and changes nothing else |
| Otp.DeadCodesStayDead | backend/src/registrations/email-verification.service.ts:304-315 | a code at the cap, consumed or expired stays so through every run and no guess matches it |
| Otp.IssueLeavesSiblings | backend/src/registrations/email-verification.service.ts:281-285 | issuing adds at most one code and leaves the others as they were |
| Otp.ConsumedAtMostOnce | backend/src/registrations/email-verification.service.ts:337-343 | in any run consumption succeeds at most once for a code, and did exactly if its row is marked |
| Otp.GuessBudget | backend/src/registrations/email-verification.service.ts:300-325 | in any run the wrong guesses at an email made while some live code is under the cap are at most five for each code it has |
| Otp.ExactlyThreeAreAccepted | backend/src/registrations/email-verification.service.ts:257-276 | of n calls for an email in one bucket exactly min(n, 3) are accepted |
| Otp.SpanMeetsTwoBuckets | backend/src/registrations/email-verification.service.ts:366-368 | an instant within sixty minutes of another lies in its bucket or the next |
| Otp.AtMostSixInAnyHour | backend/src/registrations/email-verification.service.ts:257-276 | in any run any sixty-minute span has at most six accepted sends to an email |
| Otp.EmailVerificationService.IssueCode | backend/src/registrations/email-verification.service.ts:257-286 | the counter moves whatever the answer; a code is returned, and then stored with its fifteen minutes, exactly within the cap and if its insert succeeds |
| Otp.EmailVerificationService.VerifyCode | backend/src/registrations/email-verification.service.ts:300-325 | the first live row under the cap with this code matches; otherwise every live row of the email, and no other, gains an attempt |
| Otp.EmailVerificationService.ConsumeCode | backend/src/registrations/email-verification.service.ts:337-343 | the conditional write succeeds exactly on an unconsumed row and touches no other |
| LikeEscape.ThreeReplacementsAreOnePass | backend/src/registrations/admin-registrations.service.ts:244-246 | the three replacements in order equal escaping each metacharacter once, for all strings |
| LikeEscape.EscapedPatternMeansContains | backend/src/registrations/admin-registrations.service.ts:508-515 | under LIKE with escape backslash (section 8.5 of ISO/IEC 9075-2) the escaped pattern between two percent signs matches a text if and only if it contains the search text |
| LikeEscape.UnescapedPercentMatchesEverything | backend/src/registrations/admin-registrations.service.ts:229-243 | without escaping, a percent sign as the search text matches every text |

## Left out

- Database isolation: every transaction is one atomic step and every conditional `updateMany` a guarded set update; lock waits, deadlocks and snapshots are not modelled.
- Hashing, token and code generation, HMAC and constant-time comparison: tokens are fresh, hashes injective constructors, codes and generated ids parameters.
- HTTP controllers, DTO decorators, guards, throttling, logging and serializers; of the DTO facts only those used as preconditions are kept (a bulk or create method is admin-assertable and not null).
- Checks an admin update makes besides consent (stale form, region, phone, crops, additional types, required fields other than the email): they can only refuse the write, and a refused write is no step.
- The message and field name of a refused rule 3 write, and which of several messages a refusal carries.
- Request columns that no decision reads: trader id and name snapshots, edition and hash, respondent name, address and user agent; `view`, `preview`, `queue` and the metrics.
- The order in which the database returns rows without an ORDER BY: table order is used for `findMany` over actors and codes; the bulk writes and the duplicate index are proved for every order.
- Deciding which actors a filter names: an enqueue starts from its list of ids.
- Excel parsing, cell coercion and row validation: an import starts from validated rows with increasing row numbers.
- Region, phone, email and name normalizers: functions given to the model; `localeCompare` is any strict total order on keys; coordinates are real numbers, so rounding at the edge of the box is not modelled.
- Additional trader types and crop links of an imported row, and the import's error messages: rows carry error fields only.
- A trader-id collision is an answer of the database; the other writers that could cause it are not modelled.
- Otp.GuessBudget: holds for verify calls that do not overlap, because the read and the increment are separate statements in the source.
- The AMQP connection, its probe, its reconnect, the publish path and the send deadline: after a deadline the orphaned send runs outside the lock, so nothing is claimed about one outstanding publish per channel. The mutex assumes each holder releases once.
- The dispatch loop's clock: how many turns fit in the time budget is a parameter, and a time stamp is read at the statement that writes it.
- Removing a registration: no code of the repository does it, so a registration that a dismissal's first read found is there for all of the call.
- Public projections, the contact form, user management, document upload, frontend, infrastructure and scripts.

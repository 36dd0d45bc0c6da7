# Guarded production onboarding: a verified model

This project models the parts of the onboarding repository that decide whether something irreversible happens in
production, and proves what they promise. The main statements range over all inputs and all runs and, where calls of
several processes or threads can overlap, over all interleavings.

- **The guarded create.** `Approvals`, `ApprovalLaws`, `ApprovalStore` and `ApprovalLock` are the one-use approval file,
  its three operations, and the lock file that keeps several processes apart. `CreateGate` and `CreateRun` are one
  attempt: gate, form, second gate, re-reads, last gate, intent record, consume, one click, readback, final record.
  `CreateWorld` interleaves any number of attempts with the owner, with crashes and with calls that raise after they took
  effect: one click per approval. `CreateOnce` goes further: although nothing ties records and approvals together, two
  clicks of one CO may both have created something only if the earlier approval was consumed after the later one was
  issued. `CreateStale` builds such a run. `History` is the append-only record history and the owner's review.
- **The request guard and the click.** `RequestGuard` is the automaton in front of the network, `ConfirmClick` the one
  Confirm click judged by it.
- **The redacted body.** `Redaction`: what is kept of a create body gives the verdict the whole body would have given.
- **The Salesforce writes.** `WriteLog`: append-only logs that keep a second write away across restarts, torn appends and
  failed reads. `OverlappingWrites` takes the calls apart into last look, intent line, send and result line, and the clear
  tool into look and review, and interleaves any number of them: exactly which calls can write twice, and exactly which
  reviews undo a final result. `SequentialWrites`, `UuidWrites` and `Case3Followup` are the same calls one after the other.
- **The tenant inventory.** `Inventory` (a partial bijection of ids and UUIDs, checked in one pass), `DuplicateGate` (the
  duplicate check over rows that were cut down) and `ClonePush` (the push channel with its high-water mark, compared in
  floating point as in `NineTenths`).
- **Smaller algorithms.** `Sanitizer`, `CreateRecord` and `RecordFields` (records that load again, and what each field
  keeps), `PublicSuffix` and `DomainLists` (registrable domains), `RateLimiter` (the sliding window), with `Text`,
  `TextOrder`, `Domains` and `Secrets` beneath them, and `Patterns`, which says which regular expressions their shapes are.

Many main results are pairs: an invariant or a refinement stated with the functions of the model, and a law ending in
`Exactly` that says what those functions mean without naming them, in terms of inputs, files and answers alone.

Where a promise turned out not to hold in general the code is kept as it is, and a lemma names the input that breaks it.
For these another lemma says exactly when it holds: overlapping Salesforce writes (`ReviewedExactlyUnlessOverlapping`), a
review that undoes a final Account UUID result (`NoWriteAfterFinal`, `OnlyReviewReopens`), overlapping reviews of one attempt
(`NewAttemptCountsExactly`), a contract that wants lists of other things than text (`VerdictKeptExactly`), a refused push
whose restore fails (`RefusalLeavesStore`), an installed clone whose high-water write fails (`RememberedExactly`),
rate-limited requests with decreasing times (`AgreesExactlyWhenOrdered`, `AnyOrderOverflowsExactly`), rows cut beyond their
limits (`CompleteExactlyWhenNothingLost`) and items repeated beyond the list limit (`OrderAndRepetitionIgnored`). For a
consume that carries an old clock reading, `TwoRealClicksMeanOvertaken` says what must have happened in every run that breaks
the promise, and `StaleConsumeClicksTwice` that it can happen under any gate that opens. Repeated rows that differ elsewhere
(`Inventory`) are shown by the input alone.

Run `dafny verify dfyconfig.toml` in this directory.

## Model

| member | source | states |
|---|---|---|
| ApprovalStore.ReplaceLive | integration/onboarding/production_approval.py:202-217 | the two loops of an issue either retire exactly the live approvals and add the new one, or stop at a live approval that blocks, with its reason |
| ApprovalStore.Store.Issue | integration/onboarding/production_approval.py:151-225 | done exactly when the request, the lock, the file and the write allow it; then the file is the accepted result and loads again; otherwise it is untouched and the reason is the first that applies |
| ApprovalStore.Store.Consume | integration/onboarding/production_approval.py:310-337 | marks the approval used exactly when it is valid for this CO, route, revision, time and tenant name; every refusal leaves the file |
| ApprovalStore.Store.Revoke | integration/onboarding/production_approval.py:379-411 | retires exactly one live approval and changes nothing else |
| ApprovalStore.WrittenFileLoads | integration/onboarding/production_approval.py:108-132 | no accepted operation ever writes a file that the record check of the next reader refuses |
| ApprovalLaws.UsedExactlyWhenValid | integration/onboarding/production_approval.py:236-261 | a use is accepted exactly for an open approval inside its window, of this CO, route and revision, and for a Case 3 one of this tenant name |
| ApprovalLaws.IssuedAsRequested | integration/onboarding/production_approval.py:179-187 | after an accepted issue the new record carries what was asked for, and it can be used exactly from the second of the issue until the second in which the requested lifetime is over, for every route |
| ApprovalLaws.EndMarksExactly | integration/onboarding/production_approval.py:202-217 | an issue retires exactly what was live in its second, a use and a revocation end one record, each with the second it happened in; every other record stays |
| ApprovalLaws.IssuedExactly | integration/onboarding/production_approval.py:202-211 | a request in order is issued exactly under a new reference when every live approval is of the same CO and of another revision, or without the early activation that is now asked for |
| ApprovalLaws.RequestToldFirst | integration/onboarding/production_approval.py:158-177 | a request is refused exactly when something is wrong with it, and told the first thing that is: route, name, early activation, issuer, reference, CO, revision, a lifetime of none or of more than 31 days |
| ApprovalLaws.ValidExactlyIssuable | integration/onboarding/production_approval.py:108-120 | a reader accepts exactly the records that an issue could have written, with any times and end marks, and Case 3 ones without a name |
| ApprovalLaws.LoadsExactly | integration/onboarding/production_approval.py:123-132 | a file is read as empty when there is none, and as its records exactly when every one of them passes |
| ApprovalLaws.UseToldFirst | integration/onboarding/production_approval.py:236-261 | a refused use is told the first thing, in one fixed order, that is wrong with the approval |
| ApprovalLaws.RevokedExactly | integration/onboarding/production_approval.py:365-411 | a revocation is accepted exactly for a record neither used nor retired and not expired in the second of the call |
| ApprovalLaws.ApplyKeepsSound | integration/onboarding/production_approval.py:188-225 | each accepted operation keeps valid records, at most one end mark each, disjoint windows of open approvals, and loses no record |
| ApprovalLaws.ReplayKeepsSound | integration/onboarding/production_approval.py:151-225 | the same over every sequence of operations; each record only ever gains its one end mark |
| ApprovalLaws.AtMostOneUsable | integration/onboarding/production_approval.py:236-261 | from an empty file, whatever times were given, no two approvals of any CO can be used at the same instant |
| ApprovalLaws.AtMostOneLive | integration/onboarding/production_approval.py:365-376 | with nondecreasing times at most one approval is live from the last operation on |
| ApprovalLaws.UsedAtMostOnce | integration/onboarding/production_approval.py:325-330 | over any sequence of operations a reference is consumed at most once |
| ApprovalLaws.RetiredForEver | integration/onboarding/production_approval.py:240-243 | a used or retired record never changes again |
| Patterns.CoExactly | integration/onboarding/production_approval.py:51-51 | a CO reference is what its regular expression matches from end to end, and so are issuers, references, actors, labels, names, reason codes and requests |
| Text.TenantNameExactly | integration/onboarding/production_approval.py:94-97 | a tenant name is one to eighty characters, its own words joined with single blanks, with no control character |
| ApprovalLock.NoLostUpdate | integration/onboarding/production_approval.py:293-337 | over any interleaving of lock, read, replace, unlink and crash steps every replacement was accepted on exactly what the one before it left |
| ApprovalLock.SerialIsReplay | integration/onboarding/production_approval.py:316-330 | so the shared file is always the result of a sequential history |
| ApprovalLock.SharedFileStaysSound | integration/onboarding/production_approval.py:123-132 | every file any process can read is sound |
| ApprovalLock.OneCallerIsToldYes | integration/onboarding/production_approval.py:310-337 | over all processes at most one caller is told that its use of a reference succeeded |
| ApprovalLock.CallsAreSingleSteps | integration/onboarding/production_approval.py:310-337 | every interleaving of the steps, crashes and calls that raise after the file was replaced included, leaves what its calls leave as single steps one after the other, and every answer given is that of one of them |
| ApprovalLock.CallAlone | integration/onboarding/production_approval.py:293-337 | on a free lock a call that nothing disturbs does and is told what the single operation does, and frees the lock unless its file cannot be removed |
| ApprovalLock.DeadHolderFreezesFile | integration/onboarding/production_approval.py:293-307 | after a process dies holding the lock every later call of anyone is refused and the file stays as it was |
| CreateGate.OpenGateConsumes | integration/onboarding/production_create.py:146-209 | a live gate that opens has judged the approval so that a consume of the same file at the same time and revision succeeds |
| CreateGate.UnusableApprovalClosesGate | integration/onboarding/production_create.py:146-209 | an approval the consume would refuse closes the gate for every input |
| CreateGate.GateOpensExactly | integration/onboarding/production_create.py:146-209 | the gate opens exactly when every single condition holds: unlocked target, session, revision, a usable approval of this CO and tenant, route, distinct domain names, a clone at most six hours old, no duplicate, timing, sessions, schema |
| CreateGate.GateToldFirst | integration/onboarding/production_create.py:146-209 | a closed gate tells the first thing, in one fixed order, that stands against the create, with the own code of a precheck in its place |
| CreateRun.ReadbackMatchesExactly | integration/onboarding/production_create.py:274-309 | the readback finds nothing exactly when name and id are the expected ones, every domain of the row is an expected one and every expected one a domain of the row but for white space and case, the UUID is 32 hexadecimal digits, and neither comparison of contents found a difference |
| CreateRun.UuidReadExactly | integration/onboarding/salesforce_uuid_writeback.py:36-41 | a UUID is read exactly from 32 hexadecimal digits of either case with any white space around them, and as these in small letters |
| CreateRun.Opening | integration/onboarding/production_create.py:384-410 | the first gate, the owner's go, the prior records and the filled form, passed exactly when all of them are in order, refused for the first that is not |
| CreateRun.OpeningClearExactly | integration/onboarding/production_create.py:384-410 | the opening is clear exactly when the gate opens, every control of a filled form passes and, for a live run, the owner gave the go and no record waits for a review |
| CreateRun.RecheckSources | integration/onboarding/production_create.py:411-443 | second gate, live duplicate check and Salesforce re-read, passed exactly when all answered clear, refused for the first that did not |
| CreateRun.LastLook | integration/onboarding/production_create.py:444-469 | last gate at a fresh time and revision and a complete re-check of the form, refused for the first that fails |
| CreateRun.Submit | integration/onboarding/production_create.py:471-491 | intent record, then the consume of exactly what the last gate judged, then one click; the first failing step ends it, and every effect reports what the injected call answered |
| CreateRun.Conclude | integration/onboarding/production_create.py:492-514 | after the click the outcome follows the click and the readback comparison, in both directions |
| CreateRun.Run | integration/onboarding/production_create.py:352-514 | for every behaviour of the injected calls: each effect reports what its call answered and each gate what it read, one final record, a dry run without any effect, Confirm clicked exactly when nothing stood against it, verified exactly when submitted and read back without a difference |
| CreateRun.ExpectedClickExactly | integration/onboarding/production_create.py:411-491 | Confirm is clicked exactly in a live run whose opening was clear, in which both later gates, the duplicate check, the source and the form answered clear, the intent record was written and the approval consumed |
| CreateRun.OutcomeExactly | integration/onboarding/production_create.py:492-514 | verified exactly when submitted and the row read back is the expected one, unverified exactly when submitted and it is not, uncertain and not clicked exactly by what the click answered; a UUID only with a verified create, that of the row in small letters |
| CreateRun.NothingWithoutIntent | integration/onboarding/production_create.py:471-475 | where the intent record cannot be written, nothing is consumed or clicked |
| CreateRun.TriedOnlyWhenClear | integration/onboarding/production_create.py:384-475 | an intent, a consume or a click is only ever tried after all three gates, the form, the duplicate check, the re-read and the form re-check passed on what this run itself read |
| CreateRun.TriedOnlyWithForm | integration/onboarding/production_create.py:252-271 | and only with a form of at least one control, all passing, re-read with all of these and four more passing |
| CreateRun.DoneAsRead | integration/onboarding/production_create.py:411-491 | every gate is asked about, and the intent record, the consume and the click are, what the run was given and what it read: the approval is consumed at the time of the second clock reading, for the revision the source then showed and, in Case 3, for this tenant name |
| CreateRun.EveryClickIsCovered | integration/onboarding/production_create.py:471-491 | in every prefix of a run at most one click, and before it a successful consume of what an opened gate judged, after a written intent record |
| CreateRun.OneAnswer | integration/onboarding/production_create.py:488-514 | a run has at most one answer to its click |
| CreateWorld.RunKeepsFair | integration/onboarding/production_create.py:352-514 | over every interleaving with crashes, and with calls that raise although they took effect, each attempt keeps its order, its approval stays on file as used, and is used by one attempt |
| CreateWorld.ActsExactly | integration/onboarding/production_create.py:471-514 | what one act leaves outside: a record that was written, or raised after it landed, is one more line of its CO; a consume that succeeded, or raised after it landed on an approval still good, marks the own approval used; nothing else changes anything |
| CreateWorld.CrashedStaysSilent | integration/onboarding/production_create.py:352-514 | any number of events leaves a crashed attempt as it is |
| CreateWorld.RecordsAreReachable | tools/clear_production_attempt.py:97-121 | the records of every CO in every reachable world are a reachable history in the sense of `History`, so that its laws hold of attempts side by side |
| CreateWorld.OneClickPerApproval | integration/onboarding/production_create.py:471-491 | two attempts that clicked never used the same approval; each clicked once, after its own consume and its intent record |
| CreateOnce.StepKeepsSettled | integration/onboarding/production_create.py:337-346 | every step of any attempt, the owner or the clock keeps: only the last issued approval is live, refusals on record were earned, later attempts know of earlier intents unless the consume came after their approval was issued |
| CreateOnce.LaterFormMeansUntouched | integration/onboarding/production_create_ui.py:186-221 | an attempt that got its form filled under a later approval means the click of the earlier one, unless overtaken, reached nothing |
| CreateOnce.TwoRealClicksMeanOvertaken | integration/onboarding/production_create.py:444-514 | over every interleaving: when two attempts of one CO both clicked in a way that may have created something, the one with the earlier approval consumed it after the later one had been issued |
| CreateOnce.OvertakenMeans | integration/onboarding/production_create.py:476-487 | what overtaken means: the event at which the attempt consumed, with the later approval already issued |
| CreateOnce.OneRealClickPerCo | integration/onboarding/production_create.py:471-514 | so when no consume comes after a later issue, at most one attempt per CO clicks in a way that may have created something |
| CreateOnce.TimelyConsumesClickOnce | integration/onboarding/production_create.py:471-514 | in particular when every consume finds its approval unexpired by the world's clock |
| CreateStale.StaleConsumeClicksTwice | integration/onboarding/production_create.py:444-491 | whatever the gate, if it opens to both, two attempts of one CO can both click, one of them overtaken |
| CreateStale.OneCoTwice | integration/onboarding/production_create.py:444-491 | a concrete run through the real gate: one second of validity, two seconds between clock reading and consume |
| History.ClearedAttempts | integration/onboarding/production_create_ui.py:186-207 | the one pass with four tables finds exactly the pairs whose every started attempt has its refusal and its review |
| History.StatusAgreesWithRun | integration/onboarding/production_create_ui.py:210-239 | the status of a CO blocks exactly when a create run would refuse its records |
| History.VerifiedWins | integration/onboarding/production_create_ui.py:224-236 | a CO shows as created and verified exactly when some attempt was verified |
| History.StatusExactly | integration/onboarding/production_create_ui.py:186-239 | the status is that of the first entry of the highest rank among those that still wait for the owner; without one it is a passed dry run exactly when one counts, else no attempt |
| History.ClearsNeverExceedStarts | tools/clear_production_attempt.py:97-114 | in every reachable history in which no two reviews of a pair overlap, the owner clears a pair at most as often as it was started |
| History.ClearableExactly | tools/clear_production_attempt.py:97-114 | the tool clears a pair exactly when it has started attempts, as many refusals of an untouched click, fewer reviews, and no uncertain, unverified or verified outcome |
| History.NewAttemptBlocks | integration/onboarding/production_create_ui.py:189-191 | in such a history a new attempt always blocks again, even under a pair cleared before |
| History.NewAttemptCountsExactly | integration/onboarding/production_create_ui.py:186-207 | in any history a new attempt counts exactly unless more reviews and more refusals than starts are on file already |
| History.OverlappingReviewsClearInAdvance | tools/clear_production_attempt.py:97-121 | two tools that looked at the same time clear one attempt twice, and the next attempt of the pair is cleared without a review of its own |
| History.FinalBlocksForEver | integration/onboarding/production_create_ui.py:217-221 | an uncertain, unverified or verified outcome blocks under every later append |
| History.OnlyReviewUnblocks | tools/clear_production_attempt.py:103-121 | unless two reviews of a pair overlapped, the only append that unblocks is the last missing review of a pair that provably sent nothing |
| RequestGuard.LiveRequestGuard.Handle | integration/onboarding/production_create_live.py:234-265 | one request: continued or aborted and counted, per kind |
| RequestGuard.LiveRequestGuard.HandleCreate | integration/onboarding/production_create_live.py:251-265 | a create passes only armed and unused, and disarms before it is continued |
| RequestGuard.LiveRequestGuard.HandleEdit | integration/onboarding/production_create_live.py:275-285 | an edit passes only armed, unused and for the armed tenant |
| RequestGuard.LiveRequestGuard.HandleScan | integration/onboarding/production_create_live.py:295-305 | the same for a scan |
| RequestGuard.LiveRequestGuard.HandleRead | integration/onboarding/production_dry_run.py:201-226 | any other request passes only by the read-only decision |
| RequestGuard.LiveRequestGuard.Arm | integration/onboarding/production_create_live.py:227-229 | arming after the create was used, or on the renewal guard, arms nothing |
| RequestGuard.LiveRequestGuard.ArmEdit | integration/onboarding/production_create_live.py:267-270 | the edit is armed for one tenant, only after the create and never a second time; on the renewal guard without a create |
| RequestGuard.LiveRequestGuard.ArmScan | integration/onboarding/production_create_live.py:287-290 | the same for a scan; never on the renewal guard |
| RequestGuard.AtMostOneWrite | integration/onboarding/production_create_live.py:174-305 | over any sequence of events at most one create, one edit and one scan are let through |
| RequestGuard.WhatPasses | integration/onboarding/production_create_live.py:234-305 | exactly which requests pass, in terms of the calls made: creates while last armed, edits and scans of exactly the tenant armed last, each once, anything else by the read-only decision |
| RequestGuard.ContinuedExactly | integration/onboarding/production_create_live.py:234-305 | a request is continued exactly when it is a GET or HEAD of production or its assets, the one table search, the create while armed, or an edit or scan of exactly the tenant armed last, each of the three once |
| RequestGuard.WroteExactly | integration/onboarding/production_create_live.py:143-165 | what counts as a create, an edit or a scan having passed: a continued request of that method, site and path |
| RequestGuard.WritesInOrder | integration/onboarding/production_create_live.py:329-341 | edits and scans come only after the create; the renewal guard lets neither create nor scan through |
| RequestGuard.EveryRequestCounted | integration/onboarding/production_dry_run.py:201-226 | every readable request is either continued or counted as blocked |
| RequestGuard.RecordIsExact | integration/onboarding/production_dry_run.py:201-226 | over every sequence of events each place counts exactly the API requests continued there and holds the statuses answered since the first of them; aborts, other reads and opened pages are counted exactly too |
| ConfirmClick.LiveClickLog.Click | integration/onboarding/production_create_live.py:353-361 | a control that names a confirm, submit or save is reached only as the exact Confirm and once, counted even when the click raises |
| ConfirmClick.ReadClickExactly | integration/onboarding/production_dry_run.py:264-292 | any other click goes through exactly unforced, on one of five kinds of control, on none whose name has confirm, submit or save anywhere in it in any case, and opens the form only by the control of these two words |
| ConfirmClick.PageKeepsTracked | integration/onboarding/production_create_live.py:251-258 | whatever the page sends, a disarmed guard stays disarmed and lets no create through, and an armed one at most one |
| ConfirmClick.GuardsAreTracked | integration/onboarding/production_create_live.py:320-322 | in every reachable guard the create's own entry counts one exactly when a create was let through |
| ConfirmClick.AwaitResponse | integration/onboarding/production_create_live.py:449-457 | the wait ends at the first answer to the create, at the first wait that raises or after forty, and the guard is disarmed in every case |
| ConfirmClick.JudgedAfterWaits | integration/onboarding/production_create_live.py:449-457 | the create is judged after the first wait that brought it an answer or raised, at the latest after forty |
| ConfirmClick.JudgeAnswer | integration/onboarding/production_create_live.py:449-462 | submitted exactly when the guard after that wait shows one create answered 200 and nothing else, none aborted, and no further page appeared |
| ConfirmClick.ClickConfirmOnce | integration/onboarding/production_create_live.py:412-462 | the guard ends disarmed; not clicked exactly when control or page were not in order or a click was made before, and then nothing was let through; submitted exactly when the judged guard shows the one create answered 200 and none aborted; else uncertain |
| ConfirmClick.CleanExactly | integration/onboarding/production_create_live.py:412-462 | in terms of what the page did: no create asked for before the click, exactly one from the click to the judgement, and that one answered 200 and nothing else; never through the guard of a renewal |
| Redaction.Redact | integration/onboarding/production_create_live.py:103-138 | the loop leaves one fixed body: each flat field kept as sent, matched away, or hidden |
| Redaction.VerdictKept | integration/onboarding/production_create_live.py:307-314 | for every body the verdict over what was kept equals the plain comparison: wrong, missing and unexpected names alike |
| Redaction.VerdictKeptExactly | integration/onboarding/production_create_live.py:88-138 | this holds on all bodies if and only if no shape accepts a non-empty list or an object and no list want accepts anything but text |
| Redaction.ReportedExactly | integration/onboarding/production_contract.py:88-194 | the comparison reports a name exactly when the body lacks it or its value is not the very one wanted: no other value, never a not-a-number, element by element for a list, as its shape says for a shape, and every other name as unexpected |
| Redaction.ReportedExactlyFromKept | integration/onboarding/production_create_live.py:307-314 | and for contracts of that kind what the kept body is reported for is exactly the missing, wrong and unexpected names of the body that was sent |
| Redaction.UsualWantsAreJudgeable | integration/onboarding/production_contract.py:142-172 | contracts of scalars, text lists and shapes over text or numbers qualify |
| Redaction.NumberListIsMisjudged | integration/onboarding/production_create_live.py:94-100 | a contract that wants a list of numbers is misjudged on the very body it wants |
| Redaction.NoIdentifyingTextKept | integration/onboarding/production_create_live.py:103-109 | no text is kept but short settings, nothing of a list or object but its type |
| Redaction.HiddenLeavesItsType | integration/onboarding/production_create_live.py:94-138 | of a hidden value only the name of its type is kept, of a text, a list or an object |
| Redaction.HiddenValuesLeaveNoTrace | integration/onboarding/production_create_live.py:88-100 | two bodies that differ only in hidden values with the same verdict leave the same record |
| Redaction.FlatNamesSound | integration/onboarding/production_contract.py:175-184 | every flat name is the dotted path of a leaf |
| Redaction.FlatNamesComplete | integration/onboarding/production_contract.py:175-184 | and every leaf's dotted path is a flat name |
| Redaction.JoinedExactly | integration/onboarding/production_contract.py:175-184 | a flat name is the keys with dots between them |
| Redaction.FlatIsLastLeaf | integration/onboarding/production_contract.py:175-184 | where two leaves have one flat name, the later one in the body is the one compared and kept |
| WriteLog.Ledger.WriteOnce | integration/onboarding/production_create_ui.py:937-962 | nothing is sent without an intent line on file, and at most one write is sent; a call that ran to its end is told, and leaves on file, verified exactly for an accepted write that was read back, rejected exactly for a refused one, and uncertain for the rest |
| WriteLog.ForgottenOnlyByReview | integration/onboarding/production_create_ui.py:714-724 | a result on file stops counting only by a later review of the same CO |
| WriteLog.NewestExactly | integration/onboarding/production_create_ui.py:714-724 | what counts for a CO and step is its last line, unless that is a review |
| OverlappingWrites.SendsHaveOwnIntents | integration/onboarding/production_create_ui.py:937-950 | over every interleaving each send has an intent line of its own on file, after its call's last look |
| OverlappingWrites.GateOpensExactly | integration/onboarding/production_create_ui.py:714-730 | a gate opens exactly on a log read whole that has no line of this CO and step, or as the last one a review or, for the stage, a verified write |
| OverlappingWrites.ResultsAreEarned | integration/onboarding/production_create_ui.py:944-962 | over every interleaving each result line on file belongs to an intent line of its own call and says verified exactly when that call was told that its write was accepted and read back, rejected exactly for a refusal |
| OverlappingWrites.ReviewedExactlyUnlessOverlapping | integration/onboarding/production_create_ui.py:917-962 | over every interleaving of calls and reviews: of two Account UUID writes of one CO, the later call acted on a review of the earlier one exactly when its last look came after the earlier intent line |
| OverlappingWrites.IdsTwiceOnlyByOverlap | integration/onboarding/case3_followup.py:273-317 | two ids writes of one CO are sent only by calls of which the later looked before the earlier had its intent line on file |
| OverlappingWrites.StageTwiceOnlyByOverlap | integration/onboarding/case3_followup.py:320-358 | the same for the stage, or the later call found a verified stage line as the newest |
| OverlappingWrites.StageAfterIds | integration/onboarding/case3_followup.py:212-270 | also when calls overlap a stage write is sent only after the row showed the ids or an ids write of that CO was accepted and read back |
| OverlappingWrites.OverlappingCallsWriteTwice | integration/onboarding/production_create_ui.py:926-943 | wherever the gate is open, looks of two callers before the intent of either lead to two writes without a review, for each of the three steps |
| OverlappingWrites.NoWriteAfterFinal | integration/onboarding/production_create_ui.py:714-724 | after a verified or rejected result no call writes that CO again unless it had looked before the result line, or a review undid it whose tool could not read the log, had looked before the result line, or saw what an overlapping call left after it |
| OverlappingWrites.OnlyReviewReopens | tools/clear_production_attempt.py:84-96 | with a readable log a shut gate is opened by a step exactly when that step records a review of the CO |
| OverlappingWrites.DecidedReviewLetsWrite | tools/clear_production_attempt.py:84-96 | whatever made the tool decide, its review lets one more write follow, whatever result came in meanwhile |
| OverlappingWrites.EarlyLookDecides | tools/clear_production_attempt.py:84-91 | a tool that looks while a write is under way decides on its review before that write is verified |
| SequentialWrites.LookAndWriteAlone | integration/onboarding/production_create_ui.py:917-962 | a call that runs alone leaves exactly what the guarded write leaves, and its last look comes right before its intent line |
| UuidWrites.WriteUuid | integration/onboarding/production_create_ui.py:917-962 | one call writes exactly when both of its gates pass on the log as read, and logs as the protocol says |
| UuidWrites.ClearUuid | tools/clear_production_attempt.py:84-96 | a review is recorded exactly over an uncertain or started state as the tool reads it |
| UuidWrites.WritesAreSeparatedByReview | integration/onboarding/production_create_ui.py:857-962 | over any sequence of calls and reviews one after the other, with stops, torn appends and failed reads, a review stands between two writes of one CO |
| UuidWrites.BlindClearWritesTwice | tools/clear_production_attempt.py:84-91 | after a verified write, a review recorded by a tool whose own read failed lets a second write follow, even with calls one after the other |
| Case3Followup.WriteIds | integration/onboarding/case3_followup.py:273-317 | the ids are sent exactly when the second look passes unchanged and shows them missing |
| Case3Followup.WriteStage | integration/onboarding/case3_followup.py:320-358 | the stage is sent exactly when its log and the row allow it |
| Case3Followup.FollowUp | integration/onboarding/case3_followup.py:212-270 | one confirmation or automatic follow-up: the stage step runs only on settled ids |
| Case3Followup.FollowedExactly | integration/onboarding/case3_followup.py:212-358 | one whole call: nothing without authority and a clear first look; the ids exactly when both looks are clear and agree and the second shows them missing; the stage exactly when the ids show or were just confirmed and its own gate and plan allow it |
| Case3Followup.IdsSentOnce | integration/onboarding/case3_followup.py:273-317 | over any sequence of calls one after the other, with stops, torn appends and failed reads, the ids of a CO are sent at most once |
| Case3Followup.StageOnlyAfterIds | integration/onboarding/case3_followup.py:212-270 | a stage write is sent only when the row showed the ids or an ids write of that CO was accepted and read back, never on an accepted command alone |
| Case3Followup.OnlyVerifiedStageRepeats | integration/onboarding/case3_followup.py:320-323 | with calls one after the other a started, rejected or uncertain stage write is never repeated |
| ClonePush.CloneStore.Ingest | tools/ingest_clone_push.py:86-155 | one push: objections in order, install, read back, high-water mark, and what each failing disk step leaves |
| NineTenths.ProductComparesExactly | tools/ingest_clone_push.py:137-138 | the comparison with the rounded floating-point product of the mark and 0.9 is the exact comparison with nine tenths |
| ClonePush.HighWaterNeverDecreases | tools/ingest_clone_push.py:192-208 | the stored pair never decreases, whatever the push, the disk and other writers do |
| ClonePush.AcceptedMarkExactly | tools/ingest_clone_push.py:149-149 | after an accepted push each half of the mark is the larger of what the old mark or the served clone had and what the new clone has |
| ClonePush.MarkIsAttained | tools/ingest_clone_push.py:192-208 | over every run each half of the mark is that of a clone that was served |
| ClonePush.NewerPushIsInstalled | tools/ingest_clone_push.py:121-149 | from an empty store a push newer than every clone served before, with nine tenths of the rows of each, is installed whenever the disk works |
| ClonePush.ShrinkNeverCompounds | tools/ingest_clone_push.py:126-149 | over any sequence of pushes, with the current clone lost or replaced at any time, each accepted clone has nine tenths of every earlier accepted one and is not older |
| ClonePush.LaterPushFollows | tools/ingest_clone_push.py:126-149 | the same in terms of the events alone: of two recorded pushes the later one has nine tenths of the rows of the earlier and is not older |
| ClonePush.AcceptedExactlyWhenFitting | tools/ingest_clone_push.py:121-149 | exactly when the next push is installed and recorded |
| ClonePush.RefusalLeavesStore | tools/ingest_clone_push.py:139-148 | a refusal leaves the served clone alone except exactly when the restore does not bring it back; exactly a failed restore leaves the refused clone served |
| ClonePush.RetryAfterRefusal | tools/ingest_clone_push.py:139-148 | the same push again after a failed install: installed exactly when the restore brought the previous clone back or the push meets what is left, and told "unchanged" without ever getting its record where the failed restore left it served |
| ClonePush.UnrecordedForgets | tools/ingest_clone_push.py:149-149 | after an installed clone whose high-water write failed, losing the clone lets a small one pass |
| ClonePush.RememberedExactly | tools/ingest_clone_push.py:121-149 | all that a store would still install follows an installed clone, in rows and in time, exactly when the mark asks for as many rows and for nothing older |
| ClonePush.RecordedIsRemembered | tools/ingest_clone_push.py:192-208 | every recorded clone meets that condition for ever |
| ClonePush.UnrecordedRemembered | tools/ingest_clone_push.py:149-149 | one without its record meets it while it is served, and once it is lost exactly when the older mark covers it |
| Inventory.ValidatedRows | integration/onboarding/leonardo_inventory.py:488-518 | accepted exactly when the whole table, dropped repeats included, is a partial bijection of ids and UUIDs; then the first row of each id is kept and the rest counted; else the first bad row names the error |
| Inventory.AcceptedExactly | integration/onboarding/leonardo_inventory.py:488-518 | a table is accepted exactly when every row has an id, a name and no UUID or a text, and every two rows agree: one id, one UUID but for case, and when strict one name and one deletion flag |
| Inventory.FirstOfEachExactly | integration/onboarding/leonardo_inventory.py:488-518 | the kept rows are, in the order of the table, exactly those whose id no earlier row has |
| Inventory.KeptRowsAreTheTenants | integration/onboarding/leonardo_inventory.py:488-518 | the kept rows have distinct ids and distinct UUIDs and are all the ids there are |
| Inventory.AssemblePages | integration/onboarding/leonardo_inventory.py:533-564 | accepted exactly for a complete capture, refused for the first condition that fails; then the rows are exactly as many distinct tenants as every page announced |
| Inventory.CompleteExactly | integration/onboarding/leonardo_inventory.py:533-564 | complete means: at most 200 pages, all read whole, each at its place and of one size, order, filter and total of at most 5000, whose rows are an acceptable table of as many ids |
| Inventory.AssembleRows | integration/onboarding/leonardo_inventory.py:521-530 | the same for one result set |
| Inventory.RepeatsMayDiffer | integration/onboarding/leonardo_inventory.py:509-513 | whatever else a repeated row says is dropped with it, even in the strict pass |
| DuplicateGate.CanonicalIsIdempotent | integration/onboarding/leonardo_inventory.py:254-259 | normalising a domain twice changes nothing, for every case folding that leaves domain names alone |
| DuplicateGate.CanonicalExactly | integration/onboarding/leonardo_inventory.py:254-259 | the canonical form of a value is the one domain name of at most 253 characters that it is in small letters, without the white space around it and the dots behind it |
| DuplicateGate.NameMatchesExactly | integration/onboarding/leonardo_inventory.py:269-290 | two names match exactly when they have the same words but for case, and any word at all |
| DuplicateGate.MinimizedKeepsReasons | integration/onboarding/leonardo_inventory.py:396-448 | within the limits cutting a row down loses no match and invents none, reason by reason |
| DuplicateGate.FirstAreKept | integration/onboarding/leonardo_inventory.py:262-268 | of the alternate domains the 5000 that come first in order are kept, or all |
| DuplicateGate.CompleteExactlyWhenNothingLost | integration/onboarding/leonardo_inventory.py:192-268 | the check is complete for a tenant over every CO exactly when its row lost no matchable name and no domain |
| DuplicateGate.LimitsLoseNothing | integration/onboarding/leonardo_inventory.py:250-268 | texts of at most 512 characters and at most 5000 domains lose nothing |
| DuplicateGate.ReportIsEntitled | integration/onboarding/leonardo_inventory.py:284-300 | only tenants with a reason are reported, in order, with all their reasons |
| DuplicateGate.ReportIsComplete | integration/onboarding/leonardo_inventory.py:284-300 | and every tenant with a reason is |
| DuplicateGate.DuplicatePrecheck | integration/onboarding/leonardo_inventory.py:274-300 | the loop produces exactly that report |
| DuplicateGate.ProductionGate | integration/onboarding/leonardo_inventory.py:306-329 | passes only on a usable clone without a match |
| DuplicateGate.GateSeesRawTenants | integration/onboarding/leonardo_inventory.py:306-329 | over a clone of minimized rows the gate matches only on a raw match, and on every raw match whose row lost nothing |
| Secrets.StretchIsHarmless | integration/onboarding/production_create_record.py:44-64 | every stretch of a harmless text is harmless, so cutting never creates a secret |
| Patterns.SecretExactly | integration/onboarding/production_create_record.py:44-64 | what looks like a secret: a run of forty blob characters, three dotted parts of ten, or one of six words in any case |
| Sanitizer.FreeTextIsClean | integration/onboarding/production_create_record.py:67-76 | a cleaned text has no control character and no secret, even after the cut at 300 characters |
| Sanitizer.CleanedTwice | integration/onboarding/production_create_record.py:67-125 | every cleaner leaves a cleaned value as it is |
| Sanitizer.UnredactedIsKept | integration/onboarding/production_create_record.py:67-121 | a text is replaced exactly when it counts as redacted; any other is kept, whole for a machine name, plain and cut for a free text |
| Patterns.MachineNameKept | integration/onboarding/production_create_record.py:50-125 | a machine name is kept exactly when it matches the regular expression of its kind and holds nothing like a token or a blob, a request path segment by segment; else it is replaced and counted |
| Sanitizer.RunIsOneBlank | integration/onboarding/production_create_record.py:43-72 | each run of control characters becomes one blank |
| Sanitizer.NumberKept | integration/onboarding/production_create_record.py:67-76 | a whole number is kept in its decimal digits |
| CreateRecord.FoldStays | integration/onboarding/production_create_record.py:146-178 | a cleaned table read back in any order folds to itself |
| CreateRecord.Sanitize | integration/onboarding/production_create_record.py:128-179 | the loop builds exactly the sanitized fields and counts every value it replaced |
| RecordFields.ScalarsExactly | integration/onboarding/production_create_record.py:131-136 | the nine free fields keep a text, or a whole number in its digits, without control characters and at most 300 characters; a secret one is replaced and counted |
| RecordFields.NameListExactly | integration/onboarding/production_create_record.py:137-145 | the lists of machine names keep the texts among the first fifty items in order, every inadmissible one replaced and counted |
| RecordFields.DomainsExactly | integration/onboarding/production_create_record.py:137-145 | the domains keep the texts among the first fifty items as free text, every secret one replaced and counted |
| RecordFields.TableExactly | integration/onboarding/production_create_record.py:146-178 | a table keeps of its first fifty entries what the last one under each cleaned name says; a form field counts as passed only when that entry says "pass" |
| CreateRecord.SanitizedTwice | integration/onboarding/production_create_record.py:128-179 | sanitizing a sanitized record changes no field |
| CreateRecord.LoadAcceptsWritten | integration/onboarding/production_create_record.py:222-277 | whatever the writer writes the loader accepts, in whatever order its tables come back |
| CreateRecord.LoadedHoldsNoSecret | integration/onboarding/production_create_record.py:263-268 | whatever the loader accepts holds no secret in a free text field |
| CreateRecord.LoadedDomainsHoldNoSecret | integration/onboarding/production_create_record.py:256-268 | nor an item of its list of domains |
| CreateRecord.Folder.WriteNew | integration/onboarding/production_create_record.py:192-219 | the file gets the first free name of its base; no file is ever replaced |
| CreateRecord.Folder.Record | integration/onboarding/production_create_record.py:222-242 | a record call is refused without a trace or adds one file that every later load accepts |
| RecordFields.FileExactly | integration/onboarding/production_create_record.py:222-242 | a record is written exactly for a reference of the right shape that is no secret and one of seven outcomes |
| PublicSuffix.LoadRules | phase2_leonardo/intake.py:140-168 | the three sets hold exactly the rules of the list; a list without a plain rule is refused |
| PublicSuffix.SomeRulePrevails | phase2_leonardo/intake.py:170-194 | for every list and domain the published algorithm has a prevailing rule |
| PublicSuffix.SuffixIsOfPrevailingRule | phase2_leonardo/intake.py:170-191 | the computed suffix length is that of the prevailing rule of the Public Suffix List algorithm |
| PublicSuffix.RegistrableIsPublicSuffixPlusOne | phase2_leonardo/intake.py:192-194 | the result is the public suffix plus one label, a label suffix of the input, or a refusal when there is none to spare |
| PublicSuffix.RegistrableIsFixedPoint | phase2_leonardo/intake.py:170-194 | the registrable domain of a registrable domain is itself |
| DomainLists.RootsAreRegistrable | phase2_leonardo/intake.py:245-249 | a name is a root exactly when it has one label more than its public suffix |
| Domains.LabelsDotted | phase2_leonardo/intake.py:117-134 | a name split at its dots and joined again is the name, and no labels are lost or changed |
| DomainLists.ClassedExactly | phase2_leonardo/intake.py:224-249 | what an item is listed as: an address as read; a name whole, a root with one label more than its public suffix, a subdomain with more, and nothing with fewer |
| DomainLists.SplitCandidates | phase2_leonardo/intake.py:262-280 | each candidate but the primary one is listed under its kind, and no list has a repeat |
| DomainLists.CeDomain | phase2_leonardo/intake.py:281-294 | accepted exactly when every item is a root and all are one domain |
| DomainLists.NormalizeDomains | phase2_leonardo/intake.py:252-307 | the lists are the candidates by kind, sorted by a sort that keeps repeats and yet strictly ascending; refused exactly when some condition fails, for the first that does |
| DomainLists.OrderAndRepetitionIgnored | phase2_leonardo/intake.py:252-307 | the same items in any order, however often repeated, are accepted exactly within the list limit and then give the same lists |
| DomainLists.RepetitionCountsAtTheLimit | phase2_leonardo/intake.py:204-215 | beyond the limit repetition is refused |
| TextOrder.OneSortedList | phase2_leonardo/intake.py:298-307 | a set of texts has one sorted list |
| TextOrder.LessExactly | phase2_leonardo/intake.py:298-307 | one text comes before another exactly when it is less where they first differ |
| RateLimiter.Limiter.Check | integration/onboarding/rate_limit.py:46-62 | the loop prunes the queue and decides for one actor; no other queue changes |
| RateLimiter.DecidesByWholeHistory | integration/onboarding/rate_limit.py:52-62 | with nondecreasing times a request is allowed exactly when fewer than the limit were allowed in the window that ends with it |
| RateLimiter.NoWindowOverflows | integration/onboarding/rate_limit.py:52-62 | with nondecreasing times, or a limit of one, no window anywhere ever holds more than the limit |
| RateLimiter.BurstOverflows | integration/onboarding/rate_limit.py:52-62 | under every limit of two or more, a request with an old time after a newer one pruned the queue puts one too many into a window |
| RateLimiter.AnyOrderOverflowsExactly | integration/onboarding/rate_limit.py:52-62 | for times in any order no window overflows exactly when the limit is one |
| RateLimiter.AgreesExactlyWhenOrdered | integration/onboarding/rate_limit.py:52-62 | every request is decided as the whole history says, under every policy, exactly when the times never decrease |
| RateLimiter.AdvisedWait | integration/onboarding/rate_limit.py:57-60 | the exact wait is less than a second more than advised, and no less than advised unless that is the minimum of one second; and a lone retry is allowed exactly from its end on |
| RateLimiter.QueueNeverLong | integration/onboarding/rate_limit.py:57-61 | the queue never grows past the limit |

## Left out

- OneRealClickPerCo: needs that no consume comes after a later issue, because the code hands the consume the clock reading of the last gate; `CreateStale` shows the failing run. `TwoRealClicksMeanOvertaken` is one direction: an overtaken consume need not lead to a second click.
- WritesAreSeparatedByReview and the other laws of `UuidWrites` and `Case3Followup` are about calls one after the other; `OverlappingWrites` has what holds of calls that overlap.
- ReviewedExactlyUnlessOverlapping: a line appended right after a torn one may join it in the file; the model keeps the two apart, and a reader stops at the torn line either way.
- LookAndWriteAlone: of the two looks of a call only the last is a step of its own; the first can only refuse.
- ClearsNeverExceedStarts: needs that no two reviews of a pair overlap, because the tool reads and records without a lock; `OverlappingReviewsClearInAdvance` shows the failing history.
- ShrinkNeverCompounds: counts the accepted and recorded clones; for an installed clone whose high-water write failed see `RememberedExactly`.
- ProductComparesExactly: takes row counts below 2^49; a pushed file of at most 32 MiB holds far fewer.
- OneClickPerApproval: takes consume and issue as single steps, which `CallsAreSingleSteps` proves of the lock protocol, and assumes that no injected call refuses with the click's own code.
- LaterFormMeansUntouched: takes the records an attempt loads as the entries on file at its launch; files of the same second may sort either way, which no count depends on.
- NoUseOnceEnded and the other laws of the approval file leave out times without a zone, directories that cannot be made, and the removal of a stale lock by hand.
- Redact: starts from the decoded body; undecodable, oversized or non-object bodies all leave nothing. Contract values that are objects do not occur.
- LoadAcceptsWritten: takes the file as the parsed object; duplicate keys and the JSON text itself are given functions.
- SuffixIsOfPrevailingRule: domains and rules are label sequences; wildcards stand only in front, as the reader of the list keeps them.
- MinimizedKeepsReasons and all other laws fold case as for ASCII letters; `CanonicalIsIdempotent` holds for every folding.
- NoWindowOverflows: needs ordered times for limits of two or more, and `BurstOverflows` shows why.
- RecordIsExact: counters are kept by the raw path, where the code replaces id-like segments; the create path has none.
- ValidatedRows: the second bounds of the inventory, schema drift, snapshots, pruning and the renewal domain gate are not modelled.
- The `run` seams for its environment, the target lock and session readiness: the gate is a parameter of the run, and the production target answers as given.
- One-time tokens, the launch registry, launch tickets, the issuer check of the clear tool and the typed confirmation: they only add refusals.
- Plans of the Salesforce writers (which fields, which row), the command itself and the read-back: given answers.
- The records and snapshot pushes of the push channel, and the sweep of stale stages.
- Playwright, page reads, waiting times, HTTP handlers, cards, dashboards and command-line parsing.
- Hashes, HMAC, IDNA, e-mail and URL parsing: given functions.

# Vessel logbook: report chain, sync protocol and configuration, verified

This project models the parts of the logbook system that keep a vessel's report
chain and its office copy consistent, and proves what those parts are for. It is
written in Dafny 4.11; `dafny verify dfyconfig.toml` checks all of it.

The model has four connected components.

**Report chain and continuity** (`Reports`, `Chains`, `Continuity`,
`ContinuityLaws`, `Cascade`, `CascadeLaws`, `VerdictFromChain`, `Precheck`,
`PrecheckReport`, `PrecheckLimits`, `Submission`). A chain of committed reports is
sorted by event time, two neighbour rules (time chain, remaining on board) and
two whole-chain rules (event ordering, timestamp uniqueness) are run over it, and
each report gets the list of rules it breaks at error severity. The same rules
check a draft before it is submitted (`Submission` follows it into the office).
Sorting is unstable, as `sort.Slice` is, so every method promises its result for
*some* admissible order and the laws say when the order cannot matter.

**Lifecycle** (`Lifecycle`, `LifecycleLaws`, `ReportHistory`, `VesselInbox`). The
report aggregate is a class whose methods are proved against functions on a
version value; its field map is a cell, so what is copied is part of the model.
Runs of those functions under the callers' guards are then reasoned about.

**Sync protocol** (`OfficeStore`, `OfficeCascade`, `OfficeCascadeLaws`,
`CascadeRecords`, `ChainAgreement`, `PushOutbox`, `PushOutboxLaws`, `Landing`,
`Chunks`, `Attachments`, `AttachmentLaws`, `Streams`, `UserCommands`,
`UserCommandLaws`). The office
database is a class of tables; the push handler, the cascade that turns verdicts
into state flips and notices, resumable chunked upload into the
content-addressed store, and the pull streams are methods over it. The writes of
a push, of a cascade and of an upload can each fail, at any of them. Laws are
about runs: pushes, lost acknowledgements, retransmissions, remarks and passes in
any order.

**Configuration** (`Scopes`, `Compliance`, `ComplianceMeaning`, `FieldPolicy`,
`FieldPolicyLaws`, `FieldRules`, `PolicyStrength`, `Cells`, `ConfigBundle`,
`BundleDocument`, `BundleEdits`, `AssignedBundle`, `BundleDelivery`). Fleet,
group and vessel assignments are resolved for one vessel by one generic scheme,
instantiated for rule severities, cadence, field rules, prefill classes and bundle
assignments. Bundles are heap objects, so what cloning copies and what it shares
is part of the model.

`Prelude` holds shared vocabulary only.

## Conventions

- Instants are integers (nanoseconds since 1970), numbers are reals, content is a
  sequence of bytes. The digest is an arbitrary function.
- Clock readings, fresh identifiers and the outcome of fallible store or file
  operations are parameters.
- 32-bit and 64-bit arithmetic in the chunk count wraps around; division
  truncates toward zero where the program's does.
- A method that changes state is proved equal to a function (or a step relation)
  on the state; the laws are lemmas about that function. What an operation decides
  is then said a second time without that function, from the readings, lists and
  tables it is about (`ContinuityLaws`, `VerdictFromChain`, `PrecheckReport`,
  `ReportHistory`, `CascadeRecords`, `Landing`, `ComplianceMeaning`,
  `PolicyStrength`, `BundleDocument`, `BundleDelivery`).

## What the code does that its comments do not say

Each of these is proved, with the exact condition where there is one.

- *Minute key* (`Continuity.MinuteKeyIsClockMinute`). Truncation toward zero makes
  the uniqueness key name the following minute for instants before 1970 that are
  not whole minutes.
- *Identical health on vessel and office* (`pkg/validation/doc.go:3-6`). The
  pre-submit check uses a stable sort and the cascade does not, and tied event
  times can then be judged differently
  (`PrecheckLimits.AgreementIffDistinctTimes`). The two sides' chains hold the
  same versions exactly when the newest committed version of every report was sent
  (`ChainAgreement.ChainsAgreeIff`): a notice that finds a draft on top puts a
  version into the vessel's chain that the office was never sent, and nothing else
  makes them differ (`ChainAgreement.StepKeepsAgreementIff`,
  `ChainAgreement.AlwaysAgreeIff`).
- *"A report still being drafted is never invalidated"*
  (`pkg/domain/state.go:41-45`). An invalidation notice is applied to the latest
  version, which is the correction if one is in progress
  (`VesselInbox.NoticeSparesDraftsIff`).
- *Idempotent landing*. A landing whose receipt could not be written is repeated:
  the rows come out the same (`PushOutboxLaws.RelandingRestoresRows`), but a
  version its own landing invalidates gets a second notice
  (`PushOutboxLaws.RelandingIsSilentIff`), a remark made in between is overwritten
  (`PushOutboxLaws.RemarkSurvivesResendIff`), an audit event is doubled
  (`PushOutboxLaws.AuditEventAppendedTwiceIff`) and a chat message is refused for
  ever (`PushOutboxLaws.StuckChatStaysStuck`).
- *Resumable upload*. A failed assembly that keeps the upload record loses the
  chunks it recorded; once two are gone no calls that work as they should complete
  it
  (`AttachmentLaws.CompletableIff`, `AttachmentLaws.FailedAssemblyRecoversIff`).
  With no chunk missing and nothing stored, be it so or because the last listing
  failed, the vessel is told the upload succeeded
  (`AttachmentLaws.StuckClientUpload`, `AttachmentLaws.SuccessIsTrueIff`). An empty
  attachment is reported sent and never stored
  (`AttachmentLaws.UploadStoresIffNotEmpty`).
- *Temporary passwords survive redelivery* (`office/store/usercommands.go:50-58`).
  They do unless the vessel confirms a command in a cycle whose cursor it then
  fails to save, which `vessel/httpapi/sync.go:250-264` does
  (`UserCommandLaws.ConfirmedUnsavedIntactIff`).
- *Pull streams*. Notices and remarks are stored after the cursor is committed
  (`vessel/store/inbox.go:162-198`), so a failure in between loses them for good
  (`Streams.PartlyKeptIsBehind`, `Streams.MissedIsMissedForever`). A command with
  an unknown action would block its vessel's stream, exactly when one is queued
  (`UserCommandLaws.BlockedIff`); none of the handlers queues one
  (`UserCommandLaws.HandlersNeverBlock`).
- *Field policy*. Of two groups whose rules rank the same the first one's event
  list stands (`FieldPolicyLaws.RuleOrderFreeIff`,
  `FieldPolicyLaws.EventListsDependOnOrder`), and the store lists assignments in
  no particular order (`office/store/fieldpolicies.go:85-90`).
- *"The newest assigned bundle"*. A vessel assigned a bundle older than one it has
  run never gets it (`AssignedBundle.AssignedInForceIff`,
  `AssignedBundle.OlderBundlesNeverReturn`); and a vessel in two groups with
  different bundles gets whichever the unordered listing has first
  (`AssignedBundle.AssignmentDeterminedIff`).
- *Frozen bundles* (`office/configbundle/bundle.go:78-86`). The event lists are
  shared between a published bundle and the live policy: what the bundle holds
  survives a later edit exactly when the list is refused or asks for what is there
  already (`ConfigBundle.EditEventsAfterPublish`), and a vessel's document changes
  with any other edit that is not hidden by the fleet's rule
  (`BundleEdits.EventEditReachesVessels`, `BundleEdits.EditUnseenIff`).

## Model

| member | source | states |
|---|---|---|
| Chains.SortSlice | pkg/validation/cascade.go:51-53 | the result is some order of the chain by event time, with nothing promised about ties |
| Chains.SortUnique | pkg/validation/cascade.go:51-53 | with distinct event times any two admissible orders are the same sequence |
| Chains.SamePrefix | pkg/validation/cascade.go:51-53 | two admissible orders agree on the part in which event times are distinct |
| Continuity.EvaluateTimeChain | pkg/validation/continuity.go:25-43 | exactly one finding, with the configured severity, when the reported interval misses the real one by more than the tolerance, and none otherwise |
| Continuity.EvaluateROBContinuity | pkg/validation/continuity.go:49-77 | one finding for each series whose level misses the expected one by more than the tolerance, in configuration order; the expected level is pinned by the ContinuityLaws rows below |
| Continuity.ROBErrorMeaning | pkg/validation/continuity.go:49-77 | remaining on board is an error finding exactly when some series breaks and the rule's severity is error |
| ContinuityLaws.EveryFieldCounts | pkg/validation/continuity.go:58-68 | every listed consumption field counts, once for each time it is listed: raising its reading and lowering the level by as much leaves the answer as it was, and a field not listed has no say |
| ContinuityLaws.EveryFieldCountsBefore | pkg/validation/continuity.go:58-68 | the same against the previous level, for every field and every list |
| ContinuityLaws.OnlyListedFieldsCount | pkg/validation/continuity.go:49-77 | nothing but the two levels and the listed readings matters, and the list in any order |
| ContinuityLaws.NothingConsumed | pkg/validation/continuity.go:49-77 | with nothing consumed a series breaks exactly when both levels are there and differ from what was bunkered by more than the tolerance |
| ContinuityLaws.IntervalMustMatch | pkg/validation/continuity.go:25-43 | a report so many hours after its predecessor is found wrong exactly when it gives an interval further from that than the tolerance |
| Continuity.EvaluateTimestampUniqueness | pkg/validation/continuity.go:83-103 | each report gets one finding for each position whose minute key it shares with another, whatever order the buckets are visited in |
| Continuity.CollisionsMeaning | pkg/validation/continuity.go:83-103 | a report id is reported exactly when a report of that id shares its minute key with another position of the chain |
| ContinuityLaws.CollisionCount | pkg/validation/continuity.go:83-103 | with distinct ids a report gets one finding if its minute key is shared and none otherwise |
| ContinuityLaws.MinuteKeyFromEpoch | pkg/validation/continuity.go:86-86 | from 1970 on the key is the number of whole minutes since then |
| Continuity.MinuteKeyIsClockMinute | pkg/validation/continuity.go:86-86 | the key is the clock minute exactly from 1970 on or on whole minutes; otherwise it is the next minute's |
| Continuity.EvaluateEventOrdering | pkg/validation/continuity.go:110-139 | each report gets as many findings as groups flag it, for every group of the configuration |
| Continuity.FlaggedIffNearestRepeats | pkg/validation/continuity.go:110-138 | a report is flagged for a group exactly when the nearest staged report before it is in the same stage |
| ContinuityLaws.FlaggedFromLists | pkg/validation/continuity.go:110-139 | a report is flagged exactly when an earlier one's event type is in the same stage list and the group lists none in between |
| ContinuityLaws.OrderingCount | pkg/validation/continuity.go:110-139 | with distinct ids a report gets one finding for each group that flags it |
| Continuity.AlternatesIffBalanced | pkg/validation/continuity.go:110-138 | a group has no finding exactly when over every stretch of the chain its two stages' counts differ by at most one |
| Continuity.ROBDriftBound | pkg/validation/continuity.go:49-77 | if no step of a series has a finding, then over n steps the level differs from the start less consumption plus bunkering by at most n tolerances |
| Continuity.TimeDriftBound | pkg/validation/continuity.go:25-43 | if no step has a time-chain finding, summed reported intervals differ from elapsed time by at most n tolerances |
| Cascade.Revalidate | pkg/validation/cascade.go:47-84 | the result is the verdict of the chain in some admissible order: a report id is listed exactly when it breaks a rule at error severity, with exactly its broken rules |
| Cascade.VerdictMeaning | pkg/validation/cascade.go:51-83 | a list holds exactly the broken rules, each once, in the fixed order |
| Cascade.SameRulesSameList | office/syncservice/cascade.go:126-138 | lists in that order with the same rules are equal, so the dedup guard's list equality is set equality |
| CascadeLaws.MarksAreLocal | pkg/validation/cascade.go:63-82 | with distinct ids an id is marked exactly when its one report breaks the rule at its position |
| VerdictFromChain.ListedIffBreaks | pkg/validation/cascade.go:51-83 | with distinct ids a rule is in a report's verdict exactly when it is an error, configured or by default, and the report breaks it against the report just before it, the staged reports before it, or a report of its minute |
| CascadeLaws.OrderIndependence | pkg/validation/cascade.go:47-84 | permuting a chain with distinct event times changes no verdict |
| CascadeLaws.OrderFreeIffDistinctTimes | pkg/validation/cascade.go:51-53 | verdicts are independent of how ties are broken, for every content and configuration, exactly when event times are distinct |
| CascadeLaws.BlastRadius | pkg/validation/cascade.go:37-82 | changing one report's content but not its id or time changes verdicts only for it, its successor, and per group whose stage it changed the next staged report |
| CascadeLaws.StricterOnlyAdds | pkg/validation/cascade.go:47-84 | smaller tolerances and raised severities keep every broken rule of every report |
| Precheck.EvaluateContinuity | pkg/validation/precheck.go:28-55 | the findings are those of the report against its predecessor and of the whole chain, on the chain with its old version replaced, stably sorted |
| PrecheckReport.PrecheckReports | pkg/validation/precheck.go:28-55 | warnings included: one finding for a wrong interval, one for each broken series and each flagging group, one for a shared minute, each at its rule's configured or default severity, and nothing else |
| Precheck.PrecheckIsStableVerdict | pkg/validation/precheck.go:28-55 | the pre-check's error rules are the cascade's verdict for the report in the stable order |
| Precheck.PrecheckAgrees | pkg/validation/precheck.go:28-55 | with distinct ids, and times distinct up to the report, the pre-check's error rules are exactly the cascade's list after landing, in any admissible order |
| Precheck.CleanIffUnmarked | pkg/validation/precheck.go:28-55 | with distinct ids and times up to the report's, the pre-check has no error exactly when the cascade over the chain with the report landed does not list it |
| Submission.SameReportAshore | pkg/domain/report.go:78-91 | the office evaluates a pushed version exactly as the vessel does: same report, version, schema, event, time and readings |
| Submission.SurvivesLandingIff | office/syncservice/pushoutbox.go:54-90 | under one configuration, upserting the report and cascading its chain leaves the row as pushed exactly when its pre-check had no error |
| Submission.CleanDraftSurvivesLanding | pkg/validation/precheck.go:10-27 | a report without pre-check errors under the vessel's configuration lands without being invalidated or noticed under any office configuration that is no stricter |
| PrecheckLimits.AgreementIffDistinctTimes | pkg/validation/precheck.go:28-55 | pre-check and cascade agree for every content, configuration and tie order exactly when no two event times up to the report's are equal |
| Lifecycle.ReportAggregate.NewReport | pkg/domain/report.go:48-76 | a draft of version 1 over a copy of the prefilled fields, its event time following the date and time fields, and its creation event; nothing without an id |
| Lifecycle.ReportAggregate.RecomputeEventTime | pkg/domain/report.go:121-133 | whatever instant the date and time texts parse to becomes the event time; it stays where they give none |
| Lifecycle.ReportAggregate.SaveSection | pkg/domain/report.go:146-172 | exactly the changes that differ are applied and recorded, each field once with its old value; the version is back in draft if anything changed |
| ReportHistory.SaveMeaning | pkg/domain/report.go:146-172 | after a save every field asked for reads as asked and every other as before; if any reading changed a ready version is a draft again and its event time is what the fields now give, and otherwise nothing changed |
| ReportHistory.LogMeaning | pkg/domain/report.go:146-172 | the log names exactly the fields whose reading changed, each once, with the value it had and the value asked for |
| Lifecycle.ReportAggregate.MarkReady | pkg/domain/lifecycle.go:19-49 | a committed version is refused; any other becomes ready exactly when the findings hold no error, and draft otherwise, with the three counts in the event |
| Lifecycle.ReportAggregate.Submit | pkg/domain/lifecycle.go:62-82 | only a ready version is submitted, and nothing changes otherwise |
| Lifecycle.ReportAggregate.MarkSynced | pkg/domain/lifecycle.go:96-108 | only a submitted version is marked pushed |
| Lifecycle.ReportAggregate.MarkRemarked | pkg/domain/lifecycle.go:125-140 | only a committed version is marked remarked, and the invalidation record stays |
| Lifecycle.ReportAggregate.Invalidate | pkg/domain/lifecycle.go:151-165 | the version is invalidated with these rules and remembers the state it came from |
| Lifecycle.ReportAggregate.NewCorrection | pkg/domain/lifecycle.go:172-199 | only a committed version is corrected; the next version is a fresh draft over a copy of the fields and this one is unchanged |
| Lifecycle.CorrectAndSave | pkg/domain/lifecycle.go:172-199 | whatever is saved into a correction, the version it corrects reads as before |
| Lifecycle.ErrorsCounted | pkg/domain/lifecycle.go:19-49 | the error count is zero exactly when the findings hold no error |
| ReportHistory.CountMeaning | pkg/domain/lifecycle.go:19-49 | each count of a health check is the number of findings of that severity |
| LifecycleLaws.RunsKeepChecked | pkg/domain/lifecycle.go:19-165 | over every guarded run a ready or committed version has exactly the content of its last error-free check, and a committed one never leaves the committed states |
| LifecycleLaws.DraftRunsAreChecked | pkg/domain/lifecycle.go:19-165 | the same for every run from a draft, with no history assumed |
| LifecycleLaws.RunsKeepSubmission | pkg/domain/lifecycle.go:19-165 | over every guarded run a version is committed exactly when a submission is on record, that record never changes, and an invalidated version remembers a committed state |
| ReportHistory.HistoryMeaning | pkg/domain/lifecycle.go:19-82 | over every guarded run from a draft, the version is committed exactly when it was submitted at a step where its last check was error-free with no changing save since, the record is that first submission's, and until then it is ready exactly when so checked |
| ReportHistory.InvalidationRemembers | pkg/domain/lifecycle.go:151-165 | however often it is invalidated a version remembers the state before the first time and the rules of the last |
| ReportHistory.CorrectionRoundTrip | pkg/domain/lifecycle.go:172-199 | a correction checked and submitted as it is gives the next version of the report, committed, with the content of the one corrected and a history of its own |
| LifecycleLaws.CreatedAtGivenTime | pkg/domain/report.go:48-76 | a first version is of the time its prefilled fields give, or of the one it is created with |
| LifecycleLaws.RunsKeepTime | pkg/domain/report.go:112-172 | over every run, if date and time read as texts that parse to x the event time is x, and it was only ever moved to a time the fields then gave |
| LifecycleLaws.UndoRestores | pkg/domain/report.go:146-172 | undoing deltas on different fields restores what those fields read |
| LifecycleLaws.AuditReplay | pkg/domain/report.go:146-172 | for any sequence of saves, new values replayed over the start give the end, old values replayed backwards give what the start read, and every entry is a real change |
| VesselInbox.VesselStore.ApplyInvalidationNotice | vessel/store/inbox.go:216-235 | the report's latest version is invalidated with the notice's rules, unless it is unknown or so invalidated already |
| VesselInbox.NoticeSparesDraftsIff | vessel/store/inbox.go:216-235 | that no version is invalidated out of draft or ready survives a notice exactly when the report's latest version is a committed one |
| VesselInbox.NoticeReachesNamedVersionIff | vessel/store/inbox.go:216-235 | the named version ends up invalidated with the notice's rules exactly when it is the latest or was so already |
| VesselInbox.RepeatedNoticeIsIgnored | vessel/store/inbox.go:216-235 | the same notice delivered again changes nothing |
| VesselInbox.NoticeHitsTheCorrection | pkg/domain/state.go:41-45 | a notice for a version under correction locks the draft and leaves the version alone |
| OfficeStore.Store.UpsertReportVersion | office/store/reportlanding.go:20-47 | the row is inserted or overwritten, and no other table changes |
| OfficeStore.Store.AppendReportAuditEvent | office/store/reportlanding.go:86-103 | one audit row is appended |
| OfficeStore.Store.InsertChatMessage | office/store/chat.go:15-24 | a message is stored unless its id is taken, in which case the insert fails |
| OfficeStore.Store.RecordOutboxReceipt | office/store/reportlanding.go:441-451 | the receipt is on record afterwards |
| OfficeStore.Store.GetLatestInvalidationNotice | office/store/invalidation.go:42-64 | the newest notice for the report version, if any |
| OfficeStore.Store.ListChain | office/store/reportlanding.go:365-406 | the latest version of each report of the vessel and schema, by event time, ties in any order |
| OfficeCascade.StringsEqual | office/syncservice/cascade.go:128-138 | true exactly for equal lists |
| OfficeCascade.RecordVerdict | office/syncservice/cascade.go:50-83 | writes exactly the statements one report needs, up to the statement at which the store fails |
| OfficeCascade.RunCascade | office/syncservice/cascade.go:26-85 | the store ends as a pass over some admissible order of the committed chain leaves it, complete or cut short |
| OfficeCascadeLaws.PassOnlyInvalidates | office/syncservice/cascade.go:26-85 | however far it gets, a pass only turns committed latest rows of its vessel and schema invalidated, and only appends notices and audit rows |
| OfficeCascadeLaws.PassSettles | office/syncservice/cascade.go:26-85 | with distinct event times, after a complete pass every marked report is invalidated with a latest notice listing exactly its rules, and all other rows are as before |
| CascadeRecords.PassRecordsEach | office/syncservice/cascade.go:50-83 | a complete pass appends exactly one notice and one audit row, with the rules, the time and the state left, for each marked version not yet on record with its rules |
| OfficeCascadeLaws.SecondPassIsSilent | office/syncservice/cascade.go:26-85 | with distinct event times a second pass, in any order and at any time, writes nothing |
| OfficeCascadeLaws.CutShortPassHeals | office/syncservice/cascade.go:26-85 | a pass cut short at any statement is made good by the next complete one: same rows, every marked report on record |
| OfficeCascadeLaws.VerdictsUnique | office/syncservice/cascade.go:26-85 | stores that differ only in committed states get the same verdicts |
| ChainAgreement.ChainsAgreeIff | vessel/store/reports.go:184-200 | with an office that holds what was sent, vessel and office list the same versions for every schema exactly when the newest committed version of every report was sent |
| ChainAgreement.StepKeepsAgreementIff | vessel/store/inbox.go:216-235 | chains that agree still do after any event, local, sent or received, exactly when it is not a notice that finds a draft on top |
| ChainAgreement.AlwaysAgreeIff | vessel/httpapi/reports.go:836-882 | over any run the chains agree at every point exactly when every notice found its report's latest version committed |
| PushOutbox.ApplyOutboxItem | office/syncservice/pushoutbox.go:44-99 | handling one item is the receipt-guarded step: already received, refused, or landed and then receipted |
| PushOutbox.LandPayload | office/syncservice/pushoutbox.go:54-90 | a report version is upserted and its chain cascaded, an audit event appended, a chat message inserted, or the payload is refused |
| Landing.PushedVersionSettles | office/syncservice/pushoutbox.go:54-90 | a pushed version that meets no failure is accepted and in place, its chain revalidated with it: every version that breaks a rule is invalidated with its rules in the newest notice, and no other changed |
| Landing.PushedVersionSurvivesIff | office/syncservice/pushoutbox.go:54-90 | it stays as pushed exactly when its pre-check against the office's chain has no error |
| Landing.AcceptedIff | office/syncservice/pushoutbox.go:44-99 | an item is accepted exactly when it was before, or when nothing fails and it carries a version, an event, or a message of a new id |
| Landing.AcceptedIsStored | office/syncservice/pushoutbox.go:73-90 | an accepted event or message is stored once and nothing else changes |
| PushOutbox.PushOutboxBatch | office/syncservice/pushoutbox.go:27-39 | items are handled in order, one acknowledgement each, and a refused one does not stop the rest |
| Landing.GoodItemsAreAccepted | office/syncservice/pushoutbox.go:27-39 | an item that carries a version or an event and meets no failure is accepted whatever becomes of the rest of its batch |
| Landing.BatchSettles | office/syncservice/pushoutbox.go:27-99 | after a whole batch every version that revalidation of the final table marks, in the chain of the batch's last version, is invalidated and noticed |
| PushOutboxLaws.ItemReceipts | office/syncservice/pushoutbox.go:44-99 | an accepted item has its receipt on record, receipts are never lost, and an item with a receipt changes nothing |
| PushOutboxLaws.ReceivedItemsDropOut | office/syncservice/pushoutbox.go:27-99 | a batch has the very effect, and the others' acknowledgements, of the batch without the items received before |
| PushOutboxLaws.AcceptedItemsAreNeverReapplied | office/syncservice/pushoutbox.go:27-99 | any run of pushes, losses, resends of the whole queue, failures, remarks and passes goes through the same states as the run whose pushes leave out every item accepted before |
| PushOutboxLaws.RelandingRestoresRows | office/syncservice/pushoutbox.go:44-99 | landing a version, whatever then fails, and landing it again completely gives the rows of one complete landing |
| PushOutboxLaws.RelandingIsSilentIff | office/syncservice/pushoutbox.go:54-99 | a repeated landing adds no notice and no audit row exactly when the landing does not flip its own version to invalidated |
| PushOutboxLaws.RemarkSurvivesResendIff | office/syncservice/pushoutbox.go:44-99 | a remark survives the retransmission of its version exactly when the receipt is on record |
| PushOutboxLaws.AuditEventAppendedTwiceIff | office/syncservice/pushoutbox.go:44-99 | an audit event is appended a second time by its retransmission exactly when recording its receipt failed the first time |
| PushOutboxLaws.StuckChatStaysStuck | office/syncservice/pushoutbox.go:44-99 | a chat message stored without its receipt is refused by every later push |
| PushOutboxLaws.ChatSticksIff | office/syncservice/pushoutbox.go:44-99 | sending a new chat message leaves it stuck exactly when recording its receipt fails |
| Chunks.ChunkCountCoversIff | office/syncservice/attachments.go:176-182 | the wrapped 32-bit count n satisfies (n-1)*size < total <= n*size exactly when the size is positive and at most 2^31-1 chunks are needed |
| Chunks.AssembleChunkFile | office/syncservice/attachments.go:216-236 | the staged chunks 0..n-1 in order, or nothing if one is missing |
| Chunks.JoinedIff | office/syncservice/attachments.go:216-236 | assembly succeeds exactly when every index has a staged chunk |
| Chunks.ChunkRoundTrip | pkg/attachmentstore/attachmentstore.go:140-157 | the chunks of any content, staged under their indices, join to the content |
| Attachments.MissingIff | office/syncservice/attachments.go:155-172 | an index is missing exactly when it is in range and not recorded |
| Attachments.Server.MissingChunkIndices | office/syncservice/attachments.go:155-172 | the loop lists the missing indices in order |
| Attachments.Server.QueryMissingAttachmentChunks | office/syncservice/attachments.go:39-78 | refuses a malformed hash, reports a stored object, and otherwise registers the upload once and names the missing chunks; nothing changes under other hashes |
| Attachments.Server.UploadAttachmentChunk | office/syncservice/attachments.go:103-151 | stages and records the chunk and, when none is missing, assembles; every refusal leaves the state as it was, and each failing write, record or listing leaves it one step short |
| Attachments.Server.AssembleAndPromote | office/syncservice/attachments.go:190-210 | promotes matching content and drops the record; a mismatch drops chunks and record; an assembly failure drops the chunks alone; failures of the cleanup and of the deletion leave what they leave |
| Attachments.UploadAttachment | vessel/sync/attachments.go:58-76 | sends exactly the chunks reported missing, in order, stopping at the first that cannot be read, does not arrive, is refused or is not answered |
| AttachmentLaws.RunsAreLocal | office/syncservice/attachments.go:39-210 | in every interleaving what becomes of one hash depends on the calls about it alone |
| AttachmentLaws.RunsKeepObjects | pkg/attachmentstore/attachmentstore.go:46-120 | over every interleaving, whatever fails, each stored object's digest is its name and no stored object is altered or removed |
| AttachmentLaws.CompleteMeansStored | office/syncservice/attachments.go:39-210 | Complete is answered exactly when the object is stored, but for the call that stores it and fails to delete the record; a query answers complete exactly when it is stored |
| AttachmentLaws.CompletionLeavesOnlyTheObject | office/syncservice/attachments.go:184-210 | the call that completes an upload leaves no record and no staged chunk but what the cleanup failed to remove |
| AttachmentLaws.FailedChunkCanBeResent | office/syncservice/attachments.go:128-137 | a chunk that could not be written or recorded is not on record, a torn write lies over any earlier copy, and sending it again has the effect it would have had at first |
| AttachmentLaws.QueryKeepsRegistration | office/syncservice/attachments.go:33-73 | a query registers what it declares only once, and never changes a registered upload |
| AttachmentLaws.RunsKeepSound | office/syncservice/attachments.go:103-210 | without assembly or deletion failures, whatever else fails, every recorded index has a staged chunk and no upload is stuck |
| AttachmentLaws.MismatchStartsOver | office/syncservice/attachments.go:198-203 | after content that does not match its hash, nothing is kept and the next query asks for every chunk |
| AttachmentLaws.UploadShrinksMissing | office/syncservice/attachments.go:103-172 | a missing index sent leaves exactly one fewer missing; a duplicate or out-of-range one leaves as many |
| AttachmentLaws.StuckForever | office/syncservice/attachments.go:184-210 | with every index recorded and two chunk files gone, no queries and steadily handled chunks ever store the object |
| AttachmentLaws.CompletableIff | office/syncservice/attachments.go:103-210 | whatever failed before, some calls without failures store an unfinished upload's content exactly when it is not stuck |
| AttachmentLaws.FailedAssemblyRecoversIff | office/syncservice/attachments.go:184-210 | for every combination of failures in the last chunk's assembly, promotion, cleanup and deletion, the upload can still complete unless its record is kept and the cleanup removed two chunks or more |
| AttachmentLaws.SuccessIsTrueIff | vessel/sync/attachments.go:58-76 | whatever fails on the way, a success the vessel reports is true exactly when the object was stored already or some chunk was missing |
| AttachmentLaws.StuckClientUpload | vessel/sync/attachments.go:58-76 | over a registered, unstored upload the vessel reports success and nothing changes exactly when no index is missing |
| AttachmentLaws.UploadStoresIffNotEmpty | vessel/sync/attachments.go:58-76 | after any queries and honest chunks, with failures to write, record, promote or clean up among them, the vessel's smooth upload succeeds, and the content is stored exactly when it is not empty or was stored already |
| Streams.ListSince | office/store/invalidation.go:77-106 | exactly the vessel's rows past the cursor, in order |
| Streams.PullStream | office/syncservice/pullinbox.go:165-218 | those rows' items, and a cursor past all of them |
| Streams.PullAdvances | office/syncservice/pullinbox.go:165-218 | the cursor never falls, and a delivered pull moves it past exactly the rows delivered |
| Streams.StaysUpToDateIff | vessel/store/inbox.go:127-202 | a vessel that has each row up to its cursor once and in order stays so exactly when no cursor is saved past items not kept |
| Streams.ExactlyOnceInOrder | office/syncservice/pullinbox.go:165-218 | over any interleaving of appends, pulls and lost answers each vessel receives each row up to its cursor exactly once and in order |
| Streams.PullCatchesUp | office/syncservice/pullinbox.go:165-218 | after a delivered pull nothing is pending |
| Streams.AppendedIsReceived | office/syncservice/pullinbox.go:165-218 | an appended item is the last its vessel has after its next kept pull, and no other vessel gets it |
| Streams.PartlyKeptIsBehind | vessel/store/inbox.go:162-198 | saving the cursor while storing only some items leaves the vessel behind |
| Streams.MissedIsMissedForever | vessel/store/inbox.go:162-198 | and no later pulls ever deliver what was passed over |
| UserCommands.UserCommandTable.QueueUserCommand | office/store/usercommands.go:33-42 | the row is appended past every number given, unless its id is taken |
| UserCommands.UserCommandTable.MarkUserCommandFetched | office/store/usercommands.go:123-129 | only the row's stamp changes, not its password |
| UserCommands.UserCommandTable.MarkUserCommandsApplied | office/store/usercommands.go:139-150 | the vessel's named rows are stamped and lose their password, others stay |
| UserCommands.UserCommandTable.PullUserCommands | office/syncservice/pullinbox.go:103-134 | all pending commands or none; rows before a failing one stay stamped |
| UserCommands.DeliverableMeaning | office/syncservice/pullinbox.go:110-132 | delivery stops at the first row with an unknown action or a failing stamp |
| UserCommandLaws.DeliveredIff | office/syncservice/pullinbox.go:103-134 | a pull is answered exactly when no pending command has an unknown action or a failing stamp |
| UserCommandLaws.PoisonBlocksForever | office/syncservice/pullinbox.go:111-114 | once a command with an unknown action is pending, no events ever deliver the vessel anything more |
| UserCommandLaws.BlockedIff | office/syncservice/pullinbox.go:103-134 | over any run a vessel's stream is blocked exactly when a command with an unknown action was queued to it |
| UserCommandLaws.HandlersNeverBlock | office/httpapi/vesselusers.go:146-300 | as the five handlers queue only known actions, no run of theirs blocks a stream, and a pull whose stamps succeed is always answered |
| UserCommandLaws.PasswordsSurvive | office/store/usercommands.go:50-58 | if the vessel saves its cursor before it confirms, every command past the cursor is stored as queued, password included |
| UserCommandLaws.ConfirmedUnsavedIntactIff | vessel/httpapi/sync.go:250-264 | after a confirmed answer whose cursor was not saved, the pending commands are intact exactly when no confirmed one carries a password |
| UserCommandLaws.CommandsArriveOnceInOrder | office/syncservice/pullinbox.go:103-134 | over any interleaving, a vessel that saves each arriving cursor receives each command once, in order and as queued |
| Scopes.ResolveMeaning | office/compliance/rulesev.go:109-146 | the resolved content is the vessel's own, else one of the strictest covering groups', else the fleet's, said without any order |
| Scopes.OrderFreeIff | office/compliance/rulesev.go:109-164 | what a vessel gets is free of the assignments' order exactly when its own assignment decides or the strictest covering groups agree |
| Compliance.EffectiveSeverities | office/compliance/rulesev.go:109-146 | for each overridable rule, and no other, the severity the resolution gives, or none |
| Compliance.StrictestGroupSeverity | office/compliance/rulesev.go:150-164 | the strictest severity any covering group sets for the rule |
| Compliance.SeverityMeaning | office/compliance/rulesev.go:109-146 | the resolution's order-free meaning; a severity results exactly when some assignment that applies sets one |
| ComplianceMeaning.SeverityFromAssignments | office/compliance/rulesev.go:109-164 | the vessel's own severity; else error if any covering group sets it, else warning, else info; else the fleet's; else none |
| Compliance.SeveritiesOrderFree | office/compliance/rulesev.go:109-164 | with one assignment per scope the severity does not depend on their order |
| Compliance.RaisingIsMonotone | office/compliance/rulesev.go:109-177 | raising assigned severities never lowers what a vessel gets |
| Compliance.RaisingOnlyInvalidatesMore | office/syncservice/cascade.go:116-124 | and only adds to what cascade revalidation of any chain invalidates |
| Compliance.EffectiveCadence | office/compliance/cadence.go:63-97 | the thresholds the resolution gives, or the defaults of 24 and 12 hours |
| Compliance.CadenceMeaning | office/compliance/cadence.go:63-106 | vessel, else a strictest covering group, else fleet, else defaults; no covering group's gap is undercut |
| ComplianceMeaning.CadenceFromRules | office/compliance/cadence.go:63-106 | the vessel's own thresholds; else those of a covering group with the smallest gap and then the smallest interval; else the fleet's; else 24 and 12 hours |
| Compliance.CadenceOrderFree | office/compliance/cadence.go:63-106 | with one rule per scope the thresholds do not depend on their order |
| Compliance.EffectiveProfiles | office/compliance/profiles.go:71-88 | a profile is on exactly when some covering assignment lists it |
| Compliance.RuleSeverityAssignment.SetSeverity | office/compliance/rulesev.go:78-93 | hard rules, unknown rules and unknown severities are refused; otherwise the rule's severity is set and nothing else changes |
| FieldPolicy.EffectiveFieldPolicy | office/fieldpolicy/policy.go:222-290 | every field has exactly the winning rule and the winning prefill class, and no field any other |
| FieldPolicy.StrictestGroupRule | office/fieldpolicy/policy.go:377-393 | the first of the groups of greatest rank; a rule without a state loses to every state |
| PolicyStrength.StrongestGroupDecides | office/fieldpolicy/policy.go:308-393 | where groups decide, the resolved state demands at least as much as every covering group's, and on any report keeps every error the field gives under it |
| PolicyStrength.NarrowingLosesToStates | office/fieldpolicy/policy.go:370-393 | a group that only narrows events decides only when no covering group sets a state |
| PolicyStrength.OwnThenFleet | office/fieldpolicy/policy.go:347-358 | the vessel's own rule is taken as it stands, and the fleet's where neither the vessel nor a covering group has one |
| FieldPolicy.WinningRule | office/fieldpolicy/policy.go:347-358 | the vessel's rule, else the strictest group's, else the fleet's, as a whole |
| FieldPolicy.FirstGroupPrefill | office/fieldpolicy/policy.go:401-408 | the first covering group's class |
| FieldPolicy.SchemaFieldPolicy.SetPolicy | office/fieldpolicy/policy.go:123-134 | schema-mandatory fields and states are refused, known states set, nothing else changes |
| FieldPolicy.SchemaFieldPolicy.SetEvents | office/fieldpolicy/policy.go:148-164 | the first wildcard or unknown event decides; otherwise the list is set, or the entry removed if empty |
| PolicyStrength.SetEventsMeaning | office/fieldpolicy/policy.go:148-164 | a refused list changes nothing; any other puts the field on exactly the reports of the listed events, or on all for the wildcard or the empty list |
| FieldPolicy.SchemaFieldPolicy.SetPrefillClass | office/fieldpolicy/policy.go:175-185 | the class is set, the entry removed for none, unknown classes refused |
| FieldPolicyLaws.RuleIsFromOneAssignment | office/fieldpolicy/policy.go:222-393 | a field's state and events come together from one deciding assignment, and there is a rule exactly when some assignment that applies has one |
| FieldPolicyLaws.StatesOrderFree | office/fieldpolicy/policy.go:222-393 | with one assignment per scope and known states the policy map does not depend on the assignments' order |
| FieldPolicyLaws.RuleOrderFreeIff | office/fieldpolicy/policy.go:347-393 | the whole rule is free of the order exactly when the vessel's own decides or the groups of greatest rank have the same rule |
| FieldPolicyLaws.PrefillOrderFreeIff | office/fieldpolicy/policy.go:401-408 | the prefill class is free of the order exactly when the vessel's own decides or all covering groups that set it agree |
| FieldPolicyLaws.EventListsDependOnOrder | office/fieldpolicy/policy.go:377-393 | of any two covering groups whose rules for a field rank the same the first listed supplies the rule, so reversing them changes the event list exactly when theirs differ |
| FieldRules.CheckFieldFormat | pkg/validation/fieldrules.go:80-148 | nothing for a value of the field's type, and exactly one error, on the field and naming the broken rule, for any other |
| FieldRules.FormatMeaning | pkg/validation/fieldrules.go:80-148 | the type check, the length check and the format check together decide membership of the field's type |
| FieldRules.EvaluateFieldRules | pkg/validation/fieldrules.go:45-78 | the findings of every field, in schema order; what each field gives is FieldMeaning |
| FieldRules.FieldMeaning | pkg/validation/policy.go:35-119 | from the policy map and the event lists: a field hidden or narrowed away gives nothing unless the schema demands it, a blank one an error if demanded and a warning if advised, any other exactly one error when its value is not of its type |
| FieldRules.FindingsInOrder | pkg/validation/fieldrules.go:45-78 | the findings come in the order of the fields, each field's independent of the others |
| FieldRules.BlockedIff | pkg/validation/fieldrules.go:45-78 | there is an error exactly when a field is blank that the schema, or the policy on this event, makes mandatory, or a visible one is malformed; and a warning exactly when an advised one is blank |
| FieldRules.StricterPolicyKeepsErrors | pkg/validation/fieldrules.go:45-78 | a policy pointwise at least as demanding, event lists included, keeps every error as many times |
| FieldRules.SchemaMandatoryUnaffected | pkg/validation/policy.go:109-119 | for any fields, no policy and no event list has any effect on the findings on the schema-mandatory ones |
| ConfigBundle.CloneFieldPolicies | office/configbundle/bundle.go:207-219 | equal policies in fresh state and prefill maps, sharing the event-list maps |
| ConfigBundle.Compose | office/configbundle/bundle.go:87-103 | the bundle holds what the live objects hold, in cells of its own except the event lists |
| ConfigBundle.Publish | office/configbundle/bundle.go:109-138 | needs a publisher; holds what the composed bundle holds, again in cells of its own |
| ConfigBundle.ResolveFor | office/configbundle/bundle.go:157-205 | the document has the bundle's id, number, time and default roles, and the resolved policy per schema, the profile union, the cadence gap and the severities of what the bundle holds |
| BundleDocument.DocumentMeaning | office/configbundle/bundle.go:157-205 | the document names its bundle, has one configuration per schema in order, turns on exactly the profiles some covering assignment lists, and has the resolved gap |
| BundleDocument.SameSeveritiesAboard | vessel/httpapi/configbundle.go:86-99 | the configuration a vessel revalidates with is the one the office resolves from the same assignments |
| BundleDocument.SamePolicyAboard | office/configbundle/bundle.go:157-205 | the field check finds the same under the document's configuration as under the policy the office resolves |
| BundleDocument.OnlyItsSchemaCounts | office/fieldpolicy/policy.go:222-228 | exactly the assignments for the schema and its version are considered |
| ConfigBundle.WireIsDetermined | office/configbundle/bundle.go:157-205 | two documents resolved from the same content for the same vessel are equal |
| ConfigBundle.PublishedStaysFrozen | office/configbundle/bundle.go:78-138 | after composing and publishing, any edits of live or composed objects leave the resolved document the same for every vessel |
| ConfigBundle.EditEventsAfterPublish | office/configbundle/bundle.go:207-219 | an in-place event edit shows in the published bundle, which goes on holding what it held exactly when the list is refused or asks for what is there already |
| BundleEdits.EventEditReachesVessels | office/configbundle/bundle.go:157-219 | the document resolved from a published bundle, for a vessel the edited assignment is meant for, stays the same after a later event edit exactly when the entry is unchanged or hidden by the fleet's rule |
| BundleEdits.WireStaysIff | office/configbundle/bundle.go:157-205 | two documents resolved around a change of one field's event list are equal exactly then |
| BundleEdits.EditUnseenIff | office/fieldpolicy/policy.go:148-164 | where the assignment has a state for the field, or nothing stands in for it, an edit is unseen exactly when it is refused or asks for what is there already |
| AssignedBundle.ResolveAssignment | office/configbundle/assignment.go:62-79 | the first assignment to the vessel, else the first to one of its groups, else the first to the fleet |
| BundleDelivery.AssignedMeaning | office/configbundle/assignment.go:62-79 | by position: the first assignment to the vessel; without one the first to any of its groups; without one the first to the fleet; or none |
| BundleDelivery.AssigningOneScope | office/configbundle/assignment.go:49-79 | assigning changes what one scope has and nothing else |
| AssignedBundle.AssignmentDeterminedIff | office/configbundle/assignment.go:49-79 | with one assignment per scope, a vessel is assigned the same bundle however they are listed exactly when it has one of its own or all its groups' agree |
| AssignedBundle.PullAssignedBundle | office/syncservice/pullinbox.go:253-290 | delivers the assigned bundle exactly when its number is past the cursor; an unknown bundle is an error |
| AssignedBundle.RunsNameTheBundleInForce | vessel/store/inbox.go:95-109 | over every run of publishing, assigning and syncing, the bundle in force is the one the vessel's cursor names |
| AssignedBundle.AssignedInForceIff | office/syncservice/pullinbox.go:253-290 | after a sync that arrives the assigned bundle is in force exactly when it is not older than the one before |
| BundleDelivery.DeliveredIff | office/syncservice/pullinbox.go:253-290 | the assigned bundle is delivered exactly when it exists and its number is past the cursor; one that does not exist is an error |
| BundleDelivery.SyncedIsQuiet | office/syncservice/pullinbox.go:270-272 | once a sync has arrived, the same assignments deliver nothing more |
| BundleDelivery.PublishedReachesVessel | office/syncservice/pullinbox.go:253-290 | a bundle just published and assigned to a vessel is in force there after the next sync that arrives |
| AssignedBundle.OlderBundlesNeverReturn | office/syncservice/pullinbox.go:270-272 | a bundle older than one the vessel has run never comes into force again, however it is assigned |

## Left out

- HTTP, GraphQL and web handlers, sessions, SQL text, migrations, JSON, protobuf and compression: plumbing; the stores are tables in memory.
- Cryptography and identifiers: the digest is an arbitrary function and fresh ids are inputs; a chunk declares no digest of its own.
- Message texts of findings, event payload details beyond those modelled, labels and update stamps of configuration.
- Floating-point rounding, NaN and the saturation of `time.Duration`: hours and tonnes are reals.
- Text length is counted in characters, so a maximum length in bytes over non-ASCII text is not captured; composite JSON field values are not modelled.
- Profiles outside the known ones: the datatype holds the known values only.
- The report-attachment rows written beside an upload query (`office/store/attachments.go:37-47`), and two chunks of one upload handled at once; a query whose own statements fail is one whose request or answer is lost.
- Plausibility and regulatory rules, readiness, the curated log-abstract series (`pkg/validation/config.go:210-233`) and role sets: single-function claims.
- Scope validation and trimming (`office/compliance/scope.go:39-72`): scopes are well-formed by their type; `Publish` gets the trimmed publisher name.
- SaveSection: a nil field map, on which the program panics, is not a state of the model.
- Cascade.Revalidate: the order of ties is left open rather than that of one sorting algorithm.
- Streams.PullStream: the restore-command and schema-version streams, whose cursor is saved under other conditions, are not instantiated; row numbers are assigned atomically with their rows.
- UserCommands.UserCommandTable.PullUserCommands: one clock reading stands for the readings made row by row.
- ConfigBundle.Compose: a cadence rule and a profile list are single cells; role names and schema references are values.
- Compliance.EffectiveSeverities: assignments are read as values taken at the call.

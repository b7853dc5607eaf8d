# Verified models of the DataOps core

Dafny models of the parts of DataOps that keep state over many runs, and proofs about them. `dafny verify
dfyconfig.toml` checks everything. Paths below are relative to the root of the DataOps repository.

## What is modelled

**The bookkeeping audit store** (`Base64`, `AuditChunks`, `AuditReader`, `AuditPlan`, `AuditEviction`,
`AuditAppend`, `AuditStore`, `AuditWriters`, `AuditIntegrity`, `AuditCodec`, `AuditWitnesses`). A transaction keeps its
last hundred audit events in sidecar rows. The first write migrates the inline list into base64 chunks; each write puts
one event row and evicts the oldest event, which may be inside the chunks. The table is a map, the reader and the
planner are loops proved against functions, the transaction row and its rows are a class, and concurrent writers are a
state machine over the compare-and-set of `updateBookkeepingTransaction`.

**Banner jobs** (`BannerJobs`, `BannerProtocol`, `BannerSafety`, `BannerRuns`, `BannerEnding`, `BannerLifetimes`,
`BannerCounterexamples`, `BannerService`). The stored job is a class with its conditional writes. Requesters, workers,
the queue, the Card, the clock, crashes and redelivery are the steps of a state machine, and the main theorems are about
whole runs. The request and the rendering are also written out as methods for the case that nobody interferes, and
shown to be runs.

**Invoice allocations** (`Text`, `Doubles`, `Decimal`, `Cents`, `Allocations`, `AllocationValidation`,
`AllocationMoney`, `AllocationReader`, `AllocationResave`, `AllocationWitnesses`). Parsing and printing of cents with the
double arithmetic written out (53 significant bits, ties to even), the validation loop with its sets and running sums,
the reader, and what saving a stored split again does.

**Evidence matching** (`AutoMatch`, `AutoMatchProperties`, `Backfill`, `BackfillProperties`, `BackfillProjection`).
Grouping and closest-pair selection in loops, then the logged application of a plan to a class of stored links, dying
at any point, its rollback, and the projected counts.

**Podcast import** (`PodcastClaims`, `PodcastPlan`, `PodcastPlanAgain`, `PodcastReimport`). Twin removal and claims
over register rows; planning of creates and updates; the register API as the importer sees it; importing twice.

**Smaller parts**: the archive manifest, its fingerprint and the inspection of archives against it (`Manifests`,
`Fingerprints`, `Archives`, `ArchiveInspection`), calendar dates and relative date words (`Calendar`, `DateWords`),
civil time to UTC (`CivilTime`), the lineage of date formulas (`Lineage`) and the CSV reader (`Csv`). `Sequences` and
`Wrappers` are shared.

A loop of the program is a method whose contract equates its result with a function or states it outright; the
properties are lemmas about those functions. Where the program throws, the model returns a refusal.

## Findings

Places where the program does not meet its description. Each names a lemma with an input or run that shows it, and the
theorem that says exactly when it happens, or how far the program is right.

- A rendering banner job can be stranded for good in two ways: the queue hands out a message that a worker still holds
  (`BannerCounterexamples.OverlapStrandsAJob`), or three crashes use up the deliveries of its message, which then goes to
  the dead-letter queue (`BannerCounterexamples.ThreeCrashesStrandAJob`); new requests find a job that is being rendered
  and send nothing. In any state of any run a job that is not over can still end exactly unless it is stranded, which a
  state shows (`BannerEnding.StillEndsExactly`). While deliveries do not overlap, requesters live and no message is given
  up, no job is stranded (`BannerRuns.NeverStranded`), and while a delivery is left it can end (`BannerRuns.NoDeadEnd`).
  The queue's visibility timeout of 720 seconds against a function timeout of 120 seconds keeps deliveries apart, so of
  the two it is the limit of three receives (`infra/template.full.yaml` lines 1092-1094) that matters. A requester that
  dies before it sends leaves a queued job unserved until the banner is asked for again
  (`BannerCounterexamples.AbandonLeavesAJobUnserved`, `BannerCounterexamples.UnservedUntilRequested`).
- Leases are only fencing tokens if a worker reads the clock at the moment of its conditional write; a clock read well
  before it lets a worker that was taken over finish its successor's job
  (`BannerCounterexamples.EarlyClockLetsTakenOverFinish`). A finish changes the job exactly when the job is rendering
  under the worker's own lease (`BannerEnding.FinishesExactly`), which for a worker that was taken over never happens
  with atomic claims (`BannerRuns.TakenOverNeverFinishes`). In that run a worker outlives its lease; while none outlives
  the function timeout, which is shorter, none is taken over at all (`BannerLifetimes.NobodyIsTakenOver`).
- The optional amount parser has no safe-integer check and silently changes 90071992547409.93 by one cent; the strict
  parser refuses it (`Cents.OptionalParserLosesACent`). Below 2^55 cents it is right exactly when the cents are a multiple
  of the distance between doubles there, and at any size at most then (`Cents.OptionalAcceptsExactly`); from 2^55 on it may
  change such an amount too (`Cents.LargerDoubleIsChanged`).
- The product behind a derived EUR share is rounded above 2^53. A payment of 1000000.01 dollars worth 900719.93 EUR is
  refused as inexact even when one invoice takes all of it (`AllocationWitnesses.ExactShareIsRefused`); a payment of
  2000000.00 dollars worth 1800000.11 EUR is accepted with two shares that do not divide
  (`AllocationWitnesses.InexactSharesAreAccepted`). While the share is a safe number, the outcome is right exactly when the
  product is a double or neither it nor its rounding divides (`AllocationMoney.ShareIsExact`). For a payment worth a safe
  number of EUR cents an accepted share is less than a cent off (`AllocationMoney.ShareIsNear`), and the total is right
  nevertheless (`AllocationMoney.DerivedSharesTotal`). Beyond that, a split into exact shares of the right total can be
  refused (`AllocationWitnesses.ExactTotalIsRefused`) and one a cent too large accepted
  (`AllocationWitnesses.CentTooMuchIsAccepted`); an accepted total is right exactly when the rounded additions are
  (`AllocationMoney.AcceptedTotalsInEur`).
- Saving a stored split again is not always accepted or harmless: a payment worth 0.00 EUR, a blank VAT currency, an empty
  invoice number beside a document that has one, and a VAT amount that drifts each stand in the way
  (`AllocationWitnesses.WorthlessIsNotSavedAgain`, `AllocationWitnesses.BlankCurrencyIsNotSavedAgain`,
  `AllocationWitnesses.UnnumberedIsNotSavedAgain`, `AllocationWitnesses.DriftingVatIsNotSavedAgain`).
  `AllocationResave.SavingAgain` says exactly when, for amounts of any size; below 2^55 cents every stored amount reads
  back as itself (`AllocationResave.LastsBelow`).
- A large amount can be stored a whole unit of currency too high, because the quotient by a hundred that is printed is
  itself a rounded double: a VAT amount of 564547864874734.96, which is read exactly, is stored as 564547864874735.96 and
  read from there as 564547864874736.00 (`Cents.LargePrintIsOneTooMuch`, `AllocationWitnesses.VatIsStoredOneTooMuch`).
  Below 100 * 2^49 cents every double is printed exactly (`Cents.PrintsExactly`); below 100 * 2^53 any amount is exactly
  unless its quotient rounds up to the next whole number (`Cents.PrintsRightExactly`). At any size different doubles
  still print differently (`Cents.PrintedDiffers`).
- Importing podcast episodes twice never settles while a website episode has a null number or an intro, transcript,
  clips or resources: the register stores no null and its list leaves that content out
  (`PodcastReimport.NullsAndIntrosNeverSettle`). `PodcastReimport.ImportingAgain` says exactly when it settles.
- The sidecar's own conditions do not stop every stale audit plan: one that evicts nothing goes through again after more
  than a hundred other appends (`AuditWitnesses.StalePlanGoesThrough`), and exactly then (`AuditIntegrity.StalePlanExact`).
  The condition on the transaction row stops it (`AuditWriters.LosersNeverCommit`).
- A rollback of a backfill stops at a link whose document is claimed for an allocation of the same transaction
  (`BackfillProperties.ClaimedLinkIsNotRolledBack`), and exactly there (`BackfillProperties.RollbackRestores`).
- A rollback reads a link and deletes it in two requests, and the deletion's conditions do not ask whether the link is
  still the one that was read. A link that another writer deletes and creates again in between is deleted
  (`BackfillProperties.RecreatedLinkIsDeleted`). With other writers active all the time, a link that is not the one created
  is deleted exactly when it took that one's place between the two and the deletion's conditions allow it
  (`BackfillProperties.ChangedIsDeletedExactly`), so never while nobody replaces a link just then
  (`BackfillProperties.ChangedIsNeverDeleted`).
- A relative date word can resolve to a text that is no calendar date. Three million days from an ordinary today lead past
  the year 9999, where the printed date loses its day, and two hundred million to a thrown error
  (`DateWords.ManyDaysLeaveTheRange`). At the lower end, `yesterday` leads to the year 99, which the comment at
  `backend/src/relativeDates.ts` lines 42-43 rules out, but only when a today of the year 100 is passed in
  (`DateWords.RelativeWordLeavesTheRange`). `DateWords.TaskDateExactly` says exactly when.
- The CSV reader drops a last record that is a single empty field without a line break
  (`Csv.EmptyLastRecordIsDropped`), and reads every other back (`Csv.ReadsBackUnterminated`).

## Assumptions

- Audit events are opaque JSON texts; the JSON codec is any that inverts, is never empty and does not grow when the
  first entry is dropped (`AuditCodec.SomeCodecIsLawful` gives one). Serialized histories are shorter than 2^53.
- Conditional and transactional writes of the tables are single atomic steps on maps.
- The theorems that no banner job is stranded ask that requesters do not die, that no message is delivered while a
  worker holds it and that the queue gives up none. Nobody else deletes a banner's artifact, and a Card's version grows
  with every other edit.
- Upper case, lower case, vendor names, guest-name keys, calendar days, path normalization and hashes are functions
  given to the model; link keys stand for injective hashes of their parts; ids are totally ordered.
- Zones are functions from instants to offsets. Offsets of a real zone are below a day; its changes are taken to be more
  than two days apart when `CivilTime.EveryCivilTime` is read for it.

## Model

| member | source | states |
|---|---|---|
| AuditChunks.EventKeyInjective | backend/src/bookkeepingAudit.ts:68-70 | event rows of different sequence numbers never share a key, however wide the number |
| AuditChunks.ChunkKeyInjective | backend/src/bookkeepingAudit.ts:72-74 | legacy chunks of different index never share a key |
| AuditChunks.KeyKindsDiffer | backend/src/bookkeepingAudit.ts:68-74 | no event row ever has the key of a chunk |
| Base64.DecodeEncode | backend/src/bookkeepingAudit.ts:87 | base64 (section 4 of RFC 4648) decodes what it encodes, and the encoded text is valid |
| Base64.EncodeLength | backend/src/bookkeepingAudit.ts:87-88 | the encoded length is four characters per three bytes, rounded up, so it grows with the payload |
| AuditChunks.DecodeLegacyAuditChunks | backend/src/bookkeepingAudit.ts:118-172 | the decoding loop with its `parts` array computes the specified decoding, every refusal included |
| AuditChunks.DecodeEncodeChunks | backend/src/bookkeepingAudit.ts:82-172 | decoding gives back the encoded entries whatever order the chunk rows come in |
| AuditChunks.EncodeFitsWithRoom | backend/src/bookkeepingAudit.ts:93-114 | when the key metadata fits 2048 bytes every payload can be encoded, each chunk within 350 KiB |
| AuditChunks.EncodeRest | backend/src/bookkeepingAudit.ts:82-116 | a history once encoded can be encoded again without its oldest entry, in no more chunks |
| AuditReader.SequenceBookkeepingAuditRows | backend/src/bookkeepingAudit.ts:191-246 | the reading loops, sort and window checks compute the specified reading or its refusal |
| AuditReader.SortsIntoRun | backend/src/bookkeepingAudit.ts:233-241 | sorting any arrangement of a consecutive run of numbered events gives the run in order |
| AuditReader.ReadCanonical | backend/src/bookkeepingAudit.ts:191-246 | any listing of the rows that represent a log is read as the log's last hundred events, with their numbers and where each is stored |
| AuditPlan.PlanBookkeepingAuditWrite | backend/src/bookkeepingAudit.ts:248-377 | the planner's loops push exactly the specified conditional writes, in order |
| AuditPlan.CommitEffects | backend/src/db/bookkeeping.ts:199-251 | a commit of writes with distinct keys leaves each row as its write says and every other row alone |
| AuditPlan.CommitReaches | backend/src/db/bookkeeping.ts:199-251 | when a commit turns the table of some rows into the table of others |
| AuditEviction.HistoryOf | backend/src/bookkeepingAudit.ts:174-189 | an unmigrated transaction's inline list reads as its whole log numbered from one |
| AuditEviction.DiffItems | backend/src/bookkeepingAudit.ts:314-345 | the chunk diff is one update per chunk that stays and one delete per chunk that goes, nothing else, each key once |
| AuditEviction.AppendOnly | backend/src/bookkeepingAudit.ts:346-377 | below a hundred events an append is one put and its commit represents the longer log |
| AuditEviction.EvictEvent | backend/src/bookkeepingAudit.ts:302-312 | when only event rows are kept, the commit replaces the oldest row by the newest |
| AuditEviction.EvictLegacy | backend/src/bookkeepingAudit.ts:314-345 | when legacy entries are kept, the commit leaves exactly the canonical encoding of the remaining entries and the new row |
| AuditAppend.MigrationCommit | backend/src/bookkeepingAudit.ts:280-301 | the first append's commit turns the empty sidecar into the canonical rows of the retained history and the new event |
| AuditAppend.AppendExtendsLog | backend/src/bookkeepingAudit.ts:248-377 | a plan from a faithful snapshot is refused in exactly three named cases; otherwise all its conditions hold there, no key is touched twice, and its commit extends the represented log by the new event |
| AuditAppend.ReadShowsWindow | backend/src/bookkeepingAudit.ts:191-246 | whatever is stored, any listing reads as the last hundred events with their own numbers |
| AuditStore.AuditTable.ListAuditRows | backend/src/db/bookkeeping.ts:386-394 | a query lists every row of the partition once |
| AuditStore.AuditTable.Transact | backend/src/db/bookkeeping.ts:175-251 | a transactional write is refused for a key touched twice or a failing condition and then changes nothing; else it applies every write |
| AuditStore.AuditTable.UpdateBookkeepingTransaction | backend/src/db/bookkeeping.ts:702-818 | an undisturbed audited update appends exactly its event, or is refused and changes nothing |
| AuditWriters.RunKeeps | backend/src/db/bookkeeping.ts:702-818 | in every interleaving of writers the stored state represents the initial history followed by the committed events |
| AuditWriters.RunRefinesLog | backend/src/bookkeepingAudit.ts:191-377 | after any run from any valid inline history the reader returns exactly the last hundred events of old history plus commits, correctly numbered: the sidecar refines a bounded log |
| AuditWriters.CommitsExactly | backend/src/db/bookkeeping.ts:702-818 | in every run a plan goes through exactly while the transaction row has the timestamp and audit its writer read, so the first of several writers to try wins |
| AuditWriters.LosersNeverCommit | backend/src/db/bookkeeping.ts:702-818 | among writers sharing a snapshot at most one commits; the others' plans never go through, however late they are tried |
| AuditIntegrity.LostRowIsDetected | backend/src/bookkeepingAudit.ts:206-245 | deleting any one sidecar row of a migrated transaction makes every reading fail |
| AuditIntegrity.PlansAreShaped | backend/src/bookkeepingAudit.ts:314-377 | after migration no plan puts a chunk row (the Put at 328-333 is unreachable); it has its eviction and ends with the put of the new row |
| AuditIntegrity.NumberStillTaken | backend/src/bookkeepingAudit.ts:371-375 | one to a hundred appends after a plan was made, its own event key is still taken |
| AuditIntegrity.StalePlanExact | backend/src/bookkeepingAudit.ts:302-377 | exactly when the sidecar conditions alone let a stale plan through |
| AuditWitnesses.AppendTimes | backend/src/bookkeepingAudit.ts:248-377 | undisturbed, any number of appends goes through and extends the represented log |
| AuditWitnesses.StalePlanGoesThrough | backend/src/bookkeepingAudit.ts:371-375 | a plan of a transaction with one event meets its sidecar conditions again after a hundred and one appends |
| AuditCodec.SomeCodecIsLawful | backend/src/bookkeepingAudit.ts:87 | the laws asked of the JSON codec can be met |
| BannerJobs.JobRecord.PutBannerJob | backend/src/banners/jobs.ts:11-14 | inserts when absent, else leaves and reports the stored job |
| BannerJobs.JobRecord.TransitionBannerJob | backend/src/banners/jobs.ts:15-25 | changes the job exactly when its state, and for a rendering job its lease, are the ones seen, and tells |
| BannerService.RequestBanner | backend/src/banners/service.ts:64-73 | the job after an undisturbed request and whether a message was sent, for every stored state |
| BannerService.RenderBannerJob | backend/src/banners/service.ts:80-152 | job, Card and artifact after an undisturbed rendering: ended jobs untouched, an active lease throws, else claimed and finished one way or the other |
| BannerService.RequestIsARun | backend/src/banners/service.ts:64-73 | the undisturbed request is a run of the protocol's steps |
| BannerService.RenderingIsARun | backend/src/banners/service.ts:80-152 | so is the undisturbed rendering, ending with its message deleted |
| BannerSafety.MessagesKept | backend/src/handler.ts:482-490 | every step keeps: only messages handed out twice at once have two holders, and a holder's message is undeleted unless it is one of those or was given up |
| BannerSafety.QueuedServiceKept | backend/src/banners/service.ts:64-73 | every step keeps: unless a requester died or a message was given up, a queued job has a message nobody is about to delete, or a requester about to send one or mark the job failed |
| BannerSafety.RenderingServiceKept | backend/src/banners/service.ts:80-87 | every step keeps: a rendering job was claimed under a message that is still undeleted, unless that was handed out twice at once or given up |
| BannerSafety.RecordKept | backend/src/banners/service.ts:134-150 | every step keeps: artifact before Card before success, and the artifact id exactly in succeeded |
| BannerSafety.SucceededIsAbsorbing | backend/src/banners/jobs.ts:15-25 | no step of anyone changes a succeeded job |
| BannerSafety.AttachLeavesOneReference | backend/src/banners/service.ts:146 | attaching leaves exactly one reference to the artifact, keeps the others in order, and is idempotent |
| BannerSafety.AttachLosesNoEdit | backend/src/db/cards.ts:366-386 | a Card write that goes through starts from the stored Card |
| BannerSafety.TakeoverRaisesLease | backend/src/banners/service.ts:84-86 | taking over an expired lease strictly raises it |
| BannerSafety.SupersededCannotFinish | backend/src/banners/jobs.ts:19-22 | a worker whose lease is behind the stored one cannot finish the job |
| BannerSafety.LeasesKept | backend/src/banners/service.ts:82-87 | with atomic claims every step keeps: each lease holder is the latest claimer, superseded, or the job has succeeded |
| BannerRuns.RunKeepsInvariant | backend/src/banners/service.ts:64-152 | all these invariants hold in every state of every run |
| BannerRuns.NeverStranded | backend/src/banners/service.ts:64-87 | in every run without overlapping deliveries, requester deaths and messages given up no queued or rendering job is ever stranded |
| BannerRuns.NoDeadEnd | backend/src/banners/service.ts:64-152 | from each of its states in which some message, if any is left, can be delivered once more, some continuation, allowing a crash of the message's holder, ends the job; it ends well if the Card exists, unless the requester left to act failed to send |
| BannerRuns.SuccessIsFinal | backend/src/banners/jobs.ts:15-25 | once succeeded, the job is the same in every later state of the run |
| BannerRuns.SuccessWasEarned | backend/src/banners/service.ts:134-147 | a succeeded job has its artifact, and an earlier step put exactly one reference on the stored Card |
| BannerRuns.TakenOverNeverFinishes | backend/src/banners/service.ts:82-87 | with atomic claims a worker that was taken over never finishes the job, however much later it tries |
| BannerCounterexamples.OverlapStrandsAJob | backend/src/banners/service.ts:80-152 | a run in which an overlapping delivery strands a rendering job |
| BannerCounterexamples.ThreeCrashesStrandAJob | infra/template.full.yaml:1086-1094 | a run without overlap or dead requester in which three crashes use up the deliveries of the message and strand a rendering job |
| BannerEnding.StrandedForever | backend/src/banners/service.ts:65 | nothing, new requests included, revives or changes a stranded job |
| BannerEnding.StillEndsExactly | backend/src/banners/service.ts:64-152 | in every state of every run, overlaps, dead requesters and messages given up included, a job that is not over can still end exactly unless it is rendering and nobody is left who can act on it |
| BannerEnding.FinishesExactly | backend/src/banners/jobs.ts:19-22 | a worker's finish changes the job exactly when it is rendering under the worker's lease |
| BannerLifetimes.NobodyIsTakenOver | backend/src/banners/service.ts:84-87 | while no worker outlives the function timeout, none is taken over and each finishes only its own claim, however early clocks are read |
| BannerCounterexamples.AbandonLeavesAJobUnserved | backend/src/banners/service.ts:64-73 | a requester's death between insert and message leaves a queued job without a message or anyone to send one |
| BannerCounterexamples.UnservedUntilRequested | backend/src/banners/service.ts:64-73 | and only another request changes that |
| BannerCounterexamples.EarlyClockLetsTakenOverFinish | backend/src/banners/service.ts:84-87 | a run in which a clock read early lets a taken-over worker fail its successor's job |
| Doubles.SafeExactly | backend/src/bookkeepingAllocations.ts:80-81 | a rounded result is a safe integer exactly when the exact one is, and then they are equal |
| Cents.ComputedIsSaid | backend/src/bookkeepingAllocations.ts:78-81 | the cents worked out in doubles are safe exactly when the cents the text says are, and then equal them |
| Cents.AcceptedExactly | backend/src/bookkeepingAllocations.ts:62-83 | a text is accepted exactly when, trimmed, it is a plain amount of at most two decimals saying a positive safe number of cents, which is the result |
| Cents.ParseOfPrinted | backend/src/bookkeepingAllocations.ts:62-134 | printing cents and parsing the text, in any white space, gives them back for every positive safe integer |
| Cents.NotPositiveIsRefused | backend/src/bookkeepingAllocations.ts:66-81 | printed zero and printed negative amounts are refused, as what they are |
| Cents.CanonicalReparses | backend/src/bookkeepingAllocations.ts:62-83 | every accepted text has a canonical form that is accepted unchanged |
| Cents.PrintedDiffers | backend/src/bookkeepingAllocations.ts:128-134 | different doubles print differently at any size, unless both prints have exponents, although large prints are rounded |
| Doubles.HundredthIsExact | backend/src/bookkeepingAllocations.ts:131 | below 100 * 2^49 the floored rounded quotient of a double by a hundred is the whole part |
| Doubles.HundredthTellsApart | backend/src/bookkeepingAllocations.ts:131-132 | at any size two doubles with the same floored rounded quotient and the same remainder by a hundred are one |
| Cents.PrintsExactly | backend/src/bookkeepingAllocations.ts:128-134 | every double below 100 * 2^49 is printed as its exact text |
| Cents.PrintsRightExactly | backend/src/bookkeepingAllocations.ts:128-134 | below 100 * 2^53 the print is the exact text if and only if the quotient by a hundred does not round up to the next whole number |
| Cents.LargePrintIsOneTooMuch | backend/src/bookkeepingAllocations.ts:131 | an amount that is read exactly and printed one unit of currency too high |
| Cents.ComputedExactly | backend/src/bookkeepingAllocations.ts:123-125 | below 2^55 the computed cents are the double nearest to the cents said, right exactly when those are a multiple of the distance between doubles; at any size only such cents can come out right |
| Cents.OptionalAcceptsExactly | backend/src/bookkeepingAllocations.ts:85-126 | which texts the optional parser accepts, which are no amount, and when its cents are those the text says |
| Cents.OptionalParserLosesACent | backend/src/bookkeepingAllocations.ts:123-125 | beyond the safe range the optional parser changes 90071992547409.93 by a cent; the strict parser refuses it |
| Cents.LargerDoubleIsChanged | backend/src/bookkeepingAllocations.ts:123-125 | from 2^55 on it changes even an amount that is a double |
| Allocations.DoubleSumIsSum | backend/src/bookkeepingAllocations.ts:301-305 | the running sum of doubles is safe exactly when the true sum is, and then equals it |
| AllocationValidation.ValidateAndNormalizeAllocations | backend/src/bookkeepingAllocations.ts:163-431 | a split is accepted exactly when it is acceptable, with its normal form; a refusal names what is wrong, an entry's problem being the first one of the first bad entry |
| AllocationValidation.RefusalExcludesAcceptance | backend/src/bookkeepingAllocations.ts:163-431 | no refusal applies to an acceptable request |
| AllocationValidation.RefusalIsUnique | backend/src/bookkeepingAllocations.ts:163-431 | at most one refusal applies to a request, so the outcome is determined |
| AllocationMoney.AcceptedTotals | backend/src/bookkeepingAllocations.ts:301-414 | stored amounts are canonical texts of the requested ones and total the payment in whole cents |
| AllocationMoney.AcceptedTotalsInEur | backend/src/bookkeepingAllocations.ts:340-428 | with a EUR value every allocation has one and they total it, in whole cents for safe values and in rounded additions always; without, all or none have one |
| AllocationMoney.AcceptedAreDistinct | backend/src/bookkeepingAllocations.ts:218-338 | documents, invoices, contents and vendors' invoice numbers are pairwise distinct, and none of the first three is another payment's |
| AllocationMoney.ShareIsExact | backend/src/bookkeepingAllocations.ts:363-374 | exactly when the outcome for a derived share is the right one, and when an accepted share is the exact proportion |
| AllocationMoney.ShareIsNear | backend/src/bookkeepingAllocations.ts:363-374 | of a payment worth a safe number of EUR cents no accepted share is off by a cent, and a share that divides is accepted exactly when its product is a double |
| AllocationMoney.DerivedSharesTotal | backend/src/bookkeepingAllocations.ts:363-428 | derived EUR shares of amounts that add up total the payment's EUR value, whatever rounding did to single shares: the mismatch refusals cannot happen for any safe EUR value |
| AllocationWitnesses.ExactShareIsRefused | backend/src/bookkeepingAllocations.ts:364-369 | a payment taken whole by one invoice is refused as inexact |
| AllocationWitnesses.InexactSharesAreAccepted | backend/src/bookkeepingAllocations.ts:364-373 | a split whose two shares do not divide is accepted |
| AllocationWitnesses.ExactTotalIsRefused | backend/src/bookkeepingAllocations.ts:372-427 | beyond the safe range exact shares of the right total are refused as a mismatch |
| AllocationWitnesses.CentTooMuchIsAccepted | backend/src/bookkeepingAllocations.ts:357-427 | beyond the safe range stated EUR values a cent too large in total are accepted |
| AllocationReader.ReadTransactionAllocations | backend/src/bookkeepingAllocations.ts:433-475 | the reading loop computes the specified list, passing over incomplete rows |
| AllocationReader.AcceptedReadsBack | backend/src/bookkeepingAllocations.ts:433-475 | an accepted split reads back with the same length, and equal exactly unless a VAT currency is blank |
| AllocationResave.AcceptedAgain | backend/src/bookkeepingAllocations.ts:163-431 | sending back a stored split whose EUR and VAT amounts read back as themselves is accepted exactly unless the payment is a foreign one worth nothing in EUR |
| AllocationResave.SavingAgain | backend/src/bookkeepingAllocations.ts:163-431 | exactly when saving a stored split again gives the same split, for amounts of any size with the rounding of parsing and of printing |
| AllocationResave.LastsBelow | backend/src/bookkeepingAllocations.ts:123-134 | every stored EUR or VAT amount below 2^55 cents is printed and read back as itself |
| AllocationWitnesses.WorthlessIsNotSavedAgain | backend/src/bookkeepingAllocations.ts:345-350 | a stored split worth 0.00 EUR is not accepted again |
| AllocationWitnesses.BlankCurrencyIsNotSavedAgain | backend/src/bookkeepingAllocations.ts:380-382 | a blank VAT currency is replaced the second time |
| AllocationWitnesses.UnnumberedIsNotSavedAgain | backend/src/bookkeepingAllocations.ts:326-328 | an empty invoice number is replaced by the document's the second time |
| AllocationWitnesses.DriftingVatIsNotSavedAgain | backend/src/bookkeepingAllocations.ts:123-125 | a VAT amount beyond 2^55 changes each time it is read |
| AllocationWitnesses.VatIsStoredOneTooMuch | backend/src/bookkeepingAllocations.ts:123-134 | an accepted split whose VAT amount, read exactly, is stored one unit of currency too high and changes again the second time |
| AutoMatch.DateGap | backend/src/bookkeepingAutoMatch.ts:164-178 | the running minimum from infinity computes the specified gap |
| AutoMatch.GapIsGap | backend/src/bookkeepingAutoMatch.ts:164-178 | the gap is the least distance between a transaction day and a document day, and exists when both have one |
| AutoMatch.GroupBy | backend/src/bookkeepingAutoMatch.ts:224-228 | every group's candidates, in order, and no empty groups |
| AutoMatch.ClosestOf | backend/src/bookkeepingAutoMatch.ts:231-236 | minimum and ties find exactly the member strictly closer than all others |
| AutoMatch.UniqueClosestBy | backend/src/bookkeepingAutoMatch.ts:220-238 | per group, exactly the candidate strictly closer than every other with its key |
| AutoMatch.PlanEvidenceAutoMatches | backend/src/bookkeepingAutoMatch.ts:243-317 | the filters, nested loops and maps compute the specified plan |
| AutoMatchProperties.PlanIsMatching | backend/src/bookkeepingAutoMatch.ts:298-317 | no transaction and no document twice, sorted by transaction id, for every input |
| AutoMatchProperties.PlanExactly | backend/src/bookkeepingAutoMatch.ts:239-317 | a pair is planned exactly when it is a candidate with a gap strictly smaller than every other candidate sharing its transaction or document |
| AutoMatchProperties.OrderDoesNotMatter | backend/src/bookkeepingAutoMatch.ts:243-317 | the plan does not depend on the order of transactions, documents or links |
| Backfill.LinkStore.CreateDocumentLink | backend/src/db/bookkeeping.ts:1093-1137 | created, existing or locked, and the new state, for every store |
| Backfill.LinkStore.DeleteDocumentLink | backend/src/db/bookkeeping.ts:1139-1169 | deletes link and count exactly when its conditions hold |
| Backfill.ApplyBackfill | backend/scripts/backfill-bookkeeping-evidence.ts:156-190 | wherever the process dies, the store is that of a prefix of the plan and the log misses at most the last created link |
| Backfill.RollbackBackfill | backend/scripts/backfill-bookkeeping-evidence.ts:192-229 | the rollback loop computes the specified store, deletions and skips, whatever others write before each of its reads and deletions |
| BackfillProperties.ApplicationGrows | backend/scripts/backfill-bookkeeping-evidence.ts:174-184 | the new store is the old one with exactly the logged links added and counted |
| BackfillProperties.OnlyPlannedIsCreated | backend/scripts/backfill-bookkeeping-evidence.ts:174-184 | every logged link was planned |
| BackfillProperties.RollbackRestores | backend/scripts/backfill-bookkeeping-evidence.ts:174-229 | applying and rolling back restores links and counts exactly unless a created link's document is claimed by its own transaction |
| BackfillProperties.ClaimedLinkIsNotRolledBack | backend/scripts/backfill-bookkeeping-evidence.ts:203-219 | such a link is created, stops the rollback and stays |
| BackfillProperties.CrashLeavesAtMostOneLink | backend/scripts/backfill-bookkeeping-evidence.ts:174-229 | rolling back what a crash left in the log leaves at most the one link created just before it |
| BackfillProperties.RollbackDeletesOnlyItsOwn | backend/scripts/backfill-bookkeeping-evidence.ts:203-219 | whatever others wrote before the rollback starts, undisturbed it deletes only logged links of unchanged identity and changes no link |
| BackfillProperties.StepDeletesExactly | backend/scripts/backfill-bookkeeping-evidence.ts:203-221 | among other writers, a step deletes exactly when the link it reads is the one created and the store its deletion finds allows it, and then that one link only |
| BackfillProperties.ChangedIsDeletedExactly | backend/scripts/backfill-bookkeeping-evidence.ts:203-221 | a link of changed identity is deleted exactly when it took the created one's place between the read and the deletion, whose conditions allow it |
| BackfillProperties.ChangedIsNeverDeleted | backend/scripts/backfill-bookkeeping-evidence.ts:203-221 | while nobody replaces a link between a read and a deletion, no link of changed identity is deleted, whatever else others write |
| BackfillProperties.RecreatedLinkIsDeleted | backend/src/db/bookkeeping.ts:1139-1169 | a link deleted and created again between the read and the deletion is deleted |
| BackfillProjection.ProjectionIsExact | backend/scripts/backfill-bookkeeping-evidence.ts:239-253 | once all planned links exist the recomputed counts are the projected ones, and the clamp never acts |
| BackfillProjection.DryRunTellsTheTruth | backend/scripts/backfill-bookkeeping-evidence.ts:98-120 | so are the counts of any listing of the store after an application that created every planned link |
| PodcastClaims.DropTwins | backend/scripts/import-podcast-episodes.ts:376-390 | kept rows are pairwise not twins, each dropped row has a kept twin, a titled one if it had a title, and rows are counted |
| PodcastClaims.PreferredIsFirstClosest | backend/scripts/import-podcast-episodes.ts:394-423 | a row prefers the first of its closest candidates |
| PodcastClaims.ClaimEpisodes | backend/scripts/import-podcast-episodes.ts:392-431 | each row ends unmatched, claiming or ambiguous, exactly one; each claimed episode holds the earliest of the closest rows that preferred it |
| PodcastClaims.MatchRegister | backend/scripts/import-podcast-episodes.ts:371-431 | rows are conserved over twin removal, sorting and claiming; a claiming row has the earliest recording among the closest |
| PodcastPlan.PlanWrites | backend/scripts/import-podcast-episodes.ts:544-591 | the planning loop computes the specified creates, updates, conflicts and unmatched |
| PodcastPlanAgain.MatchesDiffer | backend/scripts/import-podcast-episodes.ts:565-580 | in a conflict-free plan no two desired episodes update the same register episode |
| PodcastPlanAgain.UpdatesAre | backend/scripts/import-podcast-episodes.ts:575-580 | its update of a matched episode is exactly what changes, if anything |
| PodcastPlanAgain.UpdateSettles | backend/scripts/import-podcast-episodes.ts:514-542 | an episode just updated wants a further change exactly when the desired one has a null number or heavy content |
| PodcastPlanAgain.CreationSettles | backend/scripts/import-podcast-episodes.ts:593-596 | the same for an episode just created |
| PodcastReimport.FoundAgain | backend/scripts/import-podcast-episodes.ts:496-512 | after a conflict-free import every desired episode is found where the import left it |
| PodcastReimport.ImportingAgain | backend/scripts/import-podcast-episodes.ts:544-591 | the next plan creates nothing and conflicts with nothing, and updates nothing exactly when every desired episode settles |
| PodcastReimport.NullsAndIntrosNeverSettle | backend/scripts/import-podcast-episodes.ts:514-542 | an episode with a null number and one with an intro are each updated again |
| Manifests.CheckLinks | backend/scripts/bookkeeping-document-import/manifest.ts:117-137 | the set of links accepts exactly well-formed links of pairwise different references, however they are named |
| Manifests.CheckDocuments | backend/scripts/bookkeeping-document-import/manifest.ts:60-138 | the loop with its set and running total accepts exactly fitting documents of distinct hashes and no more than the total of links |
| Manifests.ValidateManifest | backend/scripts/bookkeeping-document-import/manifest.ts:28-154 | a manifest is accepted exactly when it is valid |
| Manifests.ValidPassesInspection | backend/scripts/bookkeeping-document-import/archive.ts:107-128 | of a valid manifest the inspection can refuse no hash, no declared alias and no missing source; only member paths are left |
| Fingerprints.CanonicalExactly | backend/scripts/bookkeeping-document-import/manifest.ts:156-171 | two JSON values have the same canonical form exactly when they differ at most in the order of object keys, at any depth |
| Fingerprints.CanonicalIsSame | backend/scripts/bookkeeping-document-import/manifest.ts:156-165 | the canonical form is the same value |
| Sequences.CardinalityTellsDuplicates | backend/scripts/bookkeeping-document-import/archive.ts:101-128 | a set as large as its list means a list without repetition, and no other does |
| ArchiveInspection.ValidateMembers | backend/scripts/bookkeeping-document-import/archive.ts:146-156 | the first pass succeeds exactly when members are sound, their folded paths distinct and the total within the limit |
| ArchiveInspection.SortMembers | backend/scripts/bookkeeping-document-import/archive.ts:158-188 | the second pass succeeds exactly when each file is properly excluded or a PDF, and sorts them so |
| ArchiveInspection.CheckCoverage | backend/scripts/bookkeeping-document-import/archive.ts:196-215 | comparing counts and looking up sources succeeds exactly when manifest and accepted members cover each other |
| ArchiveInspection.InspectArchives | backend/scripts/bookkeeping-document-import/archive.ts:95-219 | an inventory is returned exactly when everything is sound, and holds what was accepted and excluded |
| ArchiveInspection.InventoryCounts | backend/scripts/bookkeeping-document-import/archive.ts:196-219 | then there are as many different contents as manifest documents and as many members as sources, though no line checks the first |
| ArchiveInspection.AcceptedHash | backend/scripts/bookkeeping-document-import/archive.ts:202-215 | each accepted member is a source of a document with its hash |
| ArchiveInspection.EveryFileIsSorted | backend/scripts/bookkeeping-document-import/archive.ts:158-188 | every file is accepted or excluded and never both; directories are neither |
| Calendar.DaysAreDates | backend/src/relativeDates.ts:50-51 | the date of any day number is a calendar date and has that day number |
| Calendar.DatesAreDays | backend/src/relativeDates.ts:50-51 | any calendar date is the date of its day number |
| Calendar.NextDayIsNextDate | backend/src/relativeDates.ts:32-36 | the date of the next day is the next date by the lengths of months and leap years, counted from 1 January 1970 |
| DateWords.CalendarDateExactly | backend/src/relativeDates.ts:45-52 | the round trip through `Date.UTC` accepts exactly the prints of the dates of the years 100 to 9999 |
| DateWords.AddDaysCounts | backend/src/relativeDates.ts:32-36 | adding any number of days to a date of four-digit year prints the day so many days later, or throws beyond the range of dates |
| DateWords.AddDaysAdds | backend/src/relativeDates.ts:32-36 | adding twice is adding the sum; adding one gives the next date |
| DateWords.PlusDaysExactly | backend/src/relativeDates.ts:57-58 | which texts say a number of days, and which number |
| DateWords.RelativeWord | backend/src/relativeDates.ts:55-68 | a word gives the day it names, a weekday the first such day strictly after today; nothing exactly when it names none |
| DateWords.TaskDateExactly | backend/src/relativeDates.ts:74-80 | what every value resolves to, and that it is a calendar date exactly when the named day lies in the years 100 to 9999 |
| DateWords.RelativeWordLeavesTheRange | backend/src/relativeDates.ts:74-80 | inputs at both ends for which it is none |
| DateWords.ManyDaysLeaveTheRange | backend/src/relativeDates.ts:57-58 | with an ordinary today, numbers of days that lead to no calendar date and to a thrown error |
| CivilTime.ComputeCivilToUtc | backend/src/relativeDates.ts:102-113 | the bounded loop computes the specified iteration |
| CivilTime.ThreeRoundsAreEnough | backend/src/relativeDates.ts:102-113 | where the zone uses two offsets near a civil time, the result reads as it exactly when some instant does; else it is the civil time minus the offset not in force |
| CivilTime.EveryCivilTime | backend/src/relativeDates.ts:102-113 | for any number of changes and offsets, changes at least twice the largest offset apart, the result reads as the civil time exactly when some instant does |
| CivilTime.AllConvertExactly | backend/src/relativeDates.ts:107-111 | three rounds convert every civil time of every zone with offsets up to m and changes at least d apart if and only if d is at least 2 * m |
| CivilTime.SkippedExactly | backend/src/relativeDates.ts:102-113 | for one change forward, which civil times are skipped and what they give |
| CivilTime.RepeatedTimeIs | backend/src/relativeDates.ts:102-113 | for one change back, which of two instants a repeated civil time gives |
| Lineage.ComputeCachedDate | backend/scripts/podcast-schedule.ts:87-137 | from any cell a date is accepted exactly when its lineage ends in a date with every cache right, and is the recomputed one; a refusal is never a cycle and names what is wrong with a cell of the lineage |
| Lineage.NeverCycles | backend/scripts/podcast-schedule.ts:88 | whatever the sheet holds, the cycle error is unreachable |
| Lineage.AcceptedIsRecomputed | backend/scripts/podcast-schedule.ts:87-137 | a date is accepted exactly when its lineage ends in a date and every cache on the way is right, and is the recomputed value |
| Lineage.DateFollowsGeometry | backend/scripts/podcast-schedule.ts:108-136 | an accepted date is its plain date plus seven days per row in time order and one per column |
| Lineage.TableIsRankDifference | backend/scripts/podcast-schedule.ts:150-160 | the discontinuity table is seven times the rank difference exactly for adjacent rows and rows that were not moved |
| Lineage.CheckGroup | backend/scripts/podcast-schedule.ts:147-166 | the loop accepts exactly the groups whose neighbours are as far apart as expected |
| Lineage.GroupFollowsGeometry | backend/scripts/podcast-schedule.ts:147-166 | an accepted group of consecutive rows follows the geometry between any two of its cells |
| Csv.ParseCSVFile | backend/scripts/import-trello-csv.ts:90-126 | the character loop with its one-character lookahead computes the specified rows |
| Csv.ReadsBack | backend/scripts/import-trello-csv.ts:90-126 | every text of section 2 of RFC 4180 with terminated records reads back as its rows, whichever fields are quoted |
| Csv.ReadsBackUnterminated | backend/scripts/import-trello-csv.ts:121-124 | a last record without line break reads back exactly unless it is one empty field |
| Csv.EmptyLastRecordIsDropped | backend/scripts/import-trello-csv.ts:121-124 | that one is dropped, quoted or not |

## Left out

- AuditAppend.AppendExtendsLog: does not model the `createdAt` attribute of sidecar rows, which is written and never read, nor the store's limit of a hundred items in one transaction.
- AuditStore.AuditTable.UpdateBookkeepingTransaction: does not model the void-status and related-transaction conditions of the same write.
- AuditWriters.RunRefinesLog: does not model reads of the partition that straddle a commit in pages; a listing is of one moment.
- BannerCounterexamples.ThreeCrashesStrandAJob: does not model messages moved back from the dead-letter queue by hand, or the fourteen days after which the queue drops a message.
- BannerService.RenderBannerJob: does not model bundles, portraits, templates and image checks; all of them are one outcome. The attempt counter and error texts are left out.
- Cents.OptionalParserLosesACent: does not model amounts given as JavaScript numbers, or infinities.
- Cents.PrintsRightExactly: does not say from 100 * 2^53 cents on when the print is right, where the printed whole number is itself a shortened one; `Cents.PrintedDiffers` covers that range.
- AllocationValidation.ValidateAndNormalizeAllocations: does not model category, subtype and dates, which only default from the payment or the document, nor fields that are not text.
- AutoMatch.PlanEvidenceAutoMatches: does not model vendor-name cleanup, date parsing and case folding, which are given functions; amounts are real numbers.
- Backfill.ApplyBackfill: does not model evidence version counters, changes of a document's content between reading and writing it, or other writers while a plan is applied; `Backfill.RollbackBackfill` allows them all the time.
- PodcastClaims.MatchRegister: does not model hosts, RSS links, the Time table pass and the new episodes made from unmatched rows.
- PodcastReimport.ImportingAgain: does not model the API's validation and duplicate checks (every write is accepted), recording dates taken over from calendar holds, or the order of object keys in stored JSON.
- ArchiveInspection.InspectArchives: does not model zip reading, member flags and size limits (one `sound` flag).
- Manifests.ValidateManifest: does not model the distinction between missing and ill-typed fields (one `shaped` flag per entry), nor `schemaVersion` and `year` given as fractions.
- Fingerprints.CanonicalExactly: does not model the printing of JSON and the SHA-256 digest of the canonical form; keys are totally ordered.
- DateWords.TaskDateExactly: does not model date-times and instants, the choice of today, or engines that roll 30 February over when parsing; `toLowerCase` is a given function.
- Lineage.NeverCycles: does not model header checks, anchors and the collection of formula cells.
- HTTP routes, authentication, storage clients, telemetry, frontend and text classification are not part of this model.

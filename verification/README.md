# DataBounty Community: verified models of its protocols and codecs

This project models, in Dafny, the parts of DataBounty Community where correctness rests on reasoning across
several steps or functions: the tamper-evident audit log, the leased job queue and its workers, the JSON
texts and string codecs, the paging loops against a server that may answer anything, and the derived
settings, countdown, karma ladder and catalog seed. `dafny verify dfyconfig.toml` checks all of it.

How the modules build on each other:

- **Text and JSON.** `JsText` has strings as UTF-16 code units, `Decimals` decimal numbers, `Json` the printer
  and parser of section 7 of RFC 8259 and the grammar around it. `JsonLd` adds the three markup
  escapes, `CanonicalJson` the key-sorting serializer of the audit log.
- **Audit log.** `AuditEvidence` says what a row's hash covers, `AuditChain` has the verifier, the re-linking
  script and what tampering a valid chain rules out, `AuditWriters` runs any number of writing
  transactions against each other, statement by statement.
- **Job queue.** `JobQueue` has the table with enqueue, claim, complete and fail, `ClaimPlan` the plan derived
  from the lease table, `DrainLoop` one worker's loop with the database errors it outlives (in a claim's search, write
  and re-read, in an outcome's read and write, in a heartbeat's write), `Workers` any number of workers and producers
  interleaved, with work abandoned at any moment. `Config` derives the time budgets and leases and
  joins them to the safety theorem of `Workers`.
- **Editor fields.** `FileIds` is the file list held in one string, `FieldCodec` the payload of a submission
  and the form values made from it.
- **Paging.** `DatasetPages`, `CatalogPages` and `Sitemap` are the three fetch loops; each is proved
  against an arbitrary server first and then against the real route over a fixed table. `Dedupe` merges
  fetched rows.
- **Small state and arithmetic.** `SeedCatalog`, `Countdown`, `Karma`.

Code that changes things step by step is modelled that way (classes `AuditTable`, `Queue`, `Worker`, `FileField`,
`DatasetTypes`, `Countdown`, and methods with the source's loops); each such method is tied to a function on
values, and the theorems are about those functions.

## Where the code and its description differ

The model follows the code. These points are theorems here, not remarks:

- The verifier's comment says that a deleted row breaks the chain (apps/api/src/lib/audit-log.ts:136-142). Rows
  removed, reordered or repeated stay undetected exactly when what is left is a prefix, that is, when only the
  newest rows are gone (`AuditChain.RearrangementDetected`). An edited row is detected exactly when its hashed content
  changed (`AuditChain.EditDetected`); the column `actorUserId` is not part of that (`AuditChain.ActorColumnNotCovered`).
- docs/architecture.md:147-149 promises bounded retries. A reclaim does not look at `maxAttempts`. So they
  are bounded exactly if no lease that ran out on a job's last attempt is claimed again
  (`Workers.RetriesBoundedExactly`). That happens when a worker dies then, and also when the write of an outcome or
  the re-read of a claim is lost (apps/api/src/services/jobs.ts:384-398, 408-414, 433-435); a job abandoned every
  time is claimed for ever (`Workers.RetriesUnboundedWhenAbandoned`). `Workers.RetryLedger` counts the claims.
- The claim's guarded write accepts a pending row without asking whether it is due
  (apps/api/src/services/jobs.ts:365-373), so a job can be taken before its `runAfter`: exactly when its key was
  enqueued again for a later time between the claim's read and its write, and nothing has written the row since
  (`Workers.EarlyClaimExactly`). Nobody need have handled it in between; `Workers.RearmedJobRunsEarly` is one such run.
- `complete` and `fail` do not check who holds the row. In timely runs this is harmless (`Workers.SettledStays`).
  In any run a settled job moves only by a worker still running it or by a re-arm (`Workers.SettledMovesOnly`), and the
  first does happen once a lease is outlived (`Workers.LateWorkerRevivesJob`).
- A comment at apps/api/src/worker.ts:424 says that a tick that threw skips the heartbeat. The catch falls through
  to the write, so it does not (`DrainLoop.Worker.Turn`). A write that is lost moves the throttle all the same
  (apps/api/src/services/worker-heartbeat.ts:150-152), so the stored heartbeat can be older (`DrainLoop.HeartbeatAge`).
- `normalizeMcpPublicUrl` removes one `/mcp` only (`Config.DoubledPathKeepsOne`); `Config.NormalizedUrl` says for which
  settings a second pass would change the result.
- A single file id that is empty or is itself the text of a JSON array is not read back as written; every other
  list is (`FileIds.FileIdsRoundTrip`). The form inherits this one exception (`FieldCodec.PayloadRoundTrip`).
- A required list that is empty counts as present (`FieldCodec.ReportedExactly`).
- A dataset-type list from a server that sends no `total` is taken as whole after one page
  (`DatasetPages.UncountedSweep`).
- Asked for a page past the end of an empty catalog, the page browser reports that page, not page 1 of 1
  (`CatalogPages.StableFetch`).
- Re-seeding keeps an admin's scores but writes everything else the seed names, the usage count of 0 included
  (`SeedCatalog.SeededRow`).

## Assumptions

SHA-256 and the ISO text of an instant are arbitrary functions; where a theorem says `CollisionFree` they are
taken to be injective. PostgreSQL gives each statement a view of the committed rows and the transaction's own,
and an advisory lock one holder until commit or abort. The rows' JSON columns hold JSON. Job handlers, clocks,
network answers and database errors are free variables of the theorems.

## Model

| member | source | states |
|---|---|---|
| Json.RoundTrip | apps/landing/lib/json-ld.ts:23-28 | Parsing printed JSON gives back exactly the value, for every value, printed plainly or with markup escaped |
| Json.StringifyInjective | apps/api/src/lib/audit-log.ts:7-15 | Two values with the same printed text are the same value |
| Json.ShortestQuote | apps/landing/lib/json-ld.ts:23-28 | No text shorter than the one printed stands for a code unit in a JSON string; a lone surrogate is hex-escaped |
| Json.PrintedSolid | apps/landing/lib/json-ld.ts:23-28 | The printed text has no white space but the spaces inside strings |
| Json.HexEscapeForm | apps/landing/lib/json-ld.ts:25-27 | The escape of a unit is a backslash, `u` and the four lower-case hex digits that stand for it |
| JsonLd.ReplacementsCommute | apps/landing/lib/json-ld.ts:23-28 | In each of their six orders, the three replacements are the same single pass over the markup characters |
| JsonLd.EscapeStringify | apps/landing/lib/json-ld.ts:23-28 | Escaping the printed text is printing with `<`, `>` and `&` escaped inside strings: nothing outside a string is touched |
| JsonLd.SafeJsonLdCorrect | apps/landing/lib/json-ld.ts:23-28 | For every JSON value the output has none of `<`, `>`, `&` and parses back to exactly that value |
| CanonicalJson.SortKeysKeeps | apps/api/src/lib/audit-log.ts:7-15 | Sorting keys at every level keeps the value's meaning and stays well formed |
| CanonicalJson.LessMeans | apps/api/src/lib/audit-log.ts:14 | Keys are ordered by the first code unit in which they differ, and a key before its extensions |
| CanonicalJson.SortKeysAscend | apps/api/src/lib/audit-log.ts:7-15 | In what is printed, every object at every depth has its keys in ascending order |
| CanonicalJson.StableJsonCanonical | apps/api/src/lib/audit-log.ts:7-15 | Two values have the same stable text if and only if they differ in the order of object keys at most |
| AuditEvidence.RowHashCovers | apps/api/src/lib/audit-log.ts:17-32 | Two row hashes are equal if and only if the hashed content and the predecessor's hash are |
| AuditEvidence.EvidenceFields | apps/api/src/lib/audit-log.ts:98-113 | What is hashed is an object that holds each column of the row under its own name |
| AuditChain.Verify | apps/api/src/lib/audit-log.ts:143-201 | Says valid exactly for valid chains; otherwise names the row at which the log first stops being one |
| AuditChain.AuditTable.Reset | apps/api/scripts/reset-audit-chain.ts:50-93 | The read loop and the write-back by id together leave the re-linked log, a valid chain, and count the hashed rows |
| AuditChain.AuditTable.WriteRow | apps/api/scripts/reset-audit-chain.ts:86-89 | Rows with another id are unchanged; the row with the id gets the two hashes and keeps every other column |
| AuditChain.WriteAllRelinks | apps/api/scripts/reset-audit-chain.ts:83-93 | With unique ids, the write-back of all collected updates is the re-linking fold |
| AuditChain.RelinkValid | apps/api/scripts/reset-audit-chain.ts:50-79 | Re-linking any list of rows gives a valid chain |
| AuditChain.RelinkKeeps | apps/api/scripts/reset-audit-chain.ts:53-93 | Rows without a hash are untouched, and of hashed rows only the two hash columns change |
| AuditChain.RelinkUnique | apps/api/scripts/reset-audit-chain.ts:50-79 | It is the only valid linking of those rows |
| AuditChain.RelinkFixesValid | apps/api/scripts/reset-audit-chain.ts:50-79 | A log is unchanged by re-linking if and only if it is valid already |
| AuditChain.AppendValid | apps/api/scripts/reset-audit-chain.ts:102-123 | A hashed row extends a valid log if and only if it names the tip and carries the hash of its own evidence |
| AuditChain.HashesDistinct | apps/api/src/lib/audit-log.ts:155-198 | No hash occurs twice in a valid chain |
| AuditChain.RearrangementDetected | apps/api/src/lib/audit-log.ts:136-142 | Of all deletions, reorderings and repetitions of a valid chain's rows, exactly the prefixes are valid |
| AuditChain.TipPinsHistory | apps/api/scripts/reset-audit-chain.ts:50-79 | Two valid chains with the same newest hash have the same history: content, order and length |
| AuditChain.EditDetected | apps/api/src/lib/audit-log.ts:136-142 | Rows of a valid log edited in place, hash columns apart: still valid if and only if no hashed row's content changed |
| AuditChain.BrokenAtFirstEdit | apps/api/src/lib/audit-log.ts:167-198 | The row at which the edited log stops being valid, which the verifier names, is the first row whose content changed, and no other |
| AuditChain.ActorColumnNotCovered | apps/api/src/lib/audit-log.ts:175-190 | Changing `actorUserId` of any row leaves the chain valid |
| AuditWriters.InsertSorts | apps/api/src/lib/audit-log.ts:144-145 | A new row takes its place in the order by time and id, and no other row is added or lost |
| AuditWriters.WriteRecords | apps/api/src/lib/audit-log.ts:79-133 | A written row has every column as the caller gave it, the time and the hashes apart; its time is the clock's, or the millisecond after the newest hashed row seen if that is not older |
| AuditWriters.DraftExtends | apps/api/src/lib/audit-log.ts:61-134 | One write under the lock lands at the end of the chain it read, whatever the clock says, and keeps it valid |
| AuditWriters.AllOrNothing | apps/api/src/lib/audit-log.ts:34-61 | A commit adds exactly the transaction's rows to the chain, in order; an abort adds nothing; both free the lock |
| AuditWriters.NextKeeps | apps/api/src/lib/audit-log.ts:34-134 | Each statement of each transaction keeps the invariant and leaves the committed chain a prefix of the next |
| AuditWriters.LockedWritersKeepChain | apps/api/src/lib/audit-log.ts:34-134 | In every interleaving of any number of writing transactions, commits and aborts, the committed log stays one valid chain that only grows |
| AuditWriters.LogStaysOneChain | apps/api/src/lib/audit-log.ts:34-134 | Every run from a valid log that nobody is writing to ends in a valid log, in order, with the old chain as a prefix |
| AuditWriters.RelinkedLogGrows | apps/api/scripts/reset-audit-chain.ts:102-123 | A re-linked log stays one valid chain, with the re-linked rows in front, under any number of later writers in any interleaving |
| AuditWriters.UnlockedWritersFork | apps/api/src/lib/audit-log.ts:34-65 | Without the lock, two overlapping writers leave an invalid log whatever they write, in whichever order the rows sort |
| JobQueue.Candidate | apps/api/src/services/jobs.ts:330-360 | The row a claim picks is the oldest one of the wanted types that is due, and there is none only if none is due |
| JobQueue.Queue.FindFirst | apps/api/src/services/jobs.ts:330-360 | The search finds that row |
| JobQueue.Queue.Take | apps/api/src/services/jobs.ts:359-382 | The guarded write counts 1 exactly when the row is pending or its time has come; then claims get the row again exactly from the end of the lease on, it has one more attempt and is otherwise the same; else nothing changes |
| JobQueue.Queue.Claim | apps/api/src/services/jobs.ts:330-399 | A claim that nobody interferes with takes the oldest due row, which other claims get only when its lease has run out; it reports nothing if none is due or a write or re-read fails, and only the failed re-read leaves the row leased; no other row changes |
| JobQueue.BackoffDoubles | apps/api/src/services/jobs.ts:423 | The delay is ten seconds at first and doubles with each attempt until it is an hour |
| JobQueue.Queue.Complete | apps/api/src/services/jobs.ts:401-415 | No later claim can pick or take the row, no other row changes; if the write is lost, nothing does |
| JobQueue.Queue.Fail | apps/api/src/services/jobs.ts:417-436 | With the attempts used up no later claim gets the row; otherwise claims get it from a time on that is ten seconds to an hour away, and not before; no other row changes |
| JobQueue.EnqueuedMeans | apps/api/src/services/jobs.ts:226-307 | The key's row starts over: no attempts, and claims pick it exactly from the given time on, unless it is being processed; a new row has the type and limit asked for, an old one keeps its own; no other row changes |
| JobQueue.Queue.Enqueue | apps/api/src/services/jobs.ts:226-307 | The call leaves exactly that, and keys that are unique stay unique |
| ClaimPlan.PlanPartitions | apps/api/src/worker.ts:174-194 | For any lease table: every type once in exactly one group, that of its own lease, no empty group, leases strictly falling |
| ClaimPlan.OneGroupPerType | apps/api/src/worker.ts:176-194 | No type is in two groups |
| DrainLoop.RunPass | apps/api/src/worker.ts:395-416 | One pass leaves the table, the drained flag, the work done and the tick error that the pass on values gives |
| DrainLoop.PassOutcome | apps/api/src/worker.ts:399-414 | The handler gets the row as claimed; a job whose handler returned is done, one whose handler threw is dead at its last attempt and else waits ten seconds to an hour, unless that write was lost; only a failing read in `fail` breaks the tick |
| DrainLoop.PassFates | apps/api/src/worker.ts:398-414 | With the plan of any lease table and under every pattern of errors, each job ends a pass untouched, leased, completed after its handler returned, or failed after it threw; none is lost and at most one is handled |
| DrainLoop.PassPriority | apps/api/src/worker.ts:398-411 | Under every pattern of errors: the job handled is the oldest due one of the first group whose claim goes through; with none handled, every group had nothing due or a failed write or re-read, up to the search that ended the pass, if one did |
| DrainLoop.PassProgress | apps/api/src/worker.ts:395-432 | A pass without database errors finds nothing due and changes nothing, or strictly lowers the remaining effort |
| DrainLoop.DrainBurst | apps/api/src/worker.ts:392-432 | With nothing enqueued the loop stops draining within the sum of remaining attempts, and then nothing is due |
| DrainLoop.Worker.Turn | apps/api/src/worker.ts:395-432 | The heartbeat is written exactly when the throttle has run out, after a failed tick too; a lost write moves the throttle and not the stored heartbeat |
| DrainLoop.Worker.Turns | apps/api/src/worker.ts:394-432 | The loop, up to any turn, leaves the table and the heartbeats that the passes and beats on values give |
| DrainLoop.HeartbeatAge | apps/api/src/services/worker-heartbeat.ts:142-153 | Over every run from any state: after the first write that is not lost, the stored heartbeat is always younger than one throttle, turn and write, times one more than the writes lost in a row |
| DrainLoop.FirstTurnStores | apps/api/src/worker.ts:100-101 | A new worker's first turn at a clock past the throttle stores a heartbeat exactly if its write is not lost |
| Workers.FindThenSwap | apps/api/src/services/jobs.ts:330-399 | Undisturbed, the read and the guarded write of a worker are the queue's one claim |
| Workers.RunKeepsRows | apps/api/src/services/jobs.ts:226-436 | In every run rows keep their type and key, none goes away, and unique keys stay unique |
| Workers.NextKeeps | apps/api/src/services/jobs.ts:330-399 | For each type whose leases outlast its work, every step of every worker keeps the invariant: who runs a job of the type holds its row under a lease that has not run out, alone |
| Workers.OneWorkerPerJob | apps/api/src/services/jobs.ts:330-399 | In every timely interleaving of workers, abandoned work and producers, no job of a type whose leases outlast its work is handled by two workers at once, whatever the other types do |
| Workers.OneWorkerExactly | apps/api/src/worker.ts:103-117 | For any plan and type, no timely run ever has two workers on one job of the type if and only if every lease of the type outlasts its work |
| Workers.SettledStays | apps/api/src/services/jobs.ts:401-436 | In a timely run a done or dead job whose type's leases outlast its work is never touched again until its own key is enqueued |
| Workers.SettledMovesOnly | apps/api/src/services/jobs.ts:401-436 | In every run the first write to a done or dead job is an outcome of a worker still running it, or a re-arm |
| Workers.RetryLedger | apps/api/src/services/jobs.ts:330-436 | Over every timely run: claims are at most the attempts left at the start, plus those granted by enqueues, plus leases that ran out with no attempt left |
| Workers.RetriesBoundedExactly | docs/architecture.md:147-149 | Every state of a run, timely or not, keeps within the attempts if and only if no job is claimed again whose lease ran out on its last attempt |
| Workers.RetriesBoundedUnlessAbandoned | docs/architecture.md:147-149 | So while each claim is carried to an outcome in the table, no job exceeds its attempts |
| Workers.RetriesUnboundedWhenAbandoned | apps/api/src/services/jobs.ts:330-399 | A job that is abandoned each time is claimed any number of times, whatever its limit |
| Workers.LateWorkerShares | apps/api/src/worker.ts:103-112 | As soon as work may last as long as its lease, a timely run has two workers on one job |
| Workers.LateWorkerRevivesJob | apps/api/src/services/jobs.ts:401-436 | In a run from a fresh table, a second holder's failure turns the job that the first has completed into one that runs again |
| Workers.EarlyHistory | apps/api/src/services/jobs.ts:259-285 | Over any run, a row is pending and not yet due exactly if a re-arm for later left it so, or it was so before, and nothing has written it since |
| Workers.EarlyClaimExactly | apps/api/src/services/jobs.ts:365-373 | Between a claim's read and its write anything may happen; the write takes the row before its due time if and only if meanwhile its key was enqueued again for later and nothing has written the row since |
| Workers.RearmedJobRunsEarly | apps/api/src/services/jobs.ts:365-373 | Such a claim happens in a timely run |
| Config.BudgetsFit | apps/api/src/config.ts:97-105 | Every positive command budget, so every accepted setting, passes the boot check on the derived budgets |
| Config.BudgetsTight | apps/api/src/config.ts:97-105 | Less than a millisecond of a child's 40 % and of a probe's 15 %, capped at five seconds, is given away; the sandbox has half a minute more; a setting is accepted exactly within its bounds |
| Config.LeasesCover | apps/api/src/worker.ts:113-117 | For every command budget of at least a millisecond, the derived validation and proof leases are longer than the worst case of what they cover |
| Config.LeasesTight | apps/api/src/worker.ts:113-117 | Each further provider adds two command budgets to a validation's lease, which for one is four and the allowance but at least five minutes; a proof's is twice its worst case; up to rounding |
| Config.PlanCovers | apps/api/src/worker.ts:176-194 | If a type's lease in the table outlasts its job, so does the lease of each group that claims the type |
| Config.ValidationNeverDoubled | apps/api/src/worker.ts:103-117 | With the derived lease, no validation run is handled by two workers at once in any interleaving in which validations keep to the provider timeouts and the review allowance; the same for proof runs; nothing is asked of any other type |
| Config.OriginRecovered | apps/api/src/config.ts:68-82 | An origin, any slashes, optionally `/mcp` and any slashes, is normalized to that origin |
| Config.NormalizedUrl | apps/api/src/config.ts:79-82 | The result has no trailing slash; a second pass changes nothing if and only if the setting, less outer space and trailing slashes, ends neither in a space nor in a path behind which another space or `/mcp` ends it |
| Config.DoubledPathKeepsOne | apps/api/src/config.ts:79-82 | `/mcp/mcp` loses one `/mcp` only |
| Config.OuterSpaceIgnored | apps/api/src/config.ts:60-82 | White space around either setting makes no difference |
| Config.TrustExactly | apps/api/src/config.ts:60-66 | Exactly nothing, `0` and `false` trust no proxy and exactly `true` trusts every one, in any case of letters; what is no hop count either is passed on as trimmed |
| Config.HopCounts | apps/api/src/config.ts:60-66 | A setting is read as n hops if and only if it is, trimmed, the decimal text of n, for every n of at least 1 |
| FileIds.FileIdsRoundTrip | apps/web/components/dynamic-item-fields.tsx:66-79 | A list is read back as written if and only if it is not a single id that is empty or JSON array text |
| FileIds.FileField.AddId | apps/web/components/dynamic-item-fields.tsx:210-218 | Adding leaves the encoded list with the id appended within the limit, or replaced; it shows as meant unless ambiguous |
| FileIds.FileField.RemoveId | apps/web/components/dynamic-item-fields.tsx:219-226 | Removing leaves the encoded list without any occurrence of the id; it shows as meant unless ambiguous |
| FileIds.FieldRefinesList | apps/web/components/dynamic-item-fields.tsx:210-226 | Every run of adds and removes of ordinary ids keeps the encoded field equal to the bounded list it stands for |
| FileIds.AddsInOrder | apps/web/components/dynamic-item-fields.tsx:216-218 | Ids added one by one stand in that order, cut at the limit; a single field holds the last one |
| FileIds.RemoveUndoesAdd | apps/web/components/dynamic-item-fields.tsx:216-220 | Removing an id that was added where it fitted leaves the list as it was before |
| FileIds.WithoutConcat | apps/web/components/dynamic-item-fields.tsx:220 | Removing an id keeps the others in their order |
| FieldCodec.ItemsConcat | apps/web/components/dynamic-item-fields.tsx:149-165 | At every comma and every newline, a text's items are those before it and then those after it |
| FieldCodec.OneItem | apps/web/components/dynamic-item-fields.tsx:149-165 | A text with neither is one item, trimmed, or none if it is blank |
| FieldCodec.JoinConcat | apps/web/components/dynamic-item-fields.tsx:169-182 | A list is shown one item a line |
| FieldCodec.ListRoundTrip | apps/web/components/dynamic-item-fields.tsx:149-182 | A list survives join, split, trim and filter if and only if its entries are non-empty, trimmed and free of commas and newlines |
| FieldCodec.SavedAsMeant | apps/web/components/dynamic-item-fields.tsx:149-165 | A shown list is saved as that list, encoded file ids as those ids, and other text without the white space around it |
| FieldCodec.ShownAsStored | apps/web/components/dynamic-item-fields.tsx:118-122 | A stored text is shown as it is, and a missing entry as the empty text |
| FieldCodec.PrettyParses | apps/web/components/dynamic-item-fields.tsx:118-122 | The indented text in which a list is shown elsewhere is JSON text of that list |
| FieldCodec.FieldRoundTrip | apps/web/components/dynamic-item-fields.tsx:149-182 | A field's saved entry, shown and saved again, is unchanged if and only if its file list is readable |
| FieldCodec.PayloadFromValues | apps/web/components/dynamic-item-fields.tsx:149-165 | The loop builds the payload that the fields' entries make up |
| FieldCodec.ValuesFromPayload | apps/web/components/dynamic-item-fields.tsx:169-182 | The loop builds the form values that the payload's entries show |
| FieldCodec.PayloadRoundTrip | apps/web/components/dynamic-item-fields.tsx:149-182 | Opening a saved payload and saving it is the identity if and only if no file field holds the ambiguous list |
| FieldCodec.MissingExactly | apps/web/components/dynamic-item-fields.tsx:118-140 | A saved entry is missing exactly if it is blank text or too few files; a list never is |
| FieldCodec.ReportedExactly | apps/web/components/dynamic-item-fields.tsx:124-140 | Of a whole saved payload, exactly the required blank texts and short file lists are reported |
| FieldCodec.MissingInOrder | apps/web/components/dynamic-item-fields.tsx:124-140 | They are reported in the order of the fields |
| DatasetPages.FetchAllDatasetTypes | apps/admin/lib/dataset-type-pages.ts:47-93 | The loop gives the sweep's result, with its number of requests, against any server |
| DatasetPages.SweepTells | apps/admin/lib/dataset-type-pages.ts:65-93 | Against any server: a collected list is the rows of all answers in order with the last one's count, a failure has the status of the first refusal, and it is asked on exactly while rows are missing, the last page was full and the ceiling is not reached |
| DatasetPages.SweepHonest | apps/admin/lib/dataset-type-pages.ts:47-93 | At most 40 requests; a list is called truncated exactly when it is shorter than the last reported total |
| DatasetPages.StableSweep | apps/admin/lib/dataset-type-pages.ts:47-93 | Over a fixed table: the whole table in order up to 8000 rows, otherwise its first 8000 rows flagged |
| DatasetPages.UncountedSweep | apps/admin/lib/dataset-type-pages.ts:76-84 | With no reported total: one request, unflagged, and whole exactly when it fits one page |
| CatalogPages.PageSizeNearest | apps/landing/lib/public-data.ts:371 | A size asked for becomes the nearest one in 1 to 48; none asked for is 12 |
| CatalogPages.FirstNearest | apps/landing/lib/public-data.ts:372-420 | The first page loaded is the nearest one to the page asked for, 1 by default, that the offset ceiling allows |
| CatalogPages.PageCountFits | apps/landing/lib/public-data.ts:407 | The page count is the least one that holds the total, and at least 1 |
| CatalogPages.RequestsAccepted | apps/landing/lib/public-data.ts:370-440 | For every query and server: one or two loads, every limit and offset one the routes accept; the second load is of the last page, exactly if the first answer has rows but not so many pages; the last answer decides, and an error is blamed on the query, the rate limit or neither |
| CatalogPages.StableFetch | apps/landing/lib/public-data.ts:419-441 | Over a fixed list the page shown is the one asked for pulled back to the ceiling and the last page, holds exactly its slice, and is not empty |
| CatalogPages.PagesTile | apps/landing/lib/public-data.ts:370-440 | Browsing page by page shows every row below the ceiling once, in order; all rows exactly when the last page starts within the ceiling |
| Sitemap.Build | apps/landing/app/sitemap.ts:67-84 | The loop ends for every server that answers and gives the crawl's entries and queries |
| Sitemap.CrawlTells | apps/landing/app/sitemap.ts:67-84 | For every server: the map is the base and the profiles of all answers in order; each query asks for what fits from the last answer's cursor; asking stops only at the cap or where an answer fails or leads no further |
| Sitemap.CrawlBounded | apps/landing/app/sitemap.ts:67-84 | For every server: limits in 1 to 500, earlier entries kept, bounded requests, and at most 50,000 entries if the server honours limits |
| Sitemap.FeedAfter | apps/api/src/routes/v1/profiles.ts:32-47 | Asking on from a handle of the feed gives exactly the profiles after it |
| Sitemap.FeedAscends | apps/api/src/routes/v1/profiles.ts:35-43 | The feed's handles ascend, so no profile is listed twice |
| Sitemap.CrawlComplete | apps/landing/app/sitemap.ts:67-84 | Over fixed members: the base, then the public profiles in order, as many as fit below the cap |
| Dedupe.DedupeById | apps/landing/lib/public-data.ts:277-288 | The loop over a set keeps exactly the rows that repeat no earlier id |
| Dedupe.Places | apps/landing/lib/public-data.ts:280-286 | The places kept are, ascending, exactly those that repeat no earlier id |
| Dedupe.FirstsAtPlaces | apps/landing/lib/public-data.ts:277-288 | What is left is the subsequence of the input at those places |
| Dedupe.FirstsKeep | apps/landing/lib/public-data.ts:277-288 | Every id is kept with its earliest row, and every row without an id is kept |
| Dedupe.FirstsUnique | apps/landing/lib/public-data.ts:277-288 | No id occurs twice in what is left |
| Dedupe.FirstsFixed | apps/landing/lib/public-data.ts:277-288 | A list is unchanged if and only if no id repeats in it |
| Dedupe.FirstsIdempotent | apps/landing/lib/public-data.ts:277-288 | A second pass changes nothing |
| Dedupe.FirstSourceWins | apps/landing/lib/public-data.ts:252-256 | Of two joined sources, the first one's rows are shown in full, in front |
| SeedCatalog.DatasetTypes.Seed | apps/api/prisma/seed-catalog.ts:109-138 | The loop leaves the seeded table; created counts the ids that had no row, and created plus updated is the catalog's size |
| SeedCatalog.SeededRow | apps/api/prisma/seed-catalog.ts:61-138 | The whole effect on any row: outside the catalog none; inside it the file's data, unnamed columns kept, set scores kept in pairs, both-null scores priced when a price exists |
| SeedCatalog.SeededTwice | apps/api/prisma/seed-catalog.ts:109-138 | A second run changes no row, even if two files name one id |
| Countdown.Countdown.Pump | apps/admin/lib/use-expiry-countdown.ts:98-107 | The time shown and the monotonic time since the anchor add up to the time there was; zero is shown, and ticking ends, exactly when none is left |
| Countdown.RunReads | apps/admin/lib/use-expiry-countdown.ts:90-117 | For every schedule of ticks and every wall clock, what is shown is the anchor's reading at the last due tick, though cleared ticks never run |
| Countdown.RunNeverRises | apps/admin/lib/use-expiry-countdown.ts:90-117 | Readings never rise, fall by no more than the time passed, and stay at zero once there |
| Countdown.ExpiresOnTime | apps/admin/lib/use-expiry-countdown.ts:92-98 | Zero is shown exactly when the clock of the anchor has reached the deadline: the server's, or the device's if the server's is not known |
| Countdown.LabelDecodes | apps/admin/lib/use-expiry-countdown.ts:48-54 | A label reads back as the n with n to n + 1 seconds left, none when less than one is; two digits below 60 whenever minutes are shown, and no other zero in front |
| Countdown.LabelWidth | apps/admin/lib/use-expiry-countdown.ts:46-54 | The label keeps its width while its minutes stay the same |
| Karma.TierFor | apps/landing/lib/karma.ts:85-91 | The loop finds the last tier in list order that the points reach, or the first tier |
| Karma.TierForLive | apps/landing/lib/karma.ts:135-142 | The same over the live ladder, and over the built-in one only if there is none |
| Karma.HighestExactly | apps/landing/lib/karma.ts:135-142 | With distinct floors, every balance gets the highest tier it reaches if and only if the ladder ascends |
| Karma.StandingMonotone | apps/landing/lib/karma.ts:85-91 | More points never mean a lower tier |
| Karma.TierRange | apps/api/src/services/karma.ts:859-864 | A balance has a tier if and only if it lies in the range by which the leaderboard filters that tier |
| Karma.PctHonest | apps/landing/lib/format.ts:19-23 | 100 exactly when the target is met, 0 without one; otherwise the nearest percentage of at most 99, the larger of two; never falling as the count grows |
| Karma.ProgressHonest | apps/landing/lib/karma.ts:98-114 | Below the top, points plus remaining is the next floor and the bar is the percentage in 0 to 99 nearest to the way gone; it is 100 exactly at the top |
| Karma.ProgressMonotone | apps/landing/lib/karma.ts:98-114 | Within a tier the bar never falls and the remainder never grows while points grow |

## Left out

- SHA-256 and date formatting are functions that the model does not look into; that they do not collide is an assumption of the tamper theorems.
- JSON numbers keep the text they are written with, so that floating-point printing is not modelled; repeated keys in parsed objects are kept as written.
- `undefined`, `bigint` and `Date` inside canonicalized audit values: the rows are modelled as read from JSON columns, which hold none.
- Config.BudgetsFit: budgets are exact reals, so that the rounding of floating-point products is not modelled.
- Karma.PctHonest: percentages are exact rationals rounded half up, without floating-point error.
- A failing read of the newest audit row (apps/api/src/lib/audit-log.ts:70-72): PostgreSQL refuses the rest of such a transaction, so nothing of it is committed.
- Rows written between the reset script's read and its write-back; the script is an operator's one-off.
- The payload, last error and start and finish times of a job; two jobs created at the same instant are taken in the order of the table.
- JobQueue.Queue.Claim: the race for a row between the search and the guarded write; it is modelled step by step in `Workers`.
- Workers.OneWorkerPerJob: the read and the write of `fail` are one step, and time is counted in whole milliseconds.
- DrainLoop.HeartbeatAge: the instant stored by a heartbeat is taken to be that of the throttle's reading just before it.
- Config.ValidationNeverDoubled: a lease is taken in whole milliseconds, as it is stored, so two leases that differ by a fraction would share a group of the plan; that validations and proofs keep to their timeouts is the theorem's premise; the handlers' own bodies are not modelled.
- FieldCodec.PayloadRoundTrip: payload values are texts and lists of texts, which is what the form writes; other JSON in a stored payload is not modelled.
- CatalogPages.StableFetch: the mapping of rows to cards, the filter lists and the queue totals, which only copy fields.
- Sitemap.CrawlComplete: handles are taken to be 1 to 80 characters long, which apps/api/src/services/public-handles.ts:48-60 guarantees (3 to 20); a longer one would be refused as a cursor and end the crawl.
- SeedCatalog.SeededRow: `updatedAt`, which the database moves on every write, and constraint errors of the database.
- Countdown.RunReads: React's scheduling; a remount starts a new countdown.
- React rendering, navigation, HTTP wiring, authentication, sweeps other than the job loop, and static catalogs: no deep state.

# EarnProof backend: verified models

A Dafny model of the parts of the EarnProof backend whose guarantees hold over whole
runs, with proofs of those guarantees. `dafny verify dfyconfig.toml` checks everything.

| module | what it is |
|---|---|
| `Sorting`, `Text` | stable sorting by a strict order; UTF-16 text, decimal and hexadecimal forms, joining and splitting |
| `Json`, `Canonical` | JavaScript values, `JSON.stringify`, a JSON parser, and the canonical form audit hashes are taken over |
| `AuditChain`, `AuditVerification`, `AuditStore`, `AuditBackfill` | the audit hash chain: linking, the paged verifier, the locked append with retention, the batched backfill |
| `BoundedSearch`, `AuditGraph` | breadth-first search with a depth limit, and the correlation graph built on it |
| `WebhookSignature`, `DeliveryStore`, `Receiver` | signing and verifying webhooks, remembering delivery ids, and the receiver that combines them |
| `ConfigRollout`, `RolloutService` | gates and staged transitions, and the versioned store every caller commits through |
| `WalletRotation`, `WalletRotationRuns`, `WalletRotationTraces` | the two-key wallet rotation, every interleaving of its steps, and what the outcome owes to what callers did |
| `Sessions`, `SessionTraces` | session rotation chains and revocation, and the steps they come from |
| `Approvals`, `ApprovalTraces` | two-person approval with an execution lease, and the steps behind every row |
| `ConfigSnapshot`, `ConfigPartition`, `ConfigDocument`, `ConfigDiff` | flattening a configuration, which setting ends up where, signed snapshots, and semantic diffs |
| `PrivacyBudget` | the sliding-window limiter on verification metadata |

## Main results

- The canonical text identifies a value's content (`Canonical.CanonicalTextIdentifiesContent`); any
  table the audit verifier accepts with the newest hash ever written tells the last records that
  callers appended, in every hashed column (`AuditStore.AcceptedTableIsHistory`); exactly what a hash sees of
  a row (`AuditChain.EqualHashIff`): not its id, organization, correlation and parent, and no own
  `__proto__` key, so those can differ unnoticed (`AuditChain.RelabelledRowsEscape`,
  `AuditChain.PlantedKeyEscapes`); the paged verifier refines a
  single pass, and its verdict is the only one that explains the rows
  (`AuditVerification.VerifyChain`, `AuditVerification.VerdictIsUnique`); appends, retention and backfill always leave
  chains that verify (`AuditStore.RunVerifies`, `AuditBackfill.BackfillExtendsChain`,
  `AuditBackfill.BackfillKeepsRecords`).
- The correlation graph is the exact bounded neighbourhood of where the query starts, with shortest
  distances (`AuditGraph.Traverse`, `AuditGraph.BuildCorrelationGraph`).
- A (timestamp, delivery id) pair is delivered at most once, with the exact bound on the TTL; a signed
  message is, exactly when it can be read in one way only (`DeliveryStore.RefusedIff`,
  `Receiver.AtMostOnce`, `Receiver.BoundIsTight`, `Receiver.DeliveredTwiceIff`).
- Over every history a rollout is promoted only through gates that held, and cohorts only grow
  (`RolloutService.PromotionsAreGated`, `RolloutService.CompletedIsFullyGated`,
  `RolloutService.CohortOnlyGrows`, `RolloutService.EveryWorldIsOk`); its events tell its rows, and a
  rollback is explained (`RolloutService.EventsTellRows`, `RolloutService.RollbackIsExplained`).
- Over every interleaving: a wallet changes only by an authorised, single-use rotation
  (`WalletRotationRuns.EveryRunIsSafe`, `WalletRotationRuns.WalletChangesAreAuthorised`), sessions
  form disjoint rotation chains (`Sessions.ChainsAreSimple`, `Sessions.ChainsNeverMerge`), and an
  approval is decided, leased and executed at most once (`Approvals.EveryRunIsSafe`). Each of the
  three is traced back to what callers asked for (`WalletRotationTraces.WalletsTraceToCallers`,
  `SessionTraces.SessionsTraceToCallers`, `ApprovalTraces.ExecutedWasApproved`).
- Flattening partitions the settings and withholds exactly what it should, snapshots verify,
  signatures pin them down, and differences are exact patches with inverses
  (`ConfigPartition.SettingsArePartitioned`, `ConfigPartition.ExclusionsAreExact`,
  `ConfigDocument.BuildThenVerify`, `ConfigDocument.SignaturePinsDocument`,
  `ConfigDiff.DiffIsExact`, `ConfigDiff.DiffLeadsToTarget`, `ConfigDiff.SwapIsInverse`, `ConfigDiff.IdenticalIff`).
- No window exceeds the privacy budget, and pruning is invisible
  (`PrivacyBudget.NoWindowExceedsBudget`, `PrivacyBudget.PruningIsInvisible`).

## How the model is built

- A transaction, and a conditional update, is one atomic step. Between a service's read and its
  write any other caller may take any number of steps. Runs are sequences of such steps, and the
  theorems are about all of them.
- Where the source changes rows, maps or lists in place, there is a class or a method with a loop,
  proved against a specification function; the theorems are about that function.
- Text is a sequence of UTF-16 code units, as in JavaScript. A finite number is the text the
  runtime prints for it; a stage percentage is a `real`.
- SHA-256 and HMAC are arbitrary functions. Where a theorem needs them not to collide, it says so
  for the finite set of texts that the statement is about. SHA-256 yields 64 hexadecimal digits. Signature checks, the ISO form of a
  date, secret-name and secret-value tests, random ids and clock readings are parameters.

## Where the code differs from what it says

- Canonical JSON is meant to stand for the whole value it is taken of. An own key named
  `__proto__` is lost, because `sorted[key] = …` invokes a setter (`Canonical.ProtoKeyIsLost`). The
  text is faithful exactly for values without such a key (`Canonical.CanonicalTextLossless`). So a
  `__proto__` key planted in audit metadata, or in the entries of a signed snapshot, is noticed by no
  hash (`AuditChain.PlantedKeyEscapes`, `ConfigDocument.PlantedEntryEscapes`); the theorems on both
  say exactly when what is accepted means what was written. Flattening loses a top-level setting of
  that name the same way (`ConfigPartition.ProtoSettingIsLost`).
- Wallet rotation writes its audit row with the transaction client's own `auditLog.create`, which
  takes the default chain position. That position is unique, so after one completed rotation every
  later one is rolled back and reported as an unavailable replacement, until something renumbers or
  removes that row (`WalletRotationRuns.CommitsExactlyWhen`, `WalletRotationRuns.OneCommitPerFreeSlot`,
  `WalletRotationRuns.SecondAccountIsRefused`).
- `initiate` says a superseded rotation can no longer be completed. That holds exactly for one that
  had not been consumed (`WalletRotationRuns.SupersededNeverCompletes`); one consumed before it was
  superseded still commits (`WalletRotationRuns.SupersededAfterConsumptionStillCommits`,
  `WalletRotationRuns.SupersededRunCommits`).
- An organization whose id is literally `SYSTEM` shares the chain of records without an organization
  (`AuditStore.ChainsAreSeparate`).
- `decide` says its expiry boundary matches the sweep's. At the exact instant of expiry a request is
  neither open to decision nor due for the sweep (`Approvals.ExpiryInstantIsNeither`).
- The bytes of a signed webhook message can be read as another id and body exactly when its delivery
  id has a dot, or its body has one after bytes that are text (`WebhookSignature.AmbiguousIff`). The
  other reading verifies, and the receiver delivers the message twice, exactly when the part of the
  id before such a dot, or the id continued up to such a dot of the body, can itself be received as a
  delivery id: not empty, not surrounded by white space, and made of characters that an HTTP header
  may hold (`WebhookSignature.AmbiguousDeliveryIff`, `Receiver.DeliveredTwiceIff`).
- A literal `GENESIS` link hashes like a missing one (`AuditChain.GenesisLinkIsAmbiguous`).
- At-most-once delivery needs a TTL of twice the tolerance plus the lag between the receiver's two
  clock readings (`Receiver.BoundIsTight`); the privacy budget needs a clock that brings no
  grant back (`PrivacyBudget.ClockMustNotStepBack`, `PrivacyBudget.JudgedByHistoryIff`); the early-exit sweep is exact exactly when no
  expired entry stands behind a live one (`DeliveryStore.SweepIsExactIff`).

## Model

| member | source | states |
|---|---|---|
| Json.StringRoundTrip | src/audit/audit-chain.ts:54-56 | a string escaped as in section 7 of RFC 8259 is read back unchanged, whatever follows it |
| Json.PrintParse | src/audit/audit-chain.ts:54-56 | the parser undoes the printer on every printable value, consuming exactly its text |
| Json.EntriesParse | src/audit/audit-chain.ts:54-56 | the members of a printed object are read back in order, undefined ones left out |
| Canonical.CanonicalParses | src/audit/audit-chain.ts:54-74 | the canonical text is valid JSON for the normal form, with nothing left over |
| Canonical.CanonicalTextIdentifiesContent | src/audit/audit-chain.ts:54-74 | two values have the same canonical text if and only if they have the same JSON content |
| Canonical.NormalKeepsContent | src/audit/audit-chain.ts:58-74 | sorting keys deeply keeps the content |
| Canonical.StorageKeepsText | src/audit/audit-chain.ts:54-98 | a trip through JSON storage does not change the canonical text |
| Canonical.EquivalentSameText | src/audit/audit-chain.ts:54-74 | key order, undefined-valued keys and Date against ISO string make no difference to the text |
| Canonical.CanonicalTextLossless | src/audit/audit-chain.ts:58-74 | nothing of the value is lost if and only if no object in it has an own key `__proto__` |
| Canonical.ProtoKeyIsLost | src/audit/audit-chain.ts:58-74 | two different objects with the same canonical text |
| Canonical.CanonicalKeysInOrder | src/audit/audit-chain.ts:58-74 | the canonical text, read back, lists the keys of every object at every depth in ascending order: array indices first and by number, the others by the first code unit in which they differ |
| Text.LexMeaning | src/audit/audit-chain.ts:66-66 | the order of keys and paths is decided by the first code unit in which two strings differ |
| AuditChain.CanonicalRecordDeterminesRecord | src/audit/audit-chain.ts:85-98 | two records have the same canonical text if and only if they agree on every hashed field and on metadata content |
| AuditChain.RecordNamesFields | src/audit/audit-chain.ts:85-98 | the canonical record is JSON with exactly ten fields, each hashed value under its own name |
| AuditChain.HashedTextNamesColumns | src/audit/audit-chain.ts:106-120 | what is hashed for a row is its link, a bar, and JSON that gives each hashed column of the row under its name |
| AuditChain.AuditHasher | src/audit/audit-chain.ts:106-120 | the audit hash is SHA-256 of link, bar and record for version 1, and refuses every other version |
| AuditChain.BarSplits | src/audit/audit-chain.ts:106-120 | the bar that ends a link cannot be confused with one inside a record, whatever the link contains |
| AuditChain.LinkedTextInjective | src/audit/audit-chain.ts:106-120 | for any links at all, two hashed texts are equal if and only if the links are, an absent one counting as GENESIS, and the records are the same |
| AuditChain.TamperEvidence | src/audit/audit-verification.service.ts:95-185 | a table that verifies and ends in the original's newest hash is a suffix of the original chain in every hashed column; the first link is as stored if and only if it is not the literal GENESIS; against an original without `__proto__` keys a row's metadata means the same if and only if it has none either |
| AuditChain.PlantedKeyEscapes | src/audit/audit-verification.service.ts:95-185 | planting any own `__proto__` key in any row of any chain whose metadata is an object without such a key leaves a chain that verifies with every hash as it was and another meaning |
| AuditChain.SameRowIff | src/audit/audit-chain.ts:34-48 | what being the same row means above: every column agrees but id, organization, correlation and parent, and metadata does up to content |
| AuditChain.EqualHashIff | src/audit/audit-chain.ts:85-120 | two rows that hash correctly have the same hash if and only if their links read the same, their other columns agree but for id, organization, correlation and parent, and their metadata has the same content |
| AuditChain.RelabelledRowsEscape | src/audit/audit-verification.service.ts:95-185 | giving any rows of any chain other ids, organizations, correlations and parents leaves a chain that verifies with every hash and every metadata as it was |
| AuditChain.GenesisLinkIsAmbiguous | src/audit/audit-chain.ts:106-120 | why a link must be null or a digest: a literal GENESIS link hashes like an absent one |
| AuditVerification.PageIsSlice | src/audit/audit-verification.service.ts:68-94 | reading after the last checked sequence gives the rest of the chain in order |
| AuditVerification.FirstFault | src/audit/audit-verification.service.ts:95-185 | the fault found is the lowest-sequence one: every row before it is sound |
| AuditVerification.WalkPage | src/audit/audit-verification.service.ts:95-185 | one page either extends the clean walk or stops with the result of a single pass |
| AuditVerification.VerifyChain | src/audit/audit-verification.service.ts:55-200 | for every table with unique sequences and every page size the paged walk returns what one pass over all rows returns, and that explains the rows: ok exactly for a segment, else the first bad row and whether its hash, its link or its number is wrong |
| AuditVerification.OnePassExplains | src/audit/audit-verification.service.ts:95-200 | one pass tells the truth: the rows before a break form a segment, the break names the row, and each reason is given exactly when it applies; an unknown version throws exactly when it comes first |
| AuditVerification.VerdictIsUnique | src/audit/audit-verification.service.ts:95-200 | no other report would be true: two outcomes that explain the same rows are equal in every field |
| AuditVerification.OkMeansSegment | src/audit/audit-verification.service.ts:95-200 | ok if and only if the rows hash, link and number as a chain segment; the retention flag is exactly that the oldest row is not the first |
| AuditStore.AuditDb.AppendAuditLog | src/database/prisma.service.ts:88-156 | one locked append adds a row that carries every column the caller passed, in the chain of its organization, numbered and linked after the cursor, and moves the cursor to it |
| AuditStore.AuditHashIsGenuine | src/audit/audit-chain.ts:106-120 | the audit hash depends on metadata only through its content and is a digest |
| AuditStore.AppendedRowHashes | src/database/prisma.service.ts:112-147 | a row read back from storage rehashes to the hash computed before it was stored |
| AuditStore.AppendsBuildChains | src/database/prisma.service.ts:88-156 | any interleaving of appends numbers every chain 1..n and leaves its cursor at row n |
| AuditStore.RowsCarryRecords | src/database/prisma.service.ts:88-156 | row k of a chain carries, column by column, what the caller of the k-th append to that chain passed |
| AuditStore.ChainsAreSeparate | src/audit/audit-chain.ts:24-31 | two organizations share a chain if and only if they are the same or neither has an id of its own, and an append changes another organization's chain exactly then |
| AuditStore.RetentionDropsExactly | src/audit/audit-verification.service.ts:42-50 | a retention run deletes exactly the rows of its chain below its bound |
| AuditStore.RetentionLeavesSuffix | src/database/prisma.service.ts:88-156 | with retention interleaved anywhere, what remains is a suffix of what was written and cursors are untouched |
| AuditStore.RunVerifies | src/audit/audit-verification.service.ts:55-200 | after any run every chain verifies, with the retention flag set exactly when rows were removed and some remain |
| AuditStore.AcceptedTableIsHistory | src/audit/audit-verification.service.ts:55-200 | any table the verifier accepts with the newest hash ever written tells, row for row and under the same numbers, the last records that callers addressed to the chain; link and metadata are as written exactly when tamper evidence says so |
| AuditBackfill.PlacedIsSegment | scripts/migrations/backfill-audit-log-chain.ts:63-95 | rows placed one after another continue the chain from any position |
| AuditBackfill.BackfillBatch | scripts/migrations/backfill-audit-log-chain.ts:63-95 | one batch rewrites exactly the next rows of the queue and returns the position after them |
| AuditBackfill.BackfillBatches | scripts/migrations/backfill-audit-log-chain.ts:52-98 | for every batch size the loop terminates having processed the whole queue |
| AuditBackfill.BackfillSystemChain | scripts/migrations/backfill-audit-log-chain.ts:43-109 | the script numbers every waiting row after the cursor in (createdAt, id) order and returns how many there were |
| AuditBackfill.BackfillExtendsChain | scripts/migrations/backfill-audit-log-chain.ts:43-109 | the result is the old chain followed by the waiting rows, it verifies, the cursor is at its end, and sequences stay unique in the whole table |
| AuditBackfill.BackfillKeepsRecords | scripts/migrations/backfill-audit-log-chain.ts:43-109 | no row is lost, doubled or rewritten in what it says; exactly the system rows without a place get one, and of two the older comes first, or the one with the smaller id |
| AuditBackfill.OtherChainsUntouched | scripts/migrations/backfill-audit-log-chain.ts:43-109 | rows of other chains are left alone |
| AuditBackfill.BackfillIsIdempotent | scripts/migrations/backfill-audit-log-chain.ts:43-109 | a second run finds nothing waiting and changes nothing |
| BoundedSearch.PoppedIsShortest | src/audit/audit-graph.service.ts:115-124 | the vertex popped is labelled with its shortest hop distance, duplicates in the queue notwithstanding |
| BoundedSearch.Expand | src/audit/audit-graph.service.ts:163-249 | enqueueing the unvisited hops of a visited vertex, in any order and with repetitions, keeps the search invariant |
| BoundedSearch.ClosestFirst | src/audit/audit-graph.service.ts:115-147 | whatever is nearer than a visited vertex is visited too |
| BoundedSearch.Exhausted | src/audit/audit-graph.service.ts:115-252 | when the queue runs empty the visited vertices are exactly those within the depth limit |
| AuditGraph.ExpandRecord | src/audit/audit-graph.service.ts:163-249 | expanding a row adds exactly its parent, child and correlation edges, missing links and unvisited neighbours |
| AuditGraph.ExpandChildren | src/audit/audit-graph.service.ts:199-221 | one edge and at most one queue entry per child, in order |
| AuditGraph.ExpandCorrelated | src/audit/audit-graph.service.ts:224-249 | a correlation edge is added only where neither direction is present |
| AuditGraph.Turn | src/audit/audit-graph.service.ts:115-252 | one turn of the loop: skip, stop at the node limit, keep without expanding, or expand |
| AuditGraph.TurnKeeps | src/audit/audit-graph.service.ts:115-250 | every turn keeps the search invariant, or stops at the node limit with what was found so far still exact |
| AuditGraph.TurnProgresses | src/audit/audit-graph.service.ts:115-250 | a turn that does not stop visits one more row or shortens the queue |
| AuditGraph.Loop | src/audit/audit-graph.service.ts:106-250 | the loop ends where turning from the roots ends |
| AuditGraph.Traverse | src/audit/audit-graph.service.ts:99-252 | the search terminates with at most `limit` same-tenant rows at their shortest distances; fewer than `limit` rows are the whole neighbourhood with exactly its edges; at the limit all but the last row have their edges, and there is a cursor exactly when more was queued |
| AuditGraph.DeduplicateEdges | src/audit/audit-graph.service.ts:292-305 | keeps the first edge of each key |
| AuditGraph.FirstByKeyElements | src/audit/audit-graph.service.ts:292-305 | deduplication keeps only given edges and loses no key |
| AuditGraph.FirstByKeyDistinct | src/audit/audit-graph.service.ts:292-305 | no key is kept twice |
| AuditGraph.EdgeKeyInjective | src/audit/audit-graph.service.ts:292-305 | keys tell edges apart when node ids contain no `>` |
| AuditGraph.Clamp | src/audit/audit-graph.service.ts:59-60 | an absent limit is the default, one below range is 1, one above is the most, any other itself |
| AuditGraph.AnswerQuery | src/audit/audit-graph.service.ts:99-266 | the answer holds at most `limit` rows as stored, each at its shortest distance, nearest first, with deduplicated edges that name relations the rows have; when it holds fewer, it is the whole neighbourhood with exactly its edges and missing links; when it is cut short, so is all but its last row, which is the cursor if there is one |
| AuditGraph.BuildCorrelationGraph | src/audit/audit-graph.service.ts:49-268 | exactly when a query is refused or not found; the depth, limit and direction are those asked for or the nearest allowed; the rows at depth 0 are exactly the root, or the first rows of the correlation; and what every answer contains |
| AuditGraph.HopsAreRelations | src/audit/audit-graph.service.ts:163-249 | a hop of the graph is one of the three recorded relations between two rows of the tenant |
| AuditGraph.EdgesAreRelations | src/audit/audit-graph.service.ts:163-249 | an edge is justified only if the relation it names holds between its two rows, and exactly then when no list is cut short |
| WebhookSignature.Utf8Injective | scripts/webhook-receiver/verifier.ts:154-163 | well-paired texts have different UTF-8 bytes |
| WebhookSignature.Utf8IsStandard | scripts/webhook-receiver/verifier.ts:154-163 | text becomes the bytes of its code points as section 3 of RFC 3629 has them, a lone surrogate those of U+FFFD |
| WebhookSignature.FromHex | scripts/webhook-receiver/verifier.ts:126-139 | decoding hexadecimal digits is undone by encoding |
| WebhookSignature.SigningBaseReadings | scripts/webhook-receiver/verifier.ts:154-163 | two messages have the same signed bytes if and only if they agree, up to moving the split between id and body from one dot to another |
| WebhookSignature.SigningBaseInjective | scripts/webhook-receiver/verifier.ts:154-163 | equal signed bytes have one timestamp, and one id and body if the ids are equally long or have no dots |
| WebhookSignature.DottedIdIsAmbiguous | scripts/webhook-receiver/verifier.ts:154-163 | for every id with a dot: the part after the dot can be read as the start of the body |
| WebhookSignature.DottedBodyIsAmbiguous | scripts/webhook-receiver/verifier.ts:154-163 | for every body with a dot after text: that text can be read as the rest of the id |
| WebhookSignature.AmbiguousIff | scripts/webhook-receiver/verifier.ts:154-163 | a signed message has another reading if and only if its id has a dot or its body has one after bytes that are text |
| WebhookSignature.AmbiguousDeliveryIff | scripts/webhook-receiver/verifier.ts:94-163 | the same among readings the receiver can be sent and would accept, with the exact condition on id and body |
| WebhookSignature.VerifyWebhookSignature | scripts/webhook-receiver/verifier.ts:94-144 | the loop over all secrets returns what one comparison against the list would, with a tolerance of five minutes unless another is given |
| WebhookSignature.VerifiedIff | scripts/webhook-receiver/verifier.ts:94-144 | a delivery verifies if and only if its trimmed headers are a non-empty id, the decimal of a safe timestamp within tolerance, and the sender's header under an accepted secret |
| WebhookSignature.RejectedIff | scripts/webhook-receiver/verifier.ts:94-144 | which refusal a delivery gets: each reason exactly when it is the first that applies |
| WebhookSignature.SignThenVerify | scripts/webhook-receiver/verifier.ts:171-181 | what the sender signs verifies under any list holding its secret, within tolerance |
| DeliveryStore.DeliveryIdStore.constructor | scripts/webhook-receiver/verifier.ts:207-210 | a new store is empty, with the given limits or the defaults |
| DeliveryStore.DeliveryIdStore.Register | scripts/webhook-receiver/verifier.ts:218-241 | sweep, duplicate test, re-insertion and capacity eviction give the specified map and answer |
| DeliveryStore.DeliveryIdStore.EvictExpired | scripts/webhook-receiver/verifier.ts:243-252 | the loop stops at the first live entry |
| DeliveryStore.SweepIsExact | scripts/webhook-receiver/verifier.ts:243-252 | on entries in time order it removes exactly the expired ones |
| DeliveryStore.SweepIsExactIff | scripts/webhook-receiver/verifier.ts:243-252 | it removes exactly the expired entries if and only if none of them stands behind a live one |
| DeliveryStore.StoreRemembers | scripts/webhook-receiver/verifier.ts:202-252 | after any run on a nondecreasing clock the map holds exactly the newest, unexpired accepted entries |
| DeliveryStore.RefusedIff | scripts/webhook-receiver/verifier.ts:218-241 | an id is refused if and only if it is among the last `maxEntries` accepted ones with age at most the TTL |
| DeliveryStore.StoreIsBounded | scripts/webhook-receiver/verifier.ts:218-252 | the map never exceeds its bound and stays in time order |
| Receiver.WebhookReceiver.Handle | scripts/webhook-receiver/receiver.ts:179-216 | verify, then register, then deliver: the callback runs exactly for new verified deliveries |
| Receiver.AtMostOnce | scripts/webhook-receiver/receiver.ts:181-216 | a (timestamp, delivery id) pair is delivered again only after `maxEntries` other deliveries, if the TTL is at least twice the tolerance plus the lag |
| Receiver.AtMostOncePerMessage | scripts/webhook-receiver/receiver.ts:181-216 | a signed message with one reading is delivered again only after `maxEntries` other deliveries |
| Receiver.DeliveredTwiceIff | scripts/webhook-receiver/receiver.ts:181-216 | with a long enough TTL, one signature over one message is delivered twice in a row if and only if the id before one of its dots, or the id continued to a dot of the body, is a delivery id an HTTP header can carry |
| Receiver.BoundIsTight | scripts/webhook-receiver/receiver.ts:181-216 | a request sent at both ends of its tolerance is delivered twice if and only if the TTL is smaller than that |
| Receiver.RefusedLeaveNoTrace | scripts/webhook-receiver/receiver.ts:181-216 | removing every request that fails verification changes no other outcome and no stored entry |
| ConfigRollout.AssertValidStages | src/deployments/config-rollout.ts:54-69 | accepts exactly one to ten strictly increasing whole percentages from 1 to 100 that end at 100, and names a defect that is there |
| ConfigRollout.CohortIsShare | src/deployments/config-rollout.ts:75-88 | of ten thousand positions exactly `percent` in a hundred are in the cohort: all at 100, none at 0, and whoever is in stays in as the percentage grows |
| ConfigRollout.IndexChecks | src/deployments/config-rollout.ts:127-136 | the first check of each name, and one failure per repetition |
| ConfigRollout.EvaluateGate | src/deployments/config-rollout.ts:121-151 | the three loops produce the specified failures in order |
| ConfigRollout.GatePassesIff | src/deployments/config-rollout.ts:121-151 | passes if and only if every check name occurs once, every required one is there, and each is passing, fresh and observed between stage start and evaluation |
| ConfigRollout.FailuresAreExact | src/deployments/config-rollout.ts:121-151 | the failures reported are exactly the defects of the evidence, each reason spelled out, sorted by check and then by reason |
| RolloutService.GateColumnsRoundTrip | src/deployments/config-rollout.store.ts:249-273 | a gate survives its columns if and only if its event id is not empty |
| RolloutService.RolloutStore.CreateRollout | src/deployments/config-rollout.store.ts:132-143 | inserts rollout and event together, exactly when its id is new and no other rollout is open in its environment |
| RolloutService.StartRollout | src/deployments/config-rollout.service.ts:182-231 | refuses invalid stages, the active snapshot and an environment with an open rollout, each exactly when; otherwise stores the rollout asked for at its first stage |
| RolloutService.RolloutStore.Transition | src/deployments/config-rollout.store.ts:167-177 | compare-and-swap on id and version; row and event change together, exactly when the version read is the present one and the environment has no other open rollout |
| RolloutService.CommitDecision | src/deployments/config-rollout.service.ts:233-311 | a decision on any earlier read is refused, rejected as stale, or committed with its event; the next three rows say what is decided |
| RolloutService.GateDecision | src/deployments/config-rollout.service.ts:233-262 | exactly when a gate is recorded and which refusal it gets otherwise; the rollout goes on or is blocked as the gate rule says, with the failures as evidence, and nothing else changes |
| RolloutService.PromotionDecision | src/deployments/config-rollout.service.ts:264-282 | exactly when a stage is promoted and which refusal it gets otherwise; the last stage completes the rollout, any other gives way to the next, and nothing else changes |
| RolloutService.RollbackDecision | src/deployments/config-rollout.service.ts:287-311 | exactly when a rollback is accepted and which refusal it gets otherwise; it closes the rollout, its event says what is restored and abandoned, and nothing else changes |
| RolloutService.DecideFrame | src/deployments/config-rollout.ts:166-236 | what a decision may change: one version up, at most one stage up, never from a closed rollout |
| RolloutService.ClosedIsFinal | src/deployments/config-rollout.ts:166-171 | a closed rollout never changes |
| RolloutService.EventsTellRows | src/deployments/config-rollout.ts:160-236 | in every history the kind of each event tells the status it left, closing times are set exactly for closed rows, and the stage moves exactly at promotions |
| RolloutService.RollbackIsExplained | src/deployments/config-rollout.service.ts:287-311 | a rolled-back rollout tells everyone the baseline, and its last event names the event just before it as the failed gate exactly when it was blocked |
| RolloutService.LastGateWasPassed | src/deployments/config-rollout.ts:172-194 | a passing gate on a row was recorded by an earlier event of the same stage |
| RolloutService.PromotionsAreGated | src/deployments/config-rollout.service.ts:233-281 | every promotion and completion names an earlier passed gate of the stage it leaves, still valid, whose evidence satisfied the rule |
| RolloutService.CompletedIsFullyGated | src/deployments/config-rollout.ts:201-225 | a completed rollout passed a gate in every stage, still valid when the stage was left, and never failed one |
| RolloutService.GatesInStageOrder | src/deployments/config-rollout.ts:201-225 | gates of later stages come later |
| RolloutService.CohortOnlyGrows | src/deployments/config-rollout.service.ts:349-366 | an instance told to run the new snapshot stays told so until completion tells all, or rollback tells all the baseline |
| RolloutService.CohortIsExact | src/deployments/config-rollout.service.ts:349-366 | while a rollout is open, exactly the instances in the share of its stage are told to run the new snapshot |
| RolloutService.CommittedReadIsCurrent | src/deployments/config-rollout.store.ts:167-177 | a commit succeeds only on the current row |
| RolloutService.EveryWorldIsOk | src/deployments/config-rollout.store.ts:132-177 | after any interleaving each rollout's rows are a history with one event per version, and no environment has two open rollouts |
| RolloutService.AcceptedExactlyOnce | src/deployments/config-rollout.store.ts:167-177 | an accepted decision raises the version by one and appends one event, so the version counts the events after creation |
| WalletRotation.RolesNeverShareAMessage | src/auth/wallet-rotation.service.ts:321-346 | no message for a current wallet equals any message for a replacement wallet |
| WalletRotation.MessageBindsEverything | src/auth/wallet-rotation.service.ts:321-346 | with fields free of line breaks a message determines the role and every field it binds |
| WalletRotation.RotationTables.InitiateRotation | src/auth/wallet-rotation.service.ts:88-152 | refuses bad requests; otherwise supersedes exactly the account's pending rotations and adds one with the terms asked for, two messages and five minutes to complete |
| WalletRotation.RotationTables.RecordFailure | src/auth/wallet-rotation.service.ts:363-377 | marks a pending rotation failed and leaves any other status alone |
| WalletRotation.RotationTables.CommitRotation | src/auth/wallet-rotation.service.ts:237-301 | the transaction's writes are kept all together or not at all, which refusal comes first, and every row that changes: wallet, revoked sessions and their number, the completed rotation and those it supersedes |
| WalletRotation.RotationTables.Complete | src/auth/wallet-rotation.service.ts:154-315 | consume, check, commit or record, in that order, with the outcome of each check |
| WalletRotation.CompleteIsExact | src/auth/wallet-rotation.service.ts:154-315 | every answer of an uninterrupted call exactly when, reason by reason in the order they are found, and what the tables hold afterwards |
| WalletRotationRuns.AloneIsThreeSteps | src/auth/wallet-rotation.service.ts:154-315 | an uninterrupted call is its three atomic steps in a row, in the tables and in its answer |
| WalletRotationRuns.EveryRunIsSafe | src/auth/wallet-rotation.service.ts:124-314 | in every reachable state: distinct wallets, unbroken old-to-new chains ending in the present wallet, every logged completion consumed once, in time, with both signatures valid, and every COMPLETED row logged |
| WalletRotationRuns.CompletedRowsAreJustified | src/auth/wallet-rotation.service.ts:165-314 | a rotation is COMPLETED if and only if it is in the log, and then it was consumed in time and passed every check |
| WalletRotationRuns.WalletChangesAreAuthorised | src/auth/wallet-rotation.service.ts:165-314 | a step that changes a wallet is the commit of that account's own rotation, issued for the wallet it held, signed over two different messages, and it leaves no live session |
| WalletRotationRuns.FailedAttemptsChangeNothing | src/auth/wallet-rotation.service.ts:165-377 | an attempt that does not commit changes neither wallets nor sessions |
| WalletRotationRuns.CommitsExactlyWhen | src/auth/wallet-rotation.service.ts:188-301 | the exact condition under which a consumed rotation commits |
| WalletRotationRuns.OneCommitPerFreeSlot | src/auth/wallet-rotation.service.ts:282-310 | unless the default audit position is freed, at most one rotation ever completes |
| WalletRotationRuns.SecondAccountIsRefused | src/auth/wallet-rotation.service.ts:282-310 | for any two correctly signed rotations of two accounts: run from empty tables, the second is refused a wallet that nobody holds |
| WalletRotationRuns.SpentForever | src/auth/wallet-rotation.service.ts:165-178 | a consumed, superseded or failed rotation can never be consumed again |
| WalletRotationRuns.SupersededNeverCompletes | src/auth/wallet-rotation.service.ts:124-134 | a rotation superseded before it was consumed never completes |
| WalletRotationRuns.SupersededAfterConsumptionStillCommits | src/auth/wallet-rotation.service.ts:265-268 | one superseded after it was consumed is cancelled in the table and commits all the same |
| WalletRotationRuns.SupersededRunCommits | src/auth/wallet-rotation.service.ts:124-268 | for any correctly signed rotation and any newer request of the account: run from empty tables, the superseded rotation commits |
| WalletRotationRuns.OnePendingPerAccount | src/auth/wallet-rotation.service.ts:124-149 | at most one rotation of an account is pending at any time |
| WalletRotationTraces.WalletsTraceToCallers | src/auth/wallet-rotation.service.ts:88-315 | over any interleaving a wallet is the one its account signed up with, carried on by single-use rotations that callers of the account asked for, attempted within five minutes from the same network and origin with both keys' signatures over their own messages, and finished |
| Sessions.SessionTable.Create | src/auth/session.service.ts:65-87 | inserts an unrevoked, unlinked session of twelve hours or the lifetime given, unless id or token hash is taken |
| Sessions.SessionTable.Validate | src/auth/session.service.ts:103-141 | malformed, unknown, revoked, expired or accepted, each exactly when |
| Sessions.SessionTable.Revoke | src/auth/session.service.ts:169-177 | revokes one session and leaves an already revoked one as it was |
| Sessions.SessionTable.RevokeAll | src/auth/session.service.ts:252-260 | nothing of the account is left unrevoked, and only its unrevoked sessions change |
| Sessions.SessionTable.RevokeOther | src/auth/session.service.ts:347-378 | revokes one unrevoked session of the caller |
| Sessions.SessionTable.RevokeOthers | src/auth/session.service.ts:392-429 | only the current session, which must be unrevoked, is left; the others that were are counted |
| Sessions.SessionTable.Rotate | src/auth/session.service.ts:189-247 | which refusal, exactly when; otherwise the new session and the link to it are kept together and no other row changes |
| Sessions.SessionTable.DeleteExpired | src/auth/session.service.ts:296-301 | deletes exactly the expired rows, clears exactly the links to them and counts them |
| Sessions.RunKeeps | src/auth/session.service.ts:65-429 | every interleaving keeps links within one account, from revoked to later sessions, never two to the same one, each a committed rotation, and token hashes known to their one session |
| SessionTraces.SessionsTraceToCallers | src/auth/session.service.ts:65-247 | over any interleaving every session has the account, token and expiry that a caller asked for, and every link is a rotation that a caller of that account read and completed |
| Sessions.ChainsAreSimple | src/auth/session.service.ts:189-247 | a rotation chain repeats no session, belongs to one account, and only its last session can be unrevoked |
| Sessions.ChainsNeverMerge | src/auth/session.service.ts:189-247 | of two chains with the same end one is a suffix of the other |
| Sessions.RotationKeepsTheCount | src/auth/session.service.ts:198-245 | a rotation swaps one unrevoked session for one other, so their number stays |
| Sessions.OneSuccessorPerSession | src/auth/session.service.ts:198-245 | however many rotations of a session are in flight, at most one commits |
| Sessions.LosingRotationLeavesNoTrace | src/auth/session.service.ts:228-244 | the one that loses changes nothing, whenever it arrives |
| Sessions.RevokedForever | src/auth/session.service.ts:169-429 | a revoked session stays revoked or disappears |
| Sessions.RevokedTokenNeverValidates | src/auth/session.service.ts:103-141 | no later validation of a revoked session's token accepts it, whatever is deleted or created since |
| Sessions.CleanupIsInvisible | src/auth/session.service.ts:296-301 | deleting what has expired already changes no verdict on what is left and removes nothing usable |
| Sessions.RevocationIsComplete | src/auth/session.service.ts:252-429 | after revoking all, none is left; after revoking the others, at most the current one |
| Approvals.ApprovalTable.Create | src/approvals/approvals.service.ts:26-51 | a new request belongs to the user who created it, carries the payload hash given, is pending without a lease and expires after the minutes given or a day |
| Approvals.ApprovalTable.Decide | src/approvals/approvals.service.ts:87-144 | which error or decision each request gets when nobody interferes, and that the call is its read followed by its write |
| Approvals.ApprovalTable.WriteDecision | src/approvals/approvals.service.ts:107-135 | the conditional update on whatever the row has become since the read: decided exactly if pending and before its expiry, and otherwise which conflict |
| Approvals.ApprovalTable.Cancel | src/approvals/approvals.service.ts:147-175 | succeeds exactly for a pending request and its requester or an admin, as a read followed by a write |
| Approvals.ApprovalTable.WriteCancellation | src/approvals/approvals.service.ts:156-171 | the conditional update, whatever happened since the read |
| Approvals.ApprovalTable.ClaimForExecution | src/approvals/approvals.service.ts:185-205 | the lease is issued exactly for an approved request without one; any other answer carries the row as it is |
| Approvals.ApprovalTable.CompleteExecution | src/approvals/approvals.service.ts:212-242 | succeeds exactly for the lease holder, and changes the row only the first time |
| Approvals.ApprovalTable.ExpireStale | src/approvals/approvals.service.ts:245-254 | afterwards no pending request is past its deadline; every changed row was, and their number is returned |
| Approvals.EveryRunIsSafe | src/approvals/approvals.service.ts:87-254 | over any interleaving of reads and writes each request has at most one winning decision, one lease and one completion by the lease holder, and every row is as they made it |
| ApprovalTraces.EveryRunIsTraced | src/approvals/approvals.service.ts:26-242 | over any interleaving every row carries the terms of the step that created it, and every decision, lease and completion was asked for by a caller who was allowed to |
| ApprovalTraces.ExecutedWasApproved | src/approvals/approvals.service.ts:87-242 | an executed request was approved, before the deadline of the step that created it, by somebody other than the user of that step, who presented the hash of that step; and one caller claimed it and completed it under that claim |
| Approvals.NothingIsUndone | src/approvals/approval.types.ts:2-7 | terminal requests never change, decisions are never overwritten, leases never move, and what deciders look at never changes |
| Approvals.CompletionIsIdempotent | src/approvals/approvals.service.ts:207-242 | only the holder completes, and completing again at any later time changes nothing |
| Approvals.SecondClaimFails | src/approvals/approvals.service.ts:185-205 | once a lease is out, no later claim succeeds |
| Approvals.StaleDecisionLosesTheRace | src/approvals/approvals.service.ts:109-135 | once a request has left PENDING, a decision or cancellation read before changes nothing, whenever its write comes |
| Approvals.ExpiryInstantIsNeither | src/approvals/approvals.service.ts:110-118 | a pending request is open to decision or due for the sweep at every instant except its expiry |
| ConfigDocument.ListKeepsMeaning | src/config/config-snapshot.ts:150-151 | normalising a list of finite scalars keeps what it means as JSON |
| ConfigSnapshot.Collector.Visit | src/config/config-snapshot.ts:139-174 | the recursive visitor records exactly the specified emissions, in order |
| ConfigSnapshot.Collector.VisitChildren | src/config/config-snapshot.ts:157-166 | so do its loops over items and keys |
| ConfigSnapshot.FlattenConfig | src/config/config-snapshot.ts:132-182 | the collected entries and exclusions, sorted by path |
| ConfigSnapshot.FlattenContents | src/config/config-snapshot.ts:132-182 | an entry is the last value kept under its path, an exclusion is one that was withheld; sorting loses neither |
| ConfigPartition.EmittedHasPlace | src/config/config-snapshot.ts:139-174 | everything recorded comes from a place in the configuration with that path |
| ConfigPartition.PathInjective | src/config/config-snapshot.ts:157-164 | with non-empty dot-free keys a path names one place |
| ConfigPartition.SettingsArePartitioned | src/config/config-snapshot.ts:132-182 | every setting is kept under its own path with its normalised value or covered by an exclusion of itself or an ancestor, never both; covered exactly when it or something around it looks secret; kept exactly unless its path is `__proto__` |
| ConfigPartition.EntriesAreSettings | src/config/config-snapshot.ts:132-182 | no entry is invented |
| ConfigPartition.ExclusionsAreExact | src/config/config-snapshot.ts:139-174 | what is excluded and why, for every configuration: exactly the places with a secret name and the settings with a secret value that lie in nothing excluded by name |
| ConfigPartition.FlattenIsSorted | src/config/config-snapshot.ts:176-181 | entries and exclusions come out in the order of their paths |
| ConfigPartition.ProtoSettingIsLost | src/config/config-snapshot.ts:139-174 | a top-level setting named `__proto__` is in neither list |
| ConfigDocument.SameTextSameContent | src/common/crypto/canonicalize.ts:5-40 | on parsed values equal canonical text is equal content, and both canonical forms agree |
| ConfigDocument.VerifySnapshot | src/config/config-snapshot.ts:283-303 | schema, hash, signature, then the loop over entries: each verdict exactly when, in that order |
| ConfigDocument.HashThrowsIff | src/common/crypto/canonicalize.ts:5-40 | hashing a document throws if and only if an entry holds a number that is not finite |
| ConfigDocument.SettingKeepsMeaning | src/config/config-snapshot.ts:184-202 | a normalised setting is plain JSON data with the meaning of the configured value |
| ConfigDocument.EntryIsSound | src/config/config-snapshot.ts:139-174 | an entry is finite, and public unless its path is empty |
| ConfigDocument.BuiltDocument | src/config/config-snapshot.ts:256-273 | building never throws, and the document carries matching hash and signature |
| ConfigDocument.BuildThenVerify | src/config/config-snapshot.ts:256-303 | what was built verifies, for every configuration and policy, unless the policy calls the empty path secret and there is such an entry |
| ConfigDocument.SignaturePinsDocument | src/config/config-snapshot.ts:246-303 | two documents that verify with the same signature agree on environment, capture time, exclusions and entries, up to own `__proto__` keys: if one has none, the entries mean the same if and only if the other has none |
| ConfigDocument.PlantedEntryEscapes | src/config/config-snapshot.ts:246-303 | planting any `__proto__` entry that does not look secret in a document that verifies leaves one that verifies with the same signature and other entries |
| ConfigDiff.SameTextIsSameValue | src/config/config-snapshot.ts:334-336 | comparing canonical texts compares values |
| ConfigDiff.DiffSnapshots | src/config/config-snapshot.ts:320-357 | the loop over paths fills the specified lists |
| ConfigDiff.DiffIsExact | src/config/config-snapshot.ts:320-357 | every list holds exactly what its name says: settings only in the target, only in the base, in both with different values, and paths withheld in only one of them |
| ConfigDiff.DiffLeadsToTarget | src/config/config-snapshot.ts:320-357 | applying the difference to the base gives the target |
| ConfigDiff.SwapIsInverse | src/config/config-snapshot.ts:320-357 | swapping the snapshots gives the inverse difference |
| ConfigDiff.InverseLeadsBack | src/config/config-snapshot.ts:320-357 | applying the inverse undoes the difference |
| ConfigDiff.IdenticalIff | src/config/config-snapshot.ts:345-351 | identical if and only if the settings agree and the same paths are excluded |
| ConfigDiff.DiffIsSorted | src/config/config-snapshot.ts:324-343 | every list is sorted by path and names each path once |
| ConfigDiff.FlattenedIsSnapshot | src/config/config-snapshot.ts:132-182 | so the laws of differences hold for every flattened configuration |
| PrivacyBudget.Limiter.constructor | src/audit/verification-event.service.ts:63-63 | usage starts empty |
| PrivacyBudget.Limiter.Filter | src/audit/verification-event.service.ts:178-180 | keeps exactly the grants that still count, in order |
| PrivacyBudget.Limiter.TryConsume | src/audit/verification-event.service.ts:176-185 | grants when fewer than the budget still count, and changes nothing on refusal |
| PrivacyBudget.Limiter.Prune | src/audit/verification-event.service.ts:321-329 | drops what no longer counts, and keys with nothing left |
| PrivacyBudget.RefusedIffWindowIsFull | src/audit/verification-event.service.ts:176-185 | a refusal happens exactly when as many grants as the budget allows were made less than a window ago, whatever was pruned |
| PrivacyBudget.PruningIsInvisible | src/audit/verification-event.service.ts:321-329 | the same requests are granted as if nothing had ever been pruned |
| PrivacyBudget.NoWindowExceedsBudget | src/audit/verification-event.service.ts:176-185 | no half-open window of the configured length holds more grants than the budget |
| PrivacyBudget.ClockMustNotStepBack | src/audit/verification-event.service.ts:176-185 | with a clock that steps back after a prune one does |
| PrivacyBudget.JudgedByHistoryIff | src/audit/verification-event.service.ts:176-185 | on any clock, a request is judged by the count the full history gives if and only if the clock brings no grant back that an earlier filtering had let go |

## Left out

- Controllers, modules, DTOs, logging, metrics and HTTP wiring, including the receiver's method, path and body-size checks.
- API keys, disputes, trust pins, quarantine, attestations, contracts and governance: short flows whose checks do not go past one branch.
- The internals of SHA-256, HMAC, wallet signatures and constant-time comparison, and the regular expressions that decide which names and values are secret.
- The texts of audit break reports and refusal messages, and the redaction of metadata in graph responses.
- The cycle flag of the correlation graph: it is also raised on harmless back edges, so nothing exact is claimed about it.
- The order of ids under the database's collation: ids are compared by code units.
- Configuration values that are bigints, symbols, sparse arrays or invalid dates, and exclusion reasons other than the two the code writes.
- That the snapshots of a new rollout exist, and which one is active: the baseline is given.
- Retention's cutoffs, batches and legal holds: a retention run removes the rows of a chain below a bound.
- The caps on how many children and correlated rows one query returns: the lists are given, and what depends on a cut list says so. Whether a cursor in the graph response leads to anything new: it is set whenever something was still queued.
- The audit rows written beside approvals, and what happens when writing one fails after a decision has been stored.
- Sessions' device labels, last-seen times and wallet hashes, and the malformed-token pattern.
- Renaming and listing sessions, snapshot storage and import, and choosing the snapshot signing key.
- RevokedTokenNeverValidates: rests on random ids and tokens not coming up again; a token is known by its hash, and that the hash determines the token is not part of the model.
- RefusedIffWindowIsFull: the in-memory key is a parameter, so two proofs that hash to one key share a budget.

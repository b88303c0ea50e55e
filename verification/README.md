# Tools gateway: verification of daemon management, tool permissions and resilience

This project models, in Dafny 4.11, the parts of the tools gateway whose correctness rests on more than one
function: the daemon-management protocol (reports, signed revoke jobs, delivery, replay protection, admission),
the signed-job codec, the glob algebra behind API-key scopes, the IAM event inboxes with the login gate that
reads them, and three resilient state machines (circuit breaker, audit queue, authorization cache).
`dafny verify dfyconfig.toml` checks everything.

## How it is built

A table is a map, a transaction is a method of a class whose fields are the tables, and each method is proved
equal to a specification function of the old state. Invariants over whole runs are lemmas about those functions.
Where interleaving matters (`issue`, replay protection, `authorize`, `execute`, `flush`) the code is cut at its
statements or awaits into events, and the lemmas quantify over every history of events. The lemmas named `…Exactly`
say in both directions what an operation answers and leaves, spelled out in the fields and times it depends on.

| file | part of the gateway |
|---|---|
| `Prelude`, `Ordering` | options, results, integer bounds; sorted listings and code-unit string order |
| `Base64Url`, `CanonicalJson`, `CanonicalBytes` | strict base64url, canonical JSON printer and parser, the byte-level check |
| `JobContract`, `JobSigner`, `JobSize` | job schema, compact framing, verification, planning; signing; length bounds |
| `ManagementModel`, `ReportStore` | tables of daemon management; `accept` |
| `IssueProtocol`, `JobDelivery` | `issue` as one transaction and as interleaved statements; building and delivering jobs |
| `ManagementRuns` | whole runs of reports and issue statements on one database |
| `ReplayGuard`, `Admission` | nonces, proofs and the issue-time window; admission with compare-and-swap |
| `Glob`, `ToolPolicy`, `ApiKeys` | tool patterns, scope guard and access policy, API-key creation |
| `IamInbox`, `EventConsumer` | the event inboxes; acknowledgement, retries and dead letters around them |
| `LocalUsers`, `LoginGate` | event handlers and login on the user tables; runs of both |
| `CircuitBreaker`, `AuditQueue`, `AuthorizationCache` | the resilient state machines |

## Assumptions

- The database clock never goes back (`ReplayGuard.Clocked`, `IssueProtocol.Tick`), nor does the clock of one
  circuit breaker (`CircuitBreaker.Clocked`). Committed transactions and single SQL statements are atomic.
- Nonces are drawn once (`FreshNonces`), API-key ids too, and an IAM event id names one event (`EventsIdentify`,
  `EventConsumer.ContentIdentifies`).
- Ed25519 is sound and, where stated, unforgeable; SHA-256 is injective where stated. They are parameters
  (`JobContract.Primitives`), as is the URL parser's verdict on a URL. Table keys that are hashes of lists are
  modelled by the lists themselves, and a payload hash by the report it hashes.
- The signing key behind a key id is fixed for a run (`JobDelivery.Fleet.keyOf`).
- Every writer of a resource state moves its version (`Admission.CanHappen`), as the comment on `plan` asks.
- Appending to the audit fallback file succeeds.

## Where code and expectation differ

- The canonical check is not unique on bytes: the UTF-8 decoder drops one leading byte order mark, so
  `EF BB BF` before a canonical text is accepted too (`CanonicalBytes.MarkedTextAlsoAccepted`).
  `ParseCanonicalExactly` gives the exact set. On strings, and for digests, uniqueness holds; a marked payload has a
  digest no result report can match (`JobSize.MarkedPayloadHasForeignDigest`).
- The issue-time window spans less than 66 s of gateway clock, not 65, because the clock is floored to seconds;
  `ReplayGuard.SecondUseNeedsSkew` therefore needs twice the skew plus the latency above 54 s, and `WindowReplays` needs no more.
- Nonce and proof lifetimes alone make a proof single use only while verification is fast:
  `ReplayGuard.SlowCallReplays` replays one after 60001 ms, and `SecondUseIsSlow` shows that nothing faster does.
- An inbox converges for every order of delivery exactly when one event is strictly newer than all others and no
  other event withdraws (`IamInbox.ConvergesExactly`); distinct versions alone are not enough.
- Ending sessions after the commit of an event happens at most once, not at least once: by `EventConsumer.EndedExactly`
  the first committed attempt decides, and `RetryMissesEnding` is a run of one failure or dead process and one retry in
  which it never happens.
- A disabling event leaves the user's API keys active when a login with a version not below the event's, or a newer event,
  came first: `LoginGate.DisablingStopsKeys` is the exact condition, `LateDisableKeepsKeys` a run.
- The breaker's retry hint is not a promise: `CircuitBreaker.RetryAfterIsHonest` is the exact condition under which it holds,
  `RefusedAtPromisedTime` a history in which another caller takes the one probe first.

## Model

| member | source | states |
|---|---|---|
| `Base64Url.PackOfSplit` | src/daemonManagement/jobs/contract.ts:55-56 | regrouping any bytes into sextets and back loses nothing |
| `Base64Url.SplitOfPack` | src/daemonManagement/jobs/contract.ts:55-56 | regrouping sextets into bytes and back returns them exactly when the length is not 1 mod 4 and the trailing bits are zero |
| `Base64Url.DecodeEncode` | src/daemonManagement/jobs/contract.ts:53-58 | decoding an encoding returns the bytes; only the empty byte string is refused |
| `Base64Url.DecodeExactly` | src/daemonManagement/jobs/contract.ts:53-58 | accepted exactly the canonical unpadded texts (sections 3.5 and 5 of RFC 4648), and every accepted text is the encoding of what it decodes to |
| `Base64Url.DecodeInjective` | src/daemonManagement/jobs/contract.ts:53-58 | two accepted texts never denote the same bytes |
| `Base64Url.AlphabetExactly` | src/daemonManagement/jobs/contract.ts:53-58 | the alphabet by character code, A to Z, a to z, 0 to 9, hyphen, underscore (table 2 of RFC 4648), and its inverse |
| `Base64Url.SplitKeepsOrder` | src/daemonManagement/jobs/contract.ts:55-56 | each group of bytes is the same big-endian number as its 6-bit values, padded with zero bits |
| `Base64Url.KeyTexts` | src/daemonManagement/jobs/contract.ts:81-82 | the accepted texts of 43 characters are exactly the encodings of 32 bytes |
| `Ordering.SortedUnique` | src/daemonManagement/jobs/contract.ts:49 | sorted listings are unique: any strictly increasing listing of a set of keys is the one the printer uses |
| `Ordering.LexLeExactly` | src/daemonManagement/jobs/contract.ts:49 | the sort order in closed form: prefixes first, otherwise the first differing character decides |
| `CanonicalJson.ReadValueOfPrint` | src/daemonManagement/jobs/contract.ts:45-51 | reading a canonical text inside any larger text returns its value and leaves exactly the rest |
| `CanonicalJson.ParsePrint` | src/daemonManagement/jobs/contract.ts:45-66 | parsing the canonical text of any value of the v1 subset returns that value |
| `CanonicalJson.PrintInjective` | src/daemonManagement/jobs/contract.ts:45-51 | two values never share a canonical text |
| `CanonicalJson.ParseInSubset` | src/daemonManagement/jobs/contract.ts:59-66 | whatever the parser returns lies in the subset, whitespace, key order, duplicate keys and escapes included |
| `CanonicalJson.PrintIsAscii` | src/daemonManagement/jobs/contract.ts:45-51 | canonical texts are ASCII, so text and bytes correspond one to one |
| `CanonicalJson.TextExactly` | src/daemonManagement/jobs/contract.ts:45-51 | lists are their items and objects their members by ascending key, comma-joined, without whitespace, whatever listing of the keys is taken |
| `CanonicalJson.EscapeExactly` | src/daemonManagement/jobs/contract.ts:50 | which characters are escaped and how: by letter where JSON has one, lower-case hex otherwise |
| `CanonicalBytes.ParseCanonicalExactly` | src/daemonManagement/jobs/contract.ts:59-66 | a byte string is accepted with value v if and only if it is v's canonical text, or that text after one byte order mark |
| `CanonicalBytes.AcceptedBytesUnique` | src/daemonManagement/jobs/contract.ts:59-66 | two accepted byte strings of one value are equal if and only if both or neither carry the mark |
| `CanonicalBytes.MarkedTextAlsoAccepted` | src/daemonManagement/jobs/contract.ts:61-63 | the concrete second byte string: `{}` and the marked `{}` are both accepted as the empty object |
| `JobContract.JobOfExactly` | src/daemonManagement/jobs/contract.ts:18-25 | the schema accepts exactly the JSON forms of valid jobs, so a job has one JSON value |
| `JobContract.StrictSchema` | src/daemonManagement/jobs/contract.ts:17-25 | acceptance is the strict grammar: exactly these keys, these literals, these types, and valid fields |
| `JobContract.StrictHeader` | src/daemonManagement/jobs/contract.ts:67 | the header schema is the strict grammar of three keys with their literals and a valid id, and yields the text of the kid field |
| `JobContract.JobInSubset` | src/daemonManagement/jobs/contract.ts:9-25 | every schema-valid job lies in the canonical subset |
| `JobContract.IdExactly` | src/daemonManagement/jobs/contract.ts:10 | an id is a letter or digit followed by at most 127 letters, digits, dots, underscores, colons or hyphens |
| `JobContract.LeavesExactly` | src/daemonManagement/jobs/contract.ts:11-24 | URLs of 1 to 512 printable characters, lower-case hex digests, 43-character thumbprints, positive numbers and times up to 2^53-1 |
| `JobContract.JoinOfSplit` | src/daemonManagement/jobs/contract.ts:76 | joining the dot-separated segments gives the text back |
| `JobContract.ThreeSegments` | src/daemonManagement/jobs/contract.ts:76-77 | three dot-free segments split back into exactly themselves |
| `JobContract.ResourceTextsAgree` | src/daemonManagement/jobs/contract.ts:115 | comparing canonical texts of two valid resources decides their equality |
| `JobContract.DecodedRefusalExactly` | src/daemonManagement/jobs/contract.ts:76-89 | a key is refused exactly when it is not the one in the header or no key, a signature exactly when that key did not make it |
| `JobContract.RefusalExactly` | src/daemonManagement/jobs/contract.ts:92-99 | the error after the signature in terms of the job: windows of 300 s, the binding it was made for, 5 s before issue until expiry |
| `JobContract.PlanPreparesExactly` | src/daemonManagement/jobs/contract.ts:104-121 | a revocation is prepared exactly in time, unrecorded, on the one active state the job names below 2^53-1, and moves its version by one |
| `JobContract.PlanRepeatsExactly` | src/daemonManagement/jobs/contract.ts:104-114 | a job is told it is recorded exactly in time when the record has its id and digest, whatever the state has become |
| `JobContract.PlanRefusesFor` | src/daemonManagement/jobs/contract.ts:104-120 | every refusal names a defect that is there |
| `JobSigner.HeaderKidExactly` | src/daemonManagement/jobs/contract.ts:78-80 | a first segment is read as key id k exactly when it encodes k's canonical header, marked or not |
| `JobSigner.PayloadJobExactly` | src/daemonManagement/jobs/contract.ts:82-91 | a payload is read as job j exactly when j is schema-valid and the payload is its canonical text, marked or not |
| `JobSigner.VerifyOfCompact` | src/daemonManagement/jobs/contract.ts:74-100 | any framing of a valid job signed by its key passes up to the window, binding and clock checks, and then follows them |
| `JobSigner.CompactOfVerified` | src/daemonManagement/jobs/contract.ts:74-100 | any verified text is one of the four framings of its job under the trusted key, with the digest of its payload |
| `JobSigner.VerifyExactly` | src/daemonManagement/jobs/contract.ts:74-100 | verification succeeds with v if and only if the text is header, payload and signature of the schema-valid job of v under the id and 32-byte key, approval, issue and expiry within 300 s of each other, for exactly this binding, from 5 s before issue until expiry, within 16384 characters |
| `JobSigner.TrustExactly` | src/daemonManagement/jobs/contract.ts:80-81 | a trusted key is a valid id with the text of 32 bytes |
| `JobSize.PayloadFits` | src/daemonManagement/jobs/contract.ts:9-25 | the canonical payload of any schema-valid job has at most 9802 characters |
| `JobSize.HeaderFits` | src/daemonManagement/jobs/signer.ts:38 | the canonical header of any valid key id has at most 422 characters |
| `JobSize.SignedFits` | src/daemonManagement/jobs/signer.ts:36-40 | for all field values the schema permits, signing yields three segments within MAX_JOB_BYTES |
| `JobSize.SignVerify` | src/daemonManagement/jobs/signer.ts:36-40 | sign then verify returns the same job and its digest, or the first failing check of windows, binding and clock |
| `JobSize.DigestNamesOneJob` | src/daemonManagement/jobs/contract.ts:99 | equal digests of two verified texts mean the same job, under any keys, bindings and clocks |
| `JobSize.MarkedPayloadHasForeignDigest` | src/daemonManagement/jobs/contract.ts:61-63 | a payload behind a byte order mark verifies as its job but with a digest that is not the job's |
| `ReportStore.ManagementStore.constructor` | src/daemonManagement/postgresStore.ts:12-13 | a new store has empty tables and meets the declared constraints |
| `ReportStore.ManagementStore.FindPrior` | src/daemonManagement/postgresStore.ts:42-47 | finds no prior exactly when neither id nor sequence is taken; the one exact retry yields its receipt, anything else a conflict |
| `ReportStore.ManagementStore.RecordResults` | src/daemonManagement/postgresStore.ts:52-74 | the loop succeeds exactly when every result matches its issued job and no job repeats, and then has upserted all of them in order |
| `ReportStore.ManagementStore.Transact` | src/daemonManagement/postgresStore.ts:37-76 | the statements between BEGIN and COMMIT answer as specified and, on success, leave the specified tables |
| `ReportStore.ManagementStore.Accept` | src/daemonManagement/postgresStore.ts:32-79 | the whole call answers as specified; every refusal leaves all tables unchanged |
| `ReportStore.Commits` | src/daemonManagement/postgresStore.ts:32-79 | one call keeps the invariant that heads, reports and results are exactly what the accepted reports determine |
| `ReportStore.AcceptsNewExactly` | src/daemonManagement/postgresStore.ts:37-76 | a new report is accepted, with a receipt stamped now, if and only if its device sent neither its id nor anything as new nor anything for another subject, and each result confirms a distinct issued job of the sender in every field |
| `ReportStore.RefusesExactly` | src/daemonManagement/postgresStore.ts:40-66 | every other report gets the first error that applies, in terms of the accepted reports; only the very report sent before is accepted again |
| `ReportStore.MatchesExactly` | src/daemonManagement/postgresStore.ts:57-66 | a result is accepted exactly when some job row of the issuer and tenant agrees with sender and result field by field |
| `ReportStore.RecordConsistent` | src/daemonManagement/postgresStore.ts:49-76 | an accepted report extends the three tables consistently, guarded upserts included |
| `ReportStore.GuardHolds` | src/daemonManagement/postgresStore.ts:68-73 | the upsert's WHERE guard is never false: an existing row is of the same device and older |
| `ReportStore.MentionsPinDevice` | src/daemonManagement/postgresStore.ts:57-66 | two accepted reports that mention one job come from the same device |
| `ReportStore.HeadIsGreatest` | src/daemonManagement/postgresStore.ts:75 | the head carries the greatest sequence and the one subject of its device |
| `ReportStore.HeadHoldsGreatest` | src/daemonManagement/postgresStore.ts:75 | a stored head is the report and receipt of the greatest stored sequence of its device |
| `ReportStore.EntryHasRow` | src/daemonManagement/postgresStore.ts:51 | every accepted report keeps its own row, never replaced by a later one |
| `ReportStore.RowHasEntry` | src/daemonManagement/postgresStore.ts:51 | every stored report row belongs to an accepted report |
| `ReportStore.ResultIsLatest` | src/daemonManagement/postgresStore.ts:67-74 | a job's result row is the one carried by the last accepted report that mentions the job |
| `ReportStore.ResendReturnsReceipt` | src/daemonManagement/postgresStore.ts:42-47 | resending any accepted report returns its original receipt and changes nothing |
| `ReportStore.RetryExactly` | src/daemonManagement/postgresStore.ts:42-47 | a report is answered as a retry exactly when that very report was accepted from that device |
| `ReportStore.ResultRowExplained` | src/daemonManagement/postgresStore.ts:55-74 | a result row names an issued job it confirms in every field and a stored report of that device that contains it |
| `ReportStore.ResultRowIsNewest` | src/daemonManagement/postgresStore.ts:67-74 | no stored report that mentions a job is newer than the job's result row: no accepted result was dropped |
| `ReportStore.JobsGrow` | src/daemonManagement/postgresStore.ts:57-58 | committing more jobs keeps every stored result explained |
| `ReportStore.ConsistentMeetsConstraints` | src/database/migrations.ts:318-326 | the invariant implies the declared uniqueness and reference constraints |
| `ReportStore.AfterKeepsConstraints` | src/database/migrations.ts:318-326 | one call keeps those constraints, and a refused one changes nothing |
| `IssueProtocol.JobStore.Issue` | src/daemonManagement/jobs/store.ts:39-63 | uninterrupted, issue returns the stored record for the same hash while live, conflicts or expires otherwise, and inserts one row when there is none |
| `IssueProtocol.IssueExactly` | src/daemonManagement/jobs/store.ts:45-61 | a committed request yields its record exactly to its own hash while unexpired, a new one what was built exactly if its job id is new, adding that one row |
| `IssueProtocol.StepKeepsInvariant` | src/daemonManagement/jobs/store.ts:39-63 | every statement of every replica keeps locks, free keys, row ownership, answers and unique ids in agreement, for any lock hash |
| `IssueProtocol.RunKeepsInvariant` | src/daemonManagement/jobs/store.ts:39-63 | the invariant holds in every state of every run |
| `IssueProtocol.ActiveKeysDiffer` | src/daemonManagement/jobs/store.ts:42-45 | two calls at work never share a request key, colliding lock numbers included |
| `IssueProtocol.RowsStayOverRun` | src/daemonManagement/jobs/store.ts:56-60 | a committed job row never changes or disappears |
| `IssueProtocol.AnswersStayOverRun` | src/daemonManagement/jobs/store.ts:52-60 | a finished call keeps its answer |
| `IssueProtocol.OneRecordPerRequest` | src/daemonManagement/jobs/store.ts:46-60 | all successful calls for one request return one record, made for one request hash |
| `IssueProtocol.ExpiredNeverSucceeds` | src/daemonManagement/jobs/store.ts:50-51 | once a request is expired or held by another hash, a call that has not read it never succeeds and never builds |
| `IssueProtocol.ExpiredForGood` | src/daemonManagement/jobs/store.ts:51 | once a request's row has expired, any successful call on it, begun whenever, had succeeded before |
| `IssueProtocol.NeverBuildsCommitted` | src/daemonManagement/jobs/store.ts:48-54 | no call builds, hence signs, a record for a request that has a committed row |
| `IssueProtocol.StepRefinesIssue` | src/daemonManagement/jobs/store.ts:39-63 | refinement: seen through committed rows and successful answers, each statement is invisible or one whole transaction at an instant between its call's beginning and now |
| `IssueProtocol.EndingsExactly` | src/daemonManagement/jobs/store.ts:45-61 | a read that finds the row ends its call with the answer of the transaction, a commit with the record it inserted |
| `IssueProtocol.StatementsMakeTransaction` | src/daemonManagement/jobs/store.ts:42-61 | the converse of the refinement: the statements of a call, run back to back, are its uninterrupted transaction |
| `IssueProtocol.TransactionRuns` | src/daemonManagement/jobs/store.ts:42-61 | a new request that finds its lock free, its key unused and its job id new can run all its statements |
| `IssueProtocol.RepetitionRuns` | src/daemonManagement/jobs/store.ts:42-53 | a repeated request that finds its lock free can run to its answer |
| `IssueProtocol.RowsMirrorRecords` | src/daemonManagement/jobs/store.ts:56-60 | in every state of every run the columns of a row are those of its own record |
| `JobDelivery.BuildSucceedsExactly` | src/daemonManagement/jobs/service.ts:60-71 | the build callback yields a record if and only if every value of the job is well formed and the approval was checked within the last 300 s and not in the future |
| `JobDelivery.BuiltRecordIsIssued` | src/daemonManagement/jobs/service.ts:60-71 | every built record is the signature of its own job for its own request key, within the windows |
| `JobDelivery.BuiltForRequest` | src/daemonManagement/jobs/service.ts:58-71 | every field of the signed job is the one of the request, the target, the authority, the drawn ids or the clock that it should be |
| `JobDelivery.BuiltRevokesExactly` | src/daemonManagement/jobs/service.ts:58-71 | end to end: while valid, the target verifies the text, and planning admits it on exactly the requested resource, active at the requested revision and version, moving it to the next version |
| `JobDelivery.PendingRecordsSelected` | src/daemonManagement/jobs/store.ts:64-70 | candidates are live, unconfirmed rows of the device and key id, strictly ordered by creation and job id |
| `JobDelivery.PendingRecordsComplete` | src/daemonManagement/jobs/store.ts:64-70 | such a row is missing only when twenty earlier ones fill the answer |
| `JobDelivery.PendingIsFirstTwenty` | src/daemonManagement/jobs/store.ts:64-70 | the candidates are the records of the first twenty selected rows in creation order, job ids breaking ties |
| `JobDelivery.JobService.Check` | src/daemonManagement/jobs/service.ts:82-85 | a record passes exactly when its approver's versions are unchanged and its text verifies for the polling identity now |
| `JobDelivery.JobService.Collect` | src/daemonManagement/jobs/service.ts:79-95 | the loop returns the passing compacts in order, or fails when any authority reply is a 503 |
| `JobDelivery.KeptExactly` | src/daemonManagement/jobs/service.ts:79-95 | what is delivered is the order-preserving subsequence of the records with a positive decision, each once |
| `JobDelivery.JobService.Pending` | src/daemonManagement/jobs/service.ts:76-96 | the device check comes first, then the loop over the query's candidates |
| `JobDelivery.DeliversExactlyDue` | src/daemonManagement/jobs/service.ts:83-86 | for an issued record, verifying its text decides the same as reading its fields |
| `JobDelivery.PendingDeliversDue` | src/daemonManagement/jobs/service.ts:76-96 | delivery is exactly the order-preserving subsequence with unchanged approver, matching binding and open window |
| `JobDelivery.DeliveryIsBounded` | src/daemonManagement/jobs/contract.ts:92-98 | nothing is delivered 600 s after its approval, or to another device, owner, key or organization |
| `ManagementRuns.EveryStateGood` | src/daemonManagement/postgresStore.ts:32-79 | in every state of every run of reports and issue statements, all table invariants hold together |
| `ManagementRuns.AcceptsAlwaysExactly` | src/daemonManagement/postgresStore.ts:32-79 | the acceptance of a new report, if and only if, in every reachable state, in terms of the reports accepted so far and the jobs issued so far |
| `ManagementRuns.ResultsAlwaysExplained` | src/daemonManagement/postgresStore.ts:48-75 | in every reachable state each result row names an issued job it matches and a stored report that carries it |
| `ManagementRuns.ResultsAlwaysNewest` | src/daemonManagement/postgresStore.ts:68-74 | in every reachable state no stored report mentions a job more recently than its result row, and the newest mention is that row |
| `ManagementRuns.HeadsAlwaysGreatest` | src/daemonManagement/postgresStore.ts:37-75 | in every reachable state a device head is the stored report and receipt of the greatest sequence of that device |
| `ManagementRuns.RetryAlwaysSafe` | src/daemonManagement/postgresStore.ts:42-47 | a report accepted at any moment is answered with its receipt at every later moment, and the state does not move |
| `ManagementRuns.JobsAlwaysIssued` | src/daemonManagement/jobs/store.ts:54-60 | in every state of every run whose records the service's own build callback made, each committed row is the signature of its own record |
| `ManagementRuns.CompletedExactly` | src/daemonManagement/jobs/store.ts:67 | a job counts as completed exactly when the newest stored report that mentions it confirms its termination |
| `ManagementRuns.CandidatesAlwaysExactly` | src/daemonManagement/jobs/store.ts:64-70 | in every reachable state a poll considers exactly the first twenty open jobs: of the poller and the key, unexpired by their own expiry, and not reported done by the newest stored report |
| `ManagementRuns.PendingAlwaysRight` | src/daemonManagement/jobs/service.ts:76-96 | end to end: in every reachable state a poll delivers exactly the due candidates (granted approver with unchanged versions, every bound field, the window), in order, each under 600 s from its approval |
| `ManagementRuns.HonestResultMatches` | src/daemonManagement/postgresStore.ts:57-66 | what verification of a delivered text returns is exactly what acceptance of its result demands |
| `ReplayGuard.ReplayStore.constructor` | src/daemonManagement/postgresStore.ts:12-13 | both tables start empty |
| `ReplayGuard.ReplayStore.IssueNonce` | src/daemonManagement/postgresStore.ts:14-19 | prunes, then inserts a 60 s row unless the key is stored |
| `ReplayGuard.ReplayStore.ValidNonce` | src/daemonManagement/postgresStore.ts:20-23 | true exactly for a stored, unexpired nonce of this verifier and key |
| `ReplayGuard.ReplayStore.ConsumeProof` | src/daemonManagement/postgresStore.ts:24-31 | upserts a 120 s row unless a live one exists, then prunes; the answer is that of the upsert |
| `ReplayGuard.ManagementVerifier.Verify` | src/daemonManagement/verifier.ts:53-75 | window first, then nonce, then consumption: each failure has its own error and its own effect on the tables, a refused nonce insert being a 503 |
| `ReplayGuard.VerifyAnswersExactly` | src/daemonManagement/verifier.ts:53-75 | accepted exactly when well formed, challenged and new; told a nonce exactly when well formed and not challenged |
| `ReplayGuard.VerifyLeavesExactly` | src/daemonManagement/verifier.ts:66-74 | row by row, what each outcome stores, consumes and deletes: nothing but expired rows is ever deleted |
| `ReplayGuard.ChallengeWorksExactly` | src/daemonManagement/verifier.ts:66-72 | the nonce a caller is told is accepted with a new proof exactly until a minute after it was stored |
| `ReplayGuard.PruningUnobservable` | src/daemonManagement/postgresStore.ts:16-29 | every statement of every run answers as if no row were ever deleted |
| `ReplayGuard.ConsumptionsSpaced` | src/daemonManagement/postgresStore.ts:24-31 | two successful consumptions of one proof are 120 s apart, pruned or not |
| `ReplayGuard.NonceLivesOnce` | src/daemonManagement/postgresStore.ts:14-23 | two successful checks of one nonce are less than 60 s apart |
| `ReplayGuard.NonceLivesExactly` | src/daemonManagement/postgresStore.ts:14-23 | in any run a stored nonce passes every check of the next 60 s and none after |
| `ReplayGuard.ConsumptionLastsExactly` | src/daemonManagement/postgresStore.ts:24-31 | in any run the next attempt on a consumed proof fails for exactly 120 s |
| `ReplayGuard.VerifyIsCall` | src/daemonManagement/verifier.ts:53-74 | the verifier, on the tables its nonce check reads, answers ok exactly when the proof is sound with well-formed claims and its statements form an accepted call of the run, wherever they stand and whatever falls between them except another consumption of the same proof |
| `ReplayGuard.SecondUseIsSlow` | src/daemonManagement/verifier.ts:65-72 | a proof accepted twice took over 60 s from its second nonce check to its second consumption |
| `ReplayGuard.SecondUseNeedsSkew` | src/daemonManagement/verifier.ts:24-65 | for a store whose nonces cannot be trusted: two uses of one proof and issue time need twice the clock skew plus the second call's latency above 54 s |
| `ReplayGuard.SlowCallReplays` | src/daemonManagement/verifier.ts:65-72 | the minute is sharp: a run in which one proof is accepted twice with 60001 ms |
| `ReplayGuard.WindowReplays` | src/daemonManagement/verifier.ts:24-65 | the 54 s are sharp: for every skew up to 27 s a run, under two nonces, in which the sum is 54001 ms and one proof is accepted twice |
| `Admission.OptimisticIsAtomic` | src/daemonManagement/jobs/contract.ts:102-121 | a granted attempt, however stale its reads, decides what planning on the current state would decide |
| `Admission.GrantAdvances` | src/daemonManagement/jobs/contract.ts:114-121 | a grant is made in time, consumes the current, active, matching state, moves its version by one within 2^53-1 and records its digest |
| `Admission.CurrentAttemptGrantedExactly` | src/daemonManagement/jobs/contract.ts:104-121 | an attempt on current reads is granted if and only if its job is new, the clock is past its verification and inside its window, and the state is the active one it names |
| `Admission.JobGrantedOnce` | src/daemonManagement/jobs/contract.ts:111-121 | no job id is granted twice in a run |
| `Admission.VersionConsumedOnce` | src/daemonManagement/jobs/contract.ts:116-121 | grants on one resource consume strictly increasing versions |
| `Admission.VersionsAdvance` | src/daemonManagement/jobs/contract.ts:102-103 | versions never go back, and an unchanged version means an unchanged state |
| `Admission.RecordedOnlyRepeats` | src/daemonManagement/jobs/contract.ts:111-114 | an attempt that reads a recorded job is told already recorded with the recorded digest, or refused |
| `Admission.RepeatAnsweredExactly` | src/daemonManagement/jobs/contract.ts:104-114 | an attempt that reads its job as recorded is told so if and only if in time, on a valid state, and under the recorded digest |
| `Admission.RepeatIsSameJob` | src/daemonManagement/jobs/contract.ts:111-114 | a verified text told already recorded carries the very job that was granted |
| `Glob.ValidateExactly` | src/domain/toolPattern.ts:2-9 | a pattern is refused exactly when nothing is left of it trimmed, or it has a carriage return, line feed or NUL |
| `Glob.SourceReadsBack` | src/domain/toolPattern.ts:11-15 | the compiled regular expression reads as exactly the pattern's characters and stars, for every pattern |
| `Glob.TokensMatch` | src/domain/toolPattern.ts:13-15 | the anchored expression accepts exactly the names the glob matches |
| `Glob.MatchesToolPattern` | src/domain/toolPattern.ts:17-20 | throws exactly for invalid patterns, and otherwise decides the match |
| `Glob.MatchesExactly` | src/domain/toolPattern.ts:11-20 | a glob matches exactly its own text with each star replaced by a run without line terminators |
| `Glob.StarMatchesCharacter` | src/domain/toolPattern.ts:13-14 | a star matches every single character but the four line terminators |
| `Glob.MatchesItself` | src/domain/toolPattern.ts:11-20 | every glob matches itself read as plain text |
| `Glob.MatchesTransitive` | src/domain/toolPattern.ts:11-20 | what matches a matched pattern is matched |
| `Glob.CoverExact` | src/api/apiKeyService.ts:54-56 | G matches the text of P if and only if G matches every name P matches |
| `Glob.CoverExactForStarFreeNames` | src/api/apiKeyService.ts:54-56 | the same over names without stars, given one ordinary character not in G |
| `Glob.MatchedTextHasNoBreaks` | src/domain/toolPattern.ts:6-14 | a pattern without line breaks never matches a text with one |
| `ToolPolicy.SomeMatch` | src/auth/scopeGuard.ts:13-15 | true has a matching pattern behind it, false means all patterns are valid and none matches |
| `ToolPolicy.SomeMatchOfValid` | src/auth/scopeGuard.ts:13-15 | over valid patterns nothing throws and the answer is the plain disjunction |
| `ToolPolicy.PatternsOfScopes` | src/auth/scopeGuard.ts:14-16 | the guard reads from a key's scopes exactly the patterns it was created with |
| `ToolPolicy.NewPolicy` | src/domain/toolAccessPolicy.ts:17-23 | a policy exists exactly when all its patterns are valid |
| `ToolPolicy.PolicyIsGuardWithin` | src/domain/toolAccessPolicy.ts:25-49 | allowed is: not denied, globally allowed, and allowed by the guard of the principal |
| `ToolPolicy.WithAllowedExactly` | src/domain/toolAccessPolicy.ts:59-68 | adding a pattern revokes nothing and adds exactly its undenied matches the principal could use anyway |
| `ApiKeys.DistinctKeepsEachOnce` | src/api/apiKeyService.ts:51-53 | deduplication keeps every requested pattern, once |
| `ApiKeys.ApiKeyService.Create` | src/api/apiKeyService.ts:25-67 | inserts one active key with the selected scopes, or throws and inserts nothing |
| `ApiKeys.ApiKeyService.Revoke` | src/api/apiKeyService.ts:78-87 | deactivates only the owner's active key, and only then invalidates the owner |
| `ApiKeys.CreatedAllowsOnlyGranted` | src/api/apiKeyService.ts:54-58 | no scope of a created key allows a tool outside the granted patterns |
| `ApiKeys.RefusedAllowsMore` | src/api/apiKeyService.ts:54-58 | a refused selection would allow a tool no grant allows |
| `ApiKeys.CheckIsExact` | src/api/apiKeyService.ts:54-58 | with well-formed grants a key is created if and only if its scopes allow nothing beyond the grants together |
| `ApiKeys.CheckIsExactGivenCharacter` | src/api/apiKeyService.ts:54-58 | the same over names without stars, given one ordinary character in no grant |
| `ApiKeys.UpstreamGrantIsToolGrant` | src/database/migrations.ts:62-63 | the grant of a user's own upstream meets the grammar of stored grants |
| `ApiKeys.ToolGrantExactly` | src/database/migrations.ts:114 | a stored grant is a word, a dot, and a star or words and dots that may end in a star |
| `ApiKeys.UpstreamPrefixExactly` | src/database/migrations.ts:63 | an upstream prefix is a lower-case letter followed by at most 49 lower-case letters, digits or underscores |
| `ApiKeys.CheckIsExactForToolNames` | src/api/apiKeyService.ts:44-58 | with the grants the database can hold, a key is created if and only if every tool name its scopes would allow is allowed by the grants together |
| `ApiKeys.ScopelessNeverRefused` | src/api/apiKeyService.ts:44-58 | a key asked for without scopes is never refused |
| `ApiKeys.DefaultsExactly` | src/api/apiKeyService.ts:49 | a scope-less key carries every tool permission, each row once and in order, and no grant of an own upstream |
| `ApiKeys.ScopelessKeyExactly` | src/api/apiKeyService.ts:49 | it reaches exactly the names that a grant held at use and a tool permission held at its making match |
| `ApiKeys.KeyStaysWithinGrant` | src/domain/toolAccessPolicy.ts:25-49 | under any policy a created key reaches only tools granted at creation, allowed now and not denied |
| `ApiKeys.AcceptedHasNoBreaks` | src/api/apiKeyService.ts:54-58 | with valid grants an accepted pattern, whatever was asked for, has no line break |
| `ApiKeys.AcceptedValidExactly` | src/api/apiKeyService.ts:54-58 | with the grants the database can hold, an accepted pattern is valid exactly when it has no NUL, even for a caller that skips the request parser |
| `ApiKeys.KeyNeverThrows` | src/auth/scopeGuard.ts:12-17 | for parsed requests and stored grants the guard never throws, and allows exactly what a grant held then and a pattern of the key both match |
| `IamInbox.RowsAdvance` | src/events/userLifecycleConsumer.ts:38-52 | versions never drop and WITHDRAWN is permanent, for any deliveries |
| `IamInbox.RowReachesEach` | src/events/userLifecycleConsumer.ts:27-52 | after any deliveries the row is at least as new as each delivered event, or withdrawn |
| `IamInbox.SettledRow` | src/events/userLifecycleConsumer.ts:27-52 | when one event is strictly newest and no other withdraws, every order and repetition ends in its row |
| `IamInbox.RowExactly` | src/events/userLifecycleConsumer.ts:27-52 | the row in closed form: that of the first withdrawal newer than all before it, or else of the last delivery newer than all before it; among equal versions the first wins |
| `IamInbox.DecidesOnce` | src/events/userLifecycleConsumer.ts:27-52 | there is one such delivery |
| `IamInbox.ConvergesExactly` | src/events/userLifecycleConsumer.ts:27-52 | that condition is necessary and sufficient for convergence |
| `IamInbox.TableRefinesInbox` | src/events/userLifecycleConsumer.ts:27-52 | through one shared receipt table each key's row is exactly that of an inbox of its own |
| `IamInbox.TableRowsAdvance` | src/events/userServiceAccessConsumer.ts:31-53 | versions never drop and WITHDRAWN is permanent, for every key of a table |
| `IamInbox.TablesConverge` | src/events/userServiceAccessConsumer.ts:31-53 | two histories with the same settled events about a key end in the same row |
| `LocalUsers.UserStore.constructor` | src/users/ensureLocalUser.ts:17-26 | the store starts on the given tables |
| `LocalUsers.UserStore.ApplyLifecycle` | src/events/userLifecycleConsumer.ts:11-86 | foreign events are ignored; ours leave the specified tables and effects, or roll back whole on a taken address |
| `LocalUsers.UserStore.ApplyServiceAccess` | src/events/userServiceAccessConsumer.ts:11-78 | the same for service access, per client, with revocation of the user's keys |
| `LocalUsers.UserStore.EnsureLocalUser` | src/users/ensureLocalUser.ts:28-110 | one guarded upsert: admitted logins create or refresh an active user, all others change nothing |
| `LocalUsers.LifecycleTablesExactly` | src/events/userLifecycleConsumer.ts:26-52 | an event writes its receipt and moves exactly the row it is newer than, to BLOCKED, WITHDRAWN or ACTIVE by its kind |
| `LocalUsers.LifecycleUsersExactly` | src/events/userLifecycleConsumer.ts:53-69 | it changes its own user row alone, and only an older one: profile, or status and activity, and its version |
| `LocalUsers.LifecycleKeysExactly` | src/events/userLifecycleConsumer.ts:70-73 | it stops exactly the keys of the user it disables |
| `LocalUsers.RollbackExactly` | src/events/userLifecycleConsumer.ts:53-58 | it rolls back exactly when it sets a profile whose address another user has |
| `LocalUsers.LifecycleOutcomeExactly` | src/events/userLifecycleConsumer.ts:81-86 | whose sessions end and whose cached keys are dropped |
| `LocalUsers.AccessExactly` | src/events/userServiceAccessConsumer.ts:31-78 | the same for a service-access event: receipt, row, keys stopped exactly by a new DISABLED or WITHDRAWN, and outcome |
| `LocalUsers.LoginExactly` | src/users/ensureLocalUser.ts:28-110 | a login succeeds if and only if tenant, address and versions are in order, the state rows permit it, each consumer was heard from within 60 s, the user is missing or active and the address free; and what it then writes |
| `LocalUsers.LoginRefusedFor` | src/users/ensureLocalUser.ts:28-110 | a failed login names a reason that holds |
| `LocalUsers.OursExactly` | src/events/userServiceAccessConsumer.ts:12-16 | events are handled exactly of the expected issuer and tenant and, for access, an expected client |
| `EventConsumer.Consumer.constructor` | src/events/userLifecycleConsumer.ts:88-96 | a consumer starts with nothing received, acknowledged or parked |
| `EventConsumer.Consumer.Try` | src/events/userLifecycleConsumer.ts:128-133 | the try block throws, dies or completes wherever parsing, transaction, effects, acknowledgement and clearing say, with the effects of the part that ran |
| `EventConsumer.Consumer.Process` | src/events/userLifecycleConsumer.ts:127-142 | a thrown attempt is counted, and the fifth parks the entry and acknowledges it; a dead process counts nothing |
| `EventConsumer.AttemptEffectsExactly` | src/events/userLifecycleConsumer.ts:26-86 | by the stage an attempt reaches, whether its receipt and row are stored and its sessions ended |
| `EventConsumer.AttemptCountsExactly` | src/events/userLifecycleConsumer.ts:127-142 | by that stage, whether it is counted, cleared, acknowledged or, the fifth time, parked |
| `EventConsumer.ExpiryExactly` | src/events/userLifecycleConsumer.ts:136-137 | the expiry of a counter forgets the failures of that entry and nothing else |
| `EventConsumer.NothingLost` | src/events/userLifecycleConsumer.ts:127-142 | whatever attempts failed where, an acknowledged event of ours has its receipt stored or is parked, and acknowledged garbage is parked |
| `EventConsumer.AckedIsInForce` | src/events/userLifecycleConsumer.ts:26-52 | an acknowledged event that is not parked is in force: its subject's row is at least as new, or withdrawn |
| `EventConsumer.RetriesCount` | src/events/userServiceAccessConsumer.ts:127-128 | the counter never exceeds the thrown attempts of its entry, through clearing, expiry and dead processes |
| `EventConsumer.ParkedAfterFive` | src/events/userLifecycleConsumer.ts:135-140 | an entry is parked only after at least five thrown attempts of its own |
| `EventConsumer.EndedAtMostOnce` | src/events/userLifecycleConsumer.ts:81-84 | over any attempts of any consumers, sessions are ended at most once per event, and only for a received one |
| `EventConsumer.EndedExactly` | src/events/userLifecycleConsumer.ts:32-84 | the event's first committed attempt decides for good: its sessions are ended at any later moment if and only if the event is of that kind, superseded the row then, and the attempt neither threw nor died before ending them |
| `EventConsumer.ReceivedByFirstCommit` | src/events/userLifecycleConsumer.ts:31-36 | every received event has such a first committed attempt, so the decision covers every case |
| `EventConsumer.MissedEndingStaysMissed` | src/events/userLifecycleConsumer.ts:32-35 | once an event's receipt is stored without its sessions ended, no later attempt ever ends them |
| `EventConsumer.RetryMissesEnding` | src/events/userLifecycleConsumer.ts:81-84 | the witness: one attempt whose ending throws, or whose process dies after its commit, and one retry, after which the entry is acknowledged, nothing is parked and no session was ended |
| `LoginGate.TablesAreLogs` | src/events/userLifecycleConsumer.ts:26-52 | whatever logins interleave, both state tables are the folds of their committed deliveries |
| `LoginGate.StandingsAdvance` | src/events/userServiceAccessConsumer.ts:40-53 | over any run, both tables' versions never drop and WITHDRAWN is permanent |
| `LoginGate.StaleTokenNeverSignsIn` | src/users/ensureLocalUser.ts:52-56 | after an event of version w commits, no token of that subject below w ever signs in again |
| `LoginGate.StaleAccessNeverSignsIn` | src/users/ensureLocalUser.ts:61-65 | the same for the service access version where enforcement is on |
| `LoginGate.WithdrawnNeverSignsIn` | src/users/ensureLocalUser.ts:52-65 | nobody signs in while not ACTIVE, and a withdrawn subject or client never again |
| `LoginGate.SignsInExactly` | src/users/ensureLocalUser.ts:28-110 | over any run, exactly which logins succeed, in terms of the events committed about their subject: the deciding one is ACTIVE and not newer than the token |
| `LoginGate.ForeignStepsIgnored` | src/events/userLifecycleConsumer.ts:11-15 | events of another issuer, tenant or client change nothing |
| `LoginGate.RunsConverge` | src/events/userLifecycleConsumer.ts:27-52 | two runs that commit the same settled events about a subject agree on its state row |
| `LoginGate.WithdrawnUserFrozen` | src/events/userLifecycleConsumer.ts:38-68 | after withdrawal the local user row never changes again |
| `LoginGate.InactiveUntilReenabled` | src/users/ensureLocalUser.ts:72-77 | a switched-off user stays off through any logins and events until one re-enables that subject |
| `LoginGate.UserReachesEvent` | src/events/userLifecycleConsumer.ts:53-68 | once an event is applied, its user's row is at least at its version for the rest of the run |
| `LoginGate.UserVersionsAdvance` | src/users/ensureLocalUser.ts:70-80 | over any run of events and logins, the version of a user row never drops and the row never goes |
| `LoginGate.OthersUntouched` | src/users/ensureLocalUser.ts:70-78 | a user row changes only through its own subject's events and logins |
| `LoginGate.DisablingStopsKeys` | src/events/userLifecycleConsumer.ts:60-73 | a committed disabling event leaves the user's keys stopped exactly when it supersedes the state row and the user row is older, or none was active |
| `LoginGate.LateDisableKeepsKeys` | src/events/userLifecycleConsumer.ts:62-73 | the witness run: a login at version 2, then the applied disabling event of version 2, and the key stays active |
| `LoginGate.CutOffForGood` | src/events/userServiceAccessConsumer.ts:54-65 | after a revoking access event, or a disabling event newer than the user row, every active key of that user at any later step was issued after it |
| `CircuitBreaker.Breaker.constructor` | src/resilience/circuitBreaker.ts:40-47 | settings are clamped to their minimums, and in-range settings are kept |
| `CircuitBreaker.Breaker.EvaluateState` | src/resilience/circuitBreaker.ts:66-74 | opens for probing exactly when the timeout has passed |
| `CircuitBreaker.Breaker.Start` | src/resilience/circuitBreaker.ts:76-93 | admits or short-circuits with the specified retry hint and state |
| `CircuitBreaker.Breaker.OnSuccess` | src/resilience/circuitBreaker.ts:105-110 | a success, however late, closes the breaker |
| `CircuitBreaker.Breaker.OnFailure` | src/resilience/circuitBreaker.ts:112-120 | a failure counts, stamps its time and opens at the threshold or from a probe |
| `CircuitBreaker.Breaker.ResetBreaker` | src/resilience/circuitBreaker.ts:122-127 | clears everything but the totals |
| `CircuitBreaker.ClosedExactly` | src/resilience/circuitBreaker.ts:105-127 | under any overlap, closed exactly while failures since the last success or reset stay below the threshold |
| `CircuitBreaker.CountersTellHistory` | src/resilience/circuitBreaker.ts:66-127 | the failure counter and stamp are the recent failures and latest failure of the history |
| `CircuitBreaker.TotalsTellHistory` | src/resilience/circuitBreaker.ts:76-120 | each total counts its own outcome: successes, failures, calls not admitted |
| `CircuitBreaker.ProbeWaitsForTimeout` | src/resilience/circuitBreaker.ts:66-93 | a call admitted at or above the threshold begins at least the reset timeout after the latest failure |
| `CircuitBreaker.ProbesBounded` | src/resilience/circuitBreaker.ts:87-93 | until some call completes, at most halfOpenMaxCalls are admitted above the threshold |
| `CircuitBreaker.HintExactly` | src/resilience/circuitBreaker.ts:79-92 | a refused call is told the time left to the end of the timeout of the latest failure, or out of probes the whole timeout |
| `CircuitBreaker.RetryAfterIsHonest` | src/resilience/circuitBreaker.ts:79-92 | after a refusal with hint r, and while no call completes, a call at or after that time is admitted if and only if fewer than halfOpenMaxCalls were admitted in between |
| `CircuitBreaker.RefusedAtPromisedTime` | src/resilience/circuitBreaker.ts:79-93 | the witness: a call told to wait 9 ms at 1 is refused again at 10, nothing having completed, because another caller took the one probe |
| `CircuitBreaker.CallsConserved` | src/resilience/circuitBreaker.ts:76-120 | calls begun are successes, failures, short-circuits and calls in flight, each once |
| `AuditQueue.BuildInsert` | src/audit/auditLogger.ts:92-120 | row i names placeholders 15i+1 to 15i+15, and those hold the fifteen columns of entry i |
| `AuditQueue.PlaceholdersResolve` | src/audit/auditLogger.ts:97-120 | each placeholder resolves to its own entry's column, and no two rows share one |
| `AuditQueue.RowHoldsEntry` | src/audit/auditLogger.ts:97-121 | what the database finds in each of the fifteen columns, in the order of the column list |
| `AuditQueue.Count` | src/audit/auditLogger.ts:109-113 | counters are never negative and round to the nearest whole number |
| `AuditQueue.AuditLogger.constructor` | src/audit/auditLogger.ts:44-53 | defaults of 50 and 10000, and an empty queue |
| `AuditQueue.AuditLogger.Log` | src/audit/auditLogger.ts:74-79 | appends, and starts a flush at the batch size |
| `AuditQueue.AuditLogger.Flush` | src/audit/auditLogger.ts:84-89 | takes the whole queue in flight unless it is empty or a flush runs |
| `AuditQueue.AuditLogger.FinishFlush` | src/audit/auditLogger.ts:122-142 | a failed batch goes to the fallback file and back to the front, or is evicted when the limit would be passed |
| `AuditQueue.OneFlush` | src/audit/auditLogger.ts:84-142 | a flush runs exactly while a batch is in flight: never two, never an empty one |
| `AuditQueue.FlushStartsExactly` | src/audit/auditLogger.ts:74-89 | with none running, a flush starts exactly when a logged entry fills the batch size or the timer finds entries, and takes everything queued |
| `AuditQueue.EntriesConserved` | src/audit/auditLogger.ts:74-142 | over any interleaving, logged entries are finished batches, batch in flight and queue, end to end |
| `AuditQueue.NoBatchVanishes` | src/audit/auditLogger.ts:122-139 | each finished batch was inserted whole or stands whole in the fallback files |
| `AuditQueue.RequeuedGoesFirst` | src/audit/auditLogger.ts:134-139 | a failed batch that fits the queue limit leads whatever the next insert carries, however much is logged meanwhile; one that does not fit is evicted |
| `AuthorizationCache.IamDeviceReader.constructor` | src/daemonManagement/iamReader.ts:19-22 | starts empty, with a 15 s lifetime by default |
| `AuthorizationCache.IamDeviceReader.Begin` | src/daemonManagement/iamReader.ts:23-27 | a fresh entry returns at once; any other is dropped and a lookup begins |
| `AuthorizationCache.IamDeviceReader.Finish` | src/daemonManagement/iamReader.ts:30-47 | only a vouching, timely reply succeeds and is cached under its start time; a 401 drops the token |
| `AuthorizationCache.IamDeviceReader.ReuseToken` | src/daemonManagement/iamReader.ts:69-71 | a token is reused only inside its window, and dropped outside it |
| `AuthorizationCache.IamDeviceReader.StoreToken` | src/daemonManagement/iamReader.ts:78-81 | a token living over 300 s or not at all is refused, any other stored until 5 s before it expires |
| `AuthorizationCache.CachedIsVouched` | src/daemonManagement/iamReader.ts:23-47 | every cached start time is that of a vouched lookup, through clearing and late writes of older times |
| `AuthorizationCache.SuccessJustified` | src/daemonManagement/iamReader.ts:23-47 | every success at t has a reply, within 15 s, that equals the identity in all eight fields, is ACTIVE, authorized and sanely timed, and whose lookup began less than the limit before t |
| `AuthorizationCache.AnswerDecides` | src/daemonManagement/iamReader.ts:36-47 | what each answer comes to: only the one affirming body, in time, succeeds and is cached; any other body is NotAuthorized and caches nothing |
| `AuthorizationCache.SuccessIsReused` | src/daemonManagement/iamReader.ts:23-25 | after a success, undisturbed, a call is a hit exactly within the cache lifetime of the start of its lookup |
| `AuthorizationCache.EnterDecides` | src/daemonManagement/iamReader.ts:23-26 | a hit changes nothing; a miss forgets that identity alone and begins a lookup at its own time |
| `AuthorizationCache.CacheBounded` | src/daemonManagement/iamReader.ts:45-46 | in every state of every history the cache holds at most 10000 entries |
| `AuthorizationCache.TokenFetched` | src/daemonManagement/iamReader.ts:68-82 | a held token was fetched, and no lookup was answered 401 since |
| `AuthorizationCache.ReuseIsFresh` | src/daemonManagement/iamReader.ts:69-81 | a reused token is more than 5 s from its expiry and not from the future |
| `AuthorizationCache.TokenReusedExactly` | src/daemonManagement/iamReader.ts:68-81 | a token is stored exactly if it lives at most 300 s and reused exactly in the 300 s before its limit, 5 s before it expires |

## Left out

- HTTP routes, MCP transport, configuration loading, dashboards, uploads and the clients of PostgreSQL and Redis.
- The inside of Ed25519, ES256, RS256, SHA-256 and the URL parser; the token and proof checks of `verifier.ts` that are
  single comparisons appear as one flag (`ReplayGuard.Proof.sound`). Of the nonce store's failures (503) only the refused insert is modelled.
- JSON outside the v1 subset: fractions, exponents, `true`, `false`, `null`, non-ASCII text and integers beyond 2^53-1
  are parse failures in the model. In the code they fail the schema instead; both end in `job_invalid`.
- `JobService.list`, `PostgresJobStore.list` and the checks of `JobService.issue` before the store call (session,
  target and its freshness) and after it (retired key, repeated verification).
- `JobSigner.fromFile` and `fromJwk`: file modes and key import.
- Claiming and reading of the event streams, and failures or process deaths inside the catch block of the consumers; in `LoginGate` an
  attempt that does not commit leaves no trace in the tables and is simply absent from a run.
- Users of other identity providers, whose addresses also count for the unique index on `users.email`.
- Several PostgreSQL anomalies of READ COMMITTED: each SQL statement is one step, so a login statement that waits on a
  concurrent event's row lock is ordered after it.
- `CanonicalBytes.AcceptedBytesUnique`: uniqueness is up to a leading byte order mark, because the code accepts one.
- `ReplayGuard.PruningUnobservable`: needs fresh nonces, because a repeated nonce is refused by an unpruned table only.
- `CircuitBreaker.ProbeWaitsForTimeout`: needs a clock that does not go back; the code reads wall-clock time.
- Strings are sequences of Unicode scalar values; unpaired surrogates in tool patterns are not modelled.
- Token, credit and text-size estimates, argument masking and address validation of the audit log are inputs.

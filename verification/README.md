# Satunera judge: verified model

Satunera judges programming submissions. This project models the parts of it where a mistake would be silent and
lasting, and proves what they keep:

- **The relational store.** Five tables as maps, one function per SQL statement under the declared CHECK, UNIQUE and
  immediate FOREIGN KEY rules (`Tables`). Each store operation is defined once as an atomic step (`Operations.Exec`),
  once as a program of single statements on a private image (`Transactions`), and once as a method of the class
  `SqliteStore` (`Store`). The last two are proved to be the first. `Invariant` and `History` prove what holds in every
  reachable state and along every run, `Queries` what the reads return there, `Chronicle` that every read is determined
  by the log of granted requests, `Behaviour` what each call answers and which reads it changes, `Recovery` that a
  boot-time pass drains the open work, and `Clients` that any number of clients, interleaved statement by statement with
  crashes and busy timeouts, commit exactly what some serial run commits, and that a call on a free lock completes.
- **Archive paths.** `Paths` models the path normaliser, `Archive` the in-memory problem tree keyed by its results.
- **The verdict pipeline.** `Verdicts` goes from captured stdout to the decoded verdict, back to its stored JSON, and
  compares the decoder with the strict schema.
- **The blob store.** `Blobs` models keys, temporary names, and any number of writers whose puts are steps that a crash
  may stop anywhere. Names lead to files, so that two writers can hold the same one.
- **Two canonicalising loops.** `Canonical` covers the sorted violation list and the ordered list of referenced problems.

`Prelude`, `Ordering` and `Text` hold the shared types, strict total orders with their unique increasing enumeration,
and the theory of splitting, joining and trimming strings. `Codes` and `Lifecycle` hold the enumerations and the
transition graph.

Operations that the source writes as methods with loops or in-place updates are methods here, proved against a
specification function whose own properties are the lemmas below. Row ids are integers in the order of their text;
ids and clock readings are inputs of an operation, so nothing is assumed about their order in time. A statement
issued without an explicit transaction (`create_user`, `create_submission`, `record_run`) is a transaction of one
statement. Refused requests appear in histories and leave every table as it was.

## Where code and documentation part

The model follows the code. In five places the repository's own text promises something else.

- `crates/satunera-contracts/src/verdict.rs:7-9` and `crates/satunera-contracts/src/schema.rs:60-61` say that the
  runtime decoder is more forgiving than the schema. It is not in every case: a `testcase` written as `1.0`
  (`StrictObjectRefused`) or above 2^32 - 1 (`LargeTestcaseRefused`), or a rejection whose message is white space
  (`BlankRejectionRefused`), passes the schema and is refused at run time. `StrictObjectsDecodeExactly` gives the
  exact condition.
- `crates/satunera-store/src/model.rs:49-50` can be read as "DONE carries a verdict". `set_submission_status` moves any
  active submission to DONE and writes neither verdict nor finishing time. `DoneMeansJudgedUnlessForced` says exactly when
  that happens and `ForcedDoneHappens` constructs a run in which it does, for good.
- `crates/satunera-store/src/model.rs:196-197` describes the stored output as the parsed verdict, serialised again.
  It does not always parse back to the same output (exactly when: `RoundTripExactly`; an instance: `StoredOutputChanges`),
  nor does it always satisfy the verdict schema, since a cut message is 501 characters long (exactly when:
  `StoredIsStrictExactly`; an instance: `CutMessageBreaksSchema`).
- `crates/satunera-contracts/src/source.rs:41-42` says other paths are rejected "rather than normalized away". Backslashes
  become slashes and empty and `.` segments are dropped silently (`RewrittenSilently`), except that a path whose `./`
  prefix uncovers a `/` is refused (`UncoveredSlashRefused`: `.//a` is, `a//b` is not). `NormalPreservesMeaning` says
  exactly which paths are accepted, `CanonicalIsFixed` exactly which are accepted unchanged.
- `crates/satunera-store/src/blob.rs:49-50` says that writing the same bytes twice is a no-op. One after the other it is;
  at the same time it is not, because both writers use one temporary file: the second can empty what the first is about
  to rename into place, and then fail. `PutIsSafeIff` says exactly when a put is safe, `SameBytesMayTear` gives the instance.

## Model

| member | source | states |
|---|---|---|
| Codes.ParseStatus | crates/satunera-store/src/model.rs:72-87 | parsing inverts printing, both ways: the status is found iff its text is the given one, and no other text parses |
| Codes.ParseVerdict | crates/satunera-contracts/src/verdict.rs:50-65 | the same for verdict codes, including that no two verdicts share a code |
| Codes.ParseLanguage | crates/satunera-contracts/src/problem.rs:103-113 | the same for languages |
| Codes.ParseRole | crates/satunera-store/src/model.rs:30-40 | the same for roles |
| Codes.VerdictsOnDisk | crates/satunera-contracts/src/verdict.rs:50-65 | the eight stored texts AC, WA, TLE, MLE, RE, CE, SE, IE parse to the verdicts of those names |
| Codes.StatusesOnDisk | crates/satunera-store/src/model.rs:72-87 | the six stored texts QUEUED to DONE parse to the statuses of those names |
| Codes.LanguagesOnDisk | crates/satunera-contracts/src/problem.rs:103-113 | the stored texts rust, py, cpp parse to those languages |
| Codes.RolesOnDisk | crates/satunera-store/src/model.rs:30-40 | the stored texts learner, author, admin parse to those roles |
| Codes.WhatCounts | crates/satunera-contracts/src/verdict.rs:67-81 | a verdict counts iff it is neither SE nor IE, and accepts iff it is AC |
| Codes.MovesAreEdges | crates/satunera-store/src/model.rs:97-111 | a move is legal iff it is one of the fifteen listed edges |
| Codes.TerminalIffNoMove | crates/satunera-store/src/model.rs:89-111 | a status is terminal iff no transition leaves it |
| Tables.RoleCheckMatchesCodec | crates/satunera-store/migrations/0001_initial.up.sql:10-11 | the role CHECK list admits exactly the texts the enum parses |
| Tables.DifficultyCheckMatchesCodec | crates/satunera-store/migrations/0001_initial.up.sql:26 | the difficulty CHECK list admits exactly the three texts of the enum |
| Tables.LanguageCheckMatchesCodec | crates/satunera-store/migrations/0001_initial.up.sql:37 | the same for submission languages |
| Tables.StatusCheckMatchesCodec | crates/satunera-store/migrations/0001_initial.up.sql:40-44 | the same for submission statuses |
| Tables.VerdictCheckMatchesCodec | crates/satunera-store/migrations/0001_initial.up.sql:45-47 | the same for verdicts |
| Tables.DeleteProblem | crates/satunera-store/migrations/0001_initial.up.sql:33-36 | a delete is granted iff every submission and progress row that has its problem still has it afterwards; granted, it removes that id and touches nothing else |
| Lifecycle.LifecycleBound | crates/satunera-store/src/model.rs:93-111 | a legal status history from QUEUED with r re-entries into PREPARING has at most 4r + 5 steps, and DONE can only be its last status |
| Lifecycle.LifecycleBoundAttained | crates/satunera-store/src/model.rs:93-111 | for every r some legal history has exactly r re-entries and 4r + 5 steps |
| Operations.Exec | crates/satunera-store/src/sqlite.rs:65-74 | a refused operation, whatever the reason, leaves all five tables as they were |
| Invariant.ExecKeeps | crates/satunera-store/src/sqlite.rs:352-561 | every operation keeps: text columns decode; `started_at` set iff not QUEUED; verdict set iff `finished_at` set, and then DONE; unique handles, emails and attempts; live foreign keys; progress equal to the counted submissions. It never drops a row, rewrites identity columns, `started_at`, a DONE row or a run, lowers attempts, or changes a set `solved_at` |
| Invariant.FinishAggregates | crates/satunera-store/src/sqlite.rs:511-528 | finishing a submission adds it, and nothing else, to the counted and accepted submissions of its own pair, and to those of no other pair |
| Invariant.FinishKeepsPair | crates/satunera-store/src/sqlite.rs:511-557 | the incremental progress update keeps row existence, attempts and `solved_at` of every pair in agreement with the submissions table |
| Invariant.AggregateFrame | crates/satunera-store/src/sqlite.rs:463-476 | creating or moving an unjudged submission changes no pair's counted or accepted submissions |
| History.ReachableInv | crates/satunera-store/src/sqlite.rs:156-757 | every state reachable by any sequence of requests satisfies the invariant |
| History.RunKeeps | crates/satunera-store/src/sqlite.rs:156-757 | from any consistent state any further requests keep the invariant and only extend what is recorded |
| History.FinishOnce | crates/satunera-store/src/sqlite.rs:482-509 | after a granted finish every later finish or status change of that submission is refused as an illegal transition from DONE and changes no table |
| History.ProgressIsFold | crates/satunera-store/src/sqlite.rs:524-557 | a pair's cached progress row is the fold of the whole request log: absent iff no counting finish was granted, attempts their exact number, `solved_at` the clock reading of the first granted AC in commit order |
| History.ProgressIsCount | crates/satunera-store/src/sqlite.rs:524-557 | that number equals the number of submissions of the pair that carry a verdict other than SE and IE, and there was a first AC iff some submission of the pair is accepted |
| History.AttemptsAreJudged | crates/satunera-store/src/sqlite.rs:524-557 | in every reachable state a pair's row exists iff, and its attempts count exactly how many, of its submissions have a verdict text other than "SE" and "IE"; it is solved iff one says "AC", at the finishing time of such a one |
| History.InfrastructureFinishIsFree | crates/satunera-store/src/sqlite.rs:528-529 | a finish with SE or IE leaves every progress row as it was |
| History.SolvedAtIsFinal | crates/satunera-store/src/sqlite.rs:534-537 | once the first AC is committed, no continuation of the run changes `solved_at`, whatever the clock does |
| History.StartedAtIsFirstMove | crates/satunera-store/src/sqlite.rs:463-476 | `started_at` is the clock reading of the first granted status change, and no retry, recovery or finish restamps it |
| History.DoneMeansJudgedUnlessForced | crates/satunera-store/src/model.rs:49-50 | a submission is DONE without a verdict iff `set_submission_status` was called with DONE while it stood at PREPARING, BUILDING, BOOTING or RUNNING |
| History.ForceIsGrantedIffActive | crates/satunera-store/src/sqlite.rs:452-461 | setting DONE is granted iff the submission exists and is active |
| History.ForcedDoneHappens | crates/satunera-store/src/sqlite.rs:455-476 | a concrete run reaches DONE without a verdict, and every continuation of it stays that way |
| History.TraceIsLegal | crates/satunera-store/src/sqlite.rs:433-509 | the statuses a submission goes through in any run form a legal path that ends in its stored status |
| History.RunLifecycleBound | crates/satunera-store/src/sqlite.rs:433-509 | in any run of the store one submission with r re-entries is moved at most 4r + 5 times, and not after DONE |
| History.EveryLegalPathHappens | crates/satunera-store/src/sqlite.rs:433-480 | every legal path is the trace of some run, so the bound is attained by the store |
| History.ProgressWithinSubmissions | crates/satunera-store/migrations/0001_initial.up.sql:86-93 | a pair with a progress row has a submission, so the progress foreign key never alone decides a catalog swap |
| History.CatalogLastWins | crates/satunera-store/src/sqlite.rs:255-282 | the upserts leave, for each id, the last row given for it |
| History.ReplaceIsFullSwap | crates/satunera-store/src/sqlite.rs:249-302 | for acceptable rows the swap completes iff every problem with a submission is kept; then the problem table is exactly the catalog of the rows, and otherwise no table changes |
| Queries.RunRoundTrip | crates/satunera-store/src/sqlite.rs:606-726 | a recorded run decodes to what was recorded, through both integer widths |
| Queries.SubmissionRoundTrip | crates/satunera-store/src/sqlite.rs:352-389 | a created submission's row decodes to the value that was returned |
| Queries.SubmissionReadsDecode | crates/satunera-store/src/sqlite.rs:125-153 | in every reachable state no submission read meets a corrupt row: by id, by hash, a user's history, the in-flight scan |
| Queries.RunsAreOrdered | crates/satunera-store/src/sqlite.rs:666-726 | a submission's runs read without error, strictly increasing in attempt, each the decoding of a stored row of that submission |
| Queries.RunsAreComplete | crates/satunera-store/src/sqlite.rs:666-726 | every stored run of a submission is among those read |
| Queries.RecordedRunIsRead | crates/satunera-store/src/sqlite.rs:606-726 | a run whose recording was granted is read back exactly as requested, after any further requests |
| Queries.AttemptIsRecordedOnce | crates/satunera-store/src/sqlite.rs:655-661 | after a granted recording every later recording of the same submission and attempt, in any run, is a conflict and changes no table |
| Queries.ProgressReads | crates/satunera-store/src/sqlite.rs:728-756 | a progress read reports the fold of the log, and fails iff the pair has 2^32 or more counting finishes |
| Queries.FinishIsReadBack | crates/satunera-store/src/sqlite.rs:511-522 | a granted finish reads back as DONE with its verdict and its clock reading after any further requests |
| Queries.UserIsReadBack | crates/satunera-store/src/sqlite.rs:158-221 | a created user is answered and reads back exactly as requested, after any further requests |
| Queries.CatalogIsReadBack | crates/satunera-store/src/sqlite.rs:255-327 | after a completed swap each id reads as the last row given for it, and an id without a row is not found |
| Queries.DedupeIsExact | crates/satunera-store/src/sqlite.rs:410-431 | the dedupe lookup returns, as it reads by id, the greatest-id judged submission of this user and hash, which is DONE with a verdict, and nothing iff there is none |
| Queries.DedupeIsMonotone | crates/satunera-store/src/sqlite.rs:410-431 | once it hits, after any further requests it still hits, with an id at least as large |
| Chronicle.DedupeAnswersFromLog | crates/satunera-store/src/sqlite.rs:410-431 | the answered submission's problem, language, URI and time are those of a granted creation by this user with this hash, and its verdict and end those of a granted finish |
| Queries.HistoryIsNewest | crates/satunera-store/src/sqlite.rs:563-587 | with limit k the history selects the k greatest ids of the user in descending order |
| Queries.HistoryReads | crates/satunera-store/src/sqlite.rs:563-587 | the history read itself: in descending order of id, only submissions of this user, each as it reads by id; one is missing only if the limit is reached and it is older than all of them |
| Queries.HistoryPrefix | crates/satunera-store/src/sqlite.rs:563-587 | in every reachable state a smaller limit reads a prefix of what a larger limit reads |
| Queries.InFlightIsExact | crates/satunera-store/src/sqlite.rs:589-604 | the recovery scan returns, in strictly increasing order of id, exactly the submissions that read as not DONE, each as it reads by id |
| Chronicle.SubmissionIsItsHistory | crates/satunera-store/src/sqlite.rs:352-561 | every column of a submission as it reads is determined by the log: identity by the request that created it, status by its last granted move, start by its first, verdict and end by the granted finish; one that nobody created is not found |
| Chronicle.BirthWasGranted | crates/satunera-store/src/sqlite.rs:352-389 | the creation a read refers to is a request of the log that was granted |
| Chronicle.EndingWasGranted | crates/satunera-store/src/sqlite.rs:482-561 | the finish a read refers to is a request of the log that was granted |
| Chronicle.RunsReadAreRecorded | crates/satunera-store/src/sqlite.rs:606-726 | a run is among those read for a submission iff a granted request recorded exactly it for that submission |
| Chronicle.UserWasCreated | crates/satunera-store/src/sqlite.rs:158-221 | a user reads as given iff a granted request created exactly that user |
| Chronicle.ProblemIsLastRow | crates/satunera-store/src/sqlite.rs:249-327 | a problem reads as the last row that the last granted swap gave for its id, and is not found if it gave none |
| Behaviour.CreateUserOutcome | crates/satunera-store/src/sqlite.rs:158-195 | refused as a conflict iff the id, the handle or the email reads as taken; else the requested user is answered and read, and no other read changes |
| Behaviour.CreateSubmissionOutcome | crates/satunera-store/src/sqlite.rs:352-389 | refused iff the id is taken, or the user or the problem does not read; else the requested submission is answered and read, QUEUED, and no other read changes |
| Behaviour.MoveErrorIsRead | crates/satunera-store/src/sqlite.rs:441-461 | a move is refused as not found iff the submission does not exist, as illegal, from its status as read to the wanted one, iff that is no edge, and not otherwise |
| Behaviour.SetStatusOutcome | crates/satunera-store/src/sqlite.rs:433-480 | a granted move changes the status and fills an empty start, in the read of that submission only; a refused one changes nothing |
| Behaviour.FinishOutcome | crates/satunera-store/src/sqlite.rs:482-522 | a granted finish makes that submission read DONE with this verdict and end, and changes no other submission's read; a refused one changes nothing |
| Behaviour.FinishProgress | crates/satunera-store/src/sqlite.rs:524-557 | it gives the submission's own pair one more attempt unless the verdict is SE or IE, fills an empty `solved_at` iff it is AC, and leaves every other pair's row alone |
| Behaviour.RecordRunOutcome | crates/satunera-store/src/sqlite.rs:606-664 | refused as a conflict iff the id or the attempt is taken, on the foreign key iff the submission does not read; else exactly the requested run is added |
| Behaviour.FirstBadRowDecides | crates/satunera-store/src/sqlite.rs:255-282 | the swap's row refusals: the first row without a formattable instant, or with a difficulty outside easy, medium, hard, decides the error |
| Behaviour.ReplaceOutcome | crates/satunera-store/src/sqlite.rs:249-302 | the first bad row refuses the swap with its error; without one it completes iff every submission, as read, has a row for its problem; refused, it changes nothing |
| Recovery.OpenRowMoves | crates/satunera-store/src/model.rs:97-111 | every open row of a consistent table accepts PREPARING, after which it stands at PREPARING with no verdict |
| Recovery.DrainOne | crates/satunera-store/src/sqlite.rs:433-561 | restarting and finishing one open submission are both granted, and of the submissions only that row changes |
| Recovery.PassDrains | crates/satunera-store/src/sqlite.rs:589-604 | a pass over any distinct open submissions, in any order, finishes exactly those rows and keeps the invariant |
| Recovery.RecoveryDrains | crates/satunera-store/src/sqlite.rs:589-604 | in every reachable state one pass over what the in-flight read returns leaves that read empty; each scanned submission then reads as judged with its planned verdict and times, every other one reads as before, and each pair's attempts rise by exactly its submissions drained with a counting verdict |
| Transactions.UpsertStep | crates/satunera-store/src/sqlite.rs:255-282 | one more upsert either fails with the error the whole swap reports or leaves the old catalog overlaid with the rows so far |
| Transactions.PruneStep | crates/satunera-store/src/sqlite.rs:284-298 | looking at one more existing id, in any order, keeps exactly the wanted ids, or fails on the foreign key only when a problem with history would be dropped |
| Transactions.AdvanceKeeps | crates/satunera-store/src/sqlite.rs:433-561 | every statement of every transaction keeps it on course: if it ends in COMMIT its image and reply are those of the atomic operation, and if it aborts the atomic operation refuses with the same error |
| Transactions.AdvanceProgresses | crates/satunera-store/src/sqlite.rs:249-561 | every statement brings its transaction strictly nearer to its end |
| Clients.Serialisable | crates/satunera-store/src/sqlite.rs:65-74 | under any interleaving of any number of clients with crashes and timeouts, the committed tables and all replies are those of the answered requests executed atomically in commit order |
| Clients.OneFinishWins | crates/satunera-store/src/sqlite.rs:482-561 | among concurrent finishes of one submission at most one is granted; the others are refused and change nothing |
| Clients.CommittedInv | crates/satunera-store/src/sqlite.rs:65-74 | every state that any interleaving commits satisfies the invariant |
| Clients.NoInterference | crates/satunera-store/src/sqlite.rs:65-74 | while a client is inside its transaction no step of another client changes the tables, the lock, or that transaction's image |
| Clients.CommitTakesEffect | crates/satunera-store/src/sqlite.rs:300 | in every reachable state COMMIT of a finished transaction makes the tables and the answer those of the atomic operation on the tables as they were, and frees the lock and the client |
| Clients.EveryCallCompletes | crates/satunera-store/src/sqlite.rs:65-74 | from every reachable state with a free lock any idle client can have any operation served whole, effect and answer, by steps of its own alone |
| Clients.DroppedWithoutTrace | crates/satunera-store/src/sqlite.rs:65-74 | a dropped transaction or an expired wait changes neither tables nor log and leaves the client idle, a dropped transaction also the lock free |
| Clients.AnswersWithinRequests | crates/satunera-store/src/sqlite.rs:65-74 | under any interleaving a client's answers to an operation, with the one it is at work on, are at most its requests of it: nothing is executed twice |
| Clients.EveryAnswerWasRequested | crates/satunera-store/src/sqlite.rs:65-74 | every answer, and every operation a client waits for or is inside, goes back to a request of that client |
| Clients.CommittedReadsDecode | crates/satunera-store/src/sqlite.rs:391-431 | at any point of any interleaving the submission and run reads of the committed tables decode |
| Store.SqliteStore.ReplaceProblems | crates/satunera-store/src/sqlite.rs:249-302 | the upsert loop and the delete loop together have the atomic effect and reply of a full swap |
| Store.SqliteStore.CreateUser | crates/satunera-store/src/sqlite.rs:158-195 | one insert has the atomic effect, a taken handle, email or id being a conflict |
| Store.SqliteStore.CreateSubmission | crates/satunera-store/src/sqlite.rs:352-389 | one insert has the atomic effect of creating a QUEUED row |
| Store.SqliteStore.SetSubmissionStatus | crates/satunera-store/src/sqlite.rs:433-480 | read, check and write have the atomic effect of one move |
| Store.SqliteStore.FinishSubmission | crates/satunera-store/src/sqlite.rs:482-561 | read, check, update, progress UPDATE and, when it hits nothing, progress INSERT have the atomic effect of one finish; every early return changes no table |
| Store.SqliteStore.RecordRun | crates/satunera-store/src/sqlite.rs:606-664 | one insert has the atomic effect, a taken attempt or id being a conflict |
| Paths.Normalize | crates/satunera-contracts/src/source.rs:61-95 | the loop with its early returns computes the normal form |
| Paths.NormalPreservesMeaning | crates/satunera-contracts/src/source.rs:61-95 | a path normalises iff it is relative after slash conversion and `./` trimming, has no `:` and no `..` segment, and walks somewhere; the result has the same segment walk as the input, which never leaves the root |
| Paths.RefusalsHaveCauses | crates/satunera-contracts/src/source.rs:65-93 | a refusal is an escape iff the path is absolute after trimming, has a `:` or says `..`, and not-found iff it does none of that and walks nowhere; both carry the given path |
| Paths.TrimTakesDots | crates/satunera-contracts/src/source.rs:63 | trimming takes off every leading `./` and nothing else |
| Paths.NormalSegments | crates/satunera-contracts/src/source.rs:76-94 | the segments of the result are the naming segments of the input, in order, and the result is canonical |
| Paths.CanonicalIsFixed | crates/satunera-contracts/src/source.rs:61-95 | a string is canonical (no `:`, no backslash, only proper segments) iff it is its own normal form |
| Paths.NormalOfJoined | crates/satunera-contracts/src/source.rs:61-95 | normalising a joined path is joining the normalised parts |
| Paths.RewrittenSilently | crates/satunera-contracts/src/source.rs:61-94 | `a//b` and `a\b` are accepted and become `a/b` |
| Paths.UncoveredSlashRefused | crates/satunera-contracts/src/source.rs:63-74 | `.//a` is refused as an escape |
| Archive.ExecutableBits | crates/satunera-contracts/src/source.rs:244-246 | a mode is executable iff the user, group or other bit is set |
| Archive.PrefixIsSegmentPrefix | crates/satunera-contracts/src/source.rs:320-325 | comparing strings by "equal or starts with the key and a slash" means prefix of segments, for all strings |
| Archive.ListIsSubtree | crates/satunera-contracts/src/source.rs:316-328 | listing gives, strictly sorted, exactly the keys whose segments extend the prefix's; the empty prefix and `.` give all keys; any other prefix without a normal form is its error |
| Archive.TarSource.Insert | crates/satunera-contracts/src/source.rs:272-276 | keys stay canonical; a refused name changes nothing; otherwise exactly one key is set |
| Archive.TarSource.FromEntries | crates/satunera-contracts/src/source.rs:278-288 | builds the fold of the uploads, or reports the first bad name |
| Archive.LastUploadWins | crates/satunera-contracts/src/source.rs:272-288 | the archive has a key iff some upload normalises to it, and holds the last such upload |
| Archive.FirstBadNameDecides | crates/satunera-contracts/src/source.rs:278-288 | an archive is refused iff some upload's name has no normal form, with the error of the first such |
| Archive.ReadIsLastUpload | crates/satunera-contracts/src/source.rs:303-314 | reading any spelling of a path gives the bytes of the last upload under any spelling of it, not-found with the key iff there is none, and for a path without normal form that path's own error |
| Archive.ExecutableIsLastUpload | crates/satunera-contracts/src/source.rs:303-332 | the executable bit reported for any spelling of a path is that of the same last upload, with the same errors |
| Archive.BytesAreConserved | crates/satunera-contracts/src/source.rs:298-301 | stored bytes plus bytes replaced by later uploads are the bytes uploaded |
| Archive.DistinctNamesReplaceNothing | crates/satunera-contracts/src/source.rs:298-301 | with no two uploads under one key the total is all that was uploaded |
| Text.TrimSpec | crates/satunera-contracts/src/verdict.rs:201 | trimming removes exactly the two margins of white space: the result is the only such core |
| Text.SpacesAreWhiteSpace | crates/satunera-contracts/src/verdict.rs:201 | the trimmed characters are the 25 with Unicode's White_Space property |
| Verdicts.LogsAreIgnored | crates/satunera-contracts/src/verdict.rs:195-205 | any logs before a non-blank line and any white space after it leave the result that of the line |
| Verdicts.AnswerIsThePrintedObject | crates/satunera-contracts/src/verdict.rs:208-266 | for any logs, line and white space after it: the answer is `o` iff the line parses to an object that says `o`: the same `ok`, message absent or null iff none and else the text cut at 500, testcase likewise the number, a non-blank message on rejection, and the other keys, sorted, as warnings |
| Verdicts.ComplaintsHaveCauses | crates/satunera-contracts/src/verdict.rs:208-266 | each error has its exact cause, in the order of the checks: no JSON, no object (both quoting the line cut at 120), no `ok`, then the wrong types of `ok`, message and testcase, then a rejection unexplained |
| Verdicts.TextOrderIsByteOrder | crates/satunera-contracts/src/verdict.rs:255-259 | comparing strings by code point and comparing their UTF-8 bytes, which key order and sorting do, are the same order |
| Ordering.LexBelowMeans | crates/satunera-contracts/src/schema.rs:77-81 | one string is below another iff it is a proper prefix of it or has the smaller character where they first differ |
| Verdicts.NoOutputIffBlank | crates/satunera-contracts/src/verdict.rs:197-204 | there is no output iff everything printed is white space |
| Verdicts.TruncateTwice | crates/satunera-contracts/src/verdict.rs:295-300 | cutting twice is cutting once though a cut message has 501 characters; a message is left alone iff it has at most 500 or already ends so cut |
| Verdicts.DecodeOfStored | crates/satunera-contracts/src/verdict.rs:104-123 | decoding a stored output gives everything back except that a warning list turns into a warning about its own field |
| Verdicts.RoundTripExactly | crates/satunera-contracts/src/verdict.rs:104-123 | store-then-decode is the identity iff there was no warning, or only the one about `unknown_keys` |
| Verdicts.StoredOutputChanges | crates/satunera-contracts/src/verdict.rs:119-123 | an acceptance with an unknown key `detail` decodes, and its stored form decodes to a different output |
| Verdicts.StoredIsRestored | crates/satunera-contracts/src/verdict.rs:105-123 | the derived deserializer restores every output, warnings included, from its stored object |
| Verdicts.ExitCodeDecides | crates/satunera-contracts/src/verdict.rs:269-292 | whatever was printed, the verdict is AC or WA, the exit code agrees iff it is 0 for AC and not 0 for WA, a disagreement reports both sides, and a rejection always carries a non-blank message |
| Verdicts.StrictObjectsDecodeExactly | schemas/verdict.schema.json:6-27 | of the objects the schema accepts the decoder takes exactly those with an integer `testcase` below 2^32 and a non-blank rejection message, and loses nothing of them |
| Verdicts.StrictObjectRefused | crates/satunera-contracts/src/verdict.rs:234-249 | the schema accepts `testcase` 1.0 and the decoder refuses it |
| Verdicts.LargeTestcaseRefused | crates/satunera-contracts/src/verdict.rs:234-249 | the schema accepts `testcase` 2^32 and the decoder refuses it |
| Verdicts.BlankRejectionRefused | crates/satunera-contracts/src/verdict.rs:251-253 | the schema accepts a rejection that says one space and the decoder refuses it |
| Verdicts.StoredIsStrictExactly | schemas/verdict.schema.json:6-27 | a stored output satisfies the schema iff it has no warnings and its message, if any, is neither empty nor cut |
| Verdicts.CutMessageBreaksSchema | crates/satunera-contracts/src/verdict.rs:295-300 | a rejection with a message of 501 characters decodes without warnings, and its stored form violates the schema |
| Verdicts.OffsetIsPrefix | crates/satunera-contracts/src/verdict.rs:296-298 | the byte offset of the k-th character is the length of the encoding of the first k, and falls on a character boundary |
| Verdicts.TruncateCutsOnBoundary | crates/satunera-contracts/src/verdict.rs:295-300 | the byte slice is cut between two characters and the result has at most 2003 bytes |
| Blobs.DecimalReadsBack | crates/satunera-store/src/blob.rs:65-73 | the decimal text of an attempt reads back as that attempt |
| Blobs.DecimalIsCanonical | crates/satunera-store/src/blob.rs:65-73 | no attempt has two spellings: only 0 starts with a zero |
| Blobs.KeyInjective | crates/satunera-store/src/blob.rs:62-74 | different kinds have different keys |
| Blobs.KeyComponents | crates/satunera-store/src/blob.rs:62-74 | a key taken apart at its slashes is `blobs` and the digest, or `logs`, the submission and a canonical decimal of the attempt |
| Blobs.HexIsLowercase | crates/satunera-store/src/blob.rs:26-33 | a digest is accepted, unchanged, iff it has 64 characters, all among 0-9 and a-f |
| Blobs.SourceKeysAreDigests | crates/satunera-store/src/blob.rs:26-33 | `blobs/` followed by a name is some kind's key iff `from_hex` takes the name |
| Blobs.TmpIsPathDotTmp | crates/satunera-store/src/blob.rs:120-122 | replacing the extension of a final path appends `.tmp` to it |
| Blobs.PathsAreDistinct | crates/satunera-store/src/blob.rs:100-122 | final paths and temporary names of all kinds are pairwise different files |
| Blobs.NextKeepsKind | crates/satunera-store/src/blob.rs:114-127 | each step of any put, a failure or a crash keeps every key whose own puts do not overlap consistent with its completed puts, even while puts of other keys do overlap |
| Blobs.PutsAreAtomic | crates/satunera-store/src/blob.rs:114-127 | under any interleaving of any number of puts and crashes anywhere, a key whose own puts do not overlap reads as the complete bytes of its last completed put, or as nothing |
| Blobs.CrashLosesNothing | crates/satunera-store/src/blob.rs:120-124 | a crash leaves every key reading as before and nobody at work on it |
| Blobs.PutIsSafeIff | crates/satunera-store/src/blob.rs:114-127 | starting one more put of a key is safe in every continuation iff no other put of it is under way, or both have no bytes; otherwise some interleaving, with no further put started, leaves the key torn |
| Blobs.SameBytesMayTear | crates/satunera-store/src/blob.rs:49-51 | two overlapping puts of the same non-empty bytes under one key can leave it torn |
| Blobs.PutRun | crates/satunera-store/src/blob.rs:114-127 | the steps of one call, with or without an I/O error, come to one change of the file map |
| Blobs.FsBlobStore.Put | crates/satunera-store/src/blob.rs:114-127 | a call is a run of those steps; on success the answer is `file://` and a path under the root where the bytes read back, and no temporary file is left; every other key, and on failure this one, reads as before |
| Blobs.FsBlobStore.UriNamesPath | crates/satunera-store/src/blob.rs:140-142 | the URI names the key's path under the root, and no two kinds share one |
| Blobs.FsBlobStore.Get | crates/satunera-store/src/blob.rs:129-138 | returns the bytes of the key's last completed put, not-found with the key iff there was none, and an I/O error only when the file system refuses |
| Canonical.SortViolations | crates/satunera-contracts/src/schema.rs:77-81 | the result is ordered by pointer, then message, and a permutation of the input |
| Canonical.Dedup | crates/satunera-contracts/src/schema.rs:82 | of a sorted list the result is strictly increasing with the same members |
| Canonical.Collect | crates/satunera-contracts/src/schema.rs:66-84 | sorting and deduplicating gives the increasing enumeration of the set of violations |
| Canonical.CollectedIsUnique | crates/satunera-contracts/src/schema.rs:66-84 | that list is the only strictly increasing one with those members |
| Canonical.CollectedByPointer | crates/satunera-contracts/src/schema.rs:77-81 | the list is ordered by pointer, and under one pointer by message |
| Canonical.ListingOrderIsInvisible | crates/satunera-contracts/src/schema.rs:75-83 | any two listings of the same violations, in any order and with any repetition, are reported alike |
| Canonical.ReferencedProblems | crates/satunera-contracts/src/config.rs:40-50 | the nested loops keep the first mentions of all tracks' ids |
| Canonical.FirstMentionsInOrder | crates/satunera-contracts/src/config.rs:38-50 | every mentioned id and no other is in the result, strictly ordered by the position of its first mention |
| Canonical.FirstMentionsUnique | crates/satunera-contracts/src/config.rs:38-50 | no other list has that property |
| Canonical.ReferencedInDeclarationOrder | crates/satunera-contracts/src/config.rs:38-50 | a problem is in the result iff some track has it, and of two problems the one first mentioned in an earlier track, or at an earlier place of the same track, comes first |

## Left out

- SQL text, connection pools, WAL files and migration machinery: tables are maps, with the declared constraints and one write lock; a busy timeout is a request that gives up.
- Database errors other than constraint violations (disk full, I/O) inside a transaction: they are the crash step, which drops the transaction without an answer.
- ULID generation and text, SHA-256, RFC 3339 text: ids are integers in the order of their text, hashes and timestamps are opaque, and the timestamp round trip is assumed.
- The 64-bit overflow of the `attempts` column: attempts are unbounded in the table; the 32-bit limit of the read is modelled.
- Sub-second clock behaviour and clock monotonicity: every clock reading is an arbitrary input.
- `serde_json` text parsing is a parameter of the verdict functions, and JSON numbers with a fraction are reals, not floats. The `jsonschema` engine is a predicate that spells out `verdict.schema.json`.
- The Unicode side of `char`: one Dafny character is one code point; normalisation and grapheme clusters play no part.
- `DirSource`: canonicalisation, directory walks and symbolic links are file-system I/O; it also differs from the in-memory source on directories and on listing `./`.
- Durability under power loss (`fsync`) and directories of the blob store are not modelled.
- Transactions.AdvanceProgresses: counts a delete-loop step only when it takes an id not yet looked at; a schedule that offers another id does nothing in that step.
- Clients.EveryCallCompletes: a client that finds the lock free can always finish by its own steps; that a waiting client ever finds it free depends on the scheduler and is not claimed.
- Path joining in the blob store is `root + "/" + key`; roots that end in a slash or are empty are not treated apart.
- The retry limit `MAX_AUTOMATIC_RETRIES`: no code of the modelled files enforces it, so the number of re-entries is a parameter of a run.
- The standard library's `sort_by` is modelled as a stable insertion sort, since only its result matters.
- Lookups by handle, the problem listing in id order, `env.rs`, error texts, `compose_profiles`, id newtypes, `len` and `is_empty`: they would only add easy members.

# THE EYE: a verified model

THE EYE collects security events on Windows machines, ships them to a backend, and keeps them in a
hash-chained ledger that an independent verifier can recompute. This project models the parts of the system
that its promises rest on and proves those promises. `dafny verify dfyconfig.toml` checks everything.

| module | what it models |
|---|---|
| `Text`, `Json`, `Calendar` | string order, decimal numerals, the canonical JSON printer with a reader that undoes it, calendar times |
| `Hashing`, `Table`, `Verify`, `Append` | the hashed payload of a ledger row, the table read in number order, the verifying loop, appending under the head lock |
| `Tamper`, `Writers` | what a clean report proves, and concurrent writers with commit and rollback |
| `Queue`, `Shipper` | the agent's file queue and the shipping loop with back-off, on a file system whose listings, reads, writes and removals may fail |
| `AgentRun`, `AgentFates`, `AgentMatch` | the agent as a step system, what can happen to single events, and that the operations of `Queue` and `Shipper` are runs of its steps |
| `FileWatcher`, `NoisyPaths` | the decoder of change notifications, the pairing of rename halves, and the noise filter |
| `EventSchema`, `Ingest` | the checks in front of the ledger and the ingest loop of the agent endpoint |
| `RateLimit`, `Sessions`, `DeletionGate` | the sliding-window limiter, sessions and their revocation, the four-signature gate |
| `RiskScores`, `AlertQueries`, `Alerts` | cached scores, and alerts with acknowledgements, both derived from the ledger |

Objects that the program updates in place are classes whose methods are proved against a specification
function; what the system promises is then proved about that function, over all inputs and all runs. Processes
that interleave are step systems (`Writers`, `AgentRun`); `AgentMatch` ties the steps of the agent to the class
methods of the queue and the shipper.

SHA-256 is a function parameter. A statement that depends on it says what the alternative is: two different
texts, taken from the very rows at hand, with one digest, or a row text whose digest is the genesis value.

## What the code relies on

The statements carry these as preconditions:

- Stored rows read back as written: `occurred_at` is in UTC, because the payload keeps the offset, and JSON is made
  of null, booleans, integers, strings without surrogates, lists and objects with string keys.
- Sequence numbers of stored rows are unique, as the database enforces; their order is not assumed (`Table.UniqueNumbers`).
- Clock readings do not decrease (`RateLimit.Orderly`, `RiskScores.Honest`).
- Session tokens are fresh (`Sessions.FreshTokens`).
- A reopened queue's counter does not start below the number of a surviving file, and never wraps around 64 bits
  (`AgentRun.SafeRun`).
- The database answers a query from the ledger of the moment (`RiskScores.Grouped`, `AlertQueries.Queried`).
- The 64-bit build of the agent: lengths and offsets of change records do not overflow `int`.

## Where the code and its documentation disagree

The model follows the code; each line names the lemma with the counterexample or the exact condition.

- `agent/queue/queue.go:49` says that the seed of a reopened counter never collides with existing files. It can: with
  one surviving file number 2 and a clock that reads 0 the counter restarts at 1 and the next event overwrites it
  (`AgentFates.SeedCanReuseANumber`). In any run an event is lost exactly if some step writes under a number in use, or
  acks a file that was replaced since it was sent (`AgentFates.LostIff`); when m events are written right after
  reopening, exactly if a survivor's number lies in the next m (`AgentFates.ReopenLosesIff`).
- `agent/queue/queue.go:107-108` says that batches are the oldest events first. A file that cannot be read for a moment is
  passed over, and younger events are shipped and acked before it (`AgentRun.UnreadableIsOvertaken`, exactly when:
  `AgentRun.AckedInOrderIff`).
- `README.md:163-165` says that any successful edit is reported. A rewritten last row that stays the last is reported
  unless it is linked and carries its own hash (`Tamper.LastRewriteEscapesIff`), and rows dropped from the end never are
  (`Tamper.TruncationNotReported`).
- `backend/app/core/rate_limit.py:9-11` says that idle keys leave the table. A key is removed only by a call that puts
  it straight back, so the table never shrinks, and once it is full every other key is refused for good
  (`RateLimit.TableOnlyGrows`, `RateLimit.FullForever`); 50,000 single calls fill it (`RateLimit.VisitsShutOut`). A
  limit below 1 still admits one call per window (`RateLimit.KeptIff`, `RateLimit.ZeroLimitAdmits`).
- `backend/app/services/deletion_request_service.py:70-73` says that the fourth approval executes the request. The
  deactivation commits on its own before the status is set, so a crash in between leaves the request pending with all
  four approvals and no role able to vote again (`DeletionGate.TruthfulIff`, `DeletionGate.CrashStrands`).
- `backend/app/api/v1/agent.py:154-155` says that every event type is forced into the pattern. A left part of more than
  126 characters loses its right part or its dot, and the event is then skipped (`Ingest.SanitisedValidIff`,
  `Ingest.AcceptedIff`).
- `agent/collector/filewatcher_windows.go:191-203` pairs whatever halves pass the noise filter: a rename to a noisy name
  followed by one from a noisy name is reported as one rename of two unrelated files (`FileWatcher.JoinedRenames`,
  exactly when: `FileWatcher.PairsCorrectlyIff`). With the program's own filter, report.docx -> a.tmp and then
  b.tmp -> plan.docx is reported as report.docx -> plan.docx (`FileWatcher.ReportBecomesPlan`).

## Model

| member | source | states |
|---|---|---|
| Text.PaddedOrder | agent/queue/queue.go:79 | zero-padded decimals of one width sort as strings exactly as their numbers sort |
| Text.PaddedInjective | agent/queue/queue.go:79 | different numbers have different zero-padded decimals of one width |
| Json.ValueRoundTrip | backend/app/ledger/hashing.py:67 | reading the compact text of any nested value, with anything behind it, gives back that value and leaves what follows |
| Json.SortedKeepsMeaning | backend/app/ledger/hashing.py:67 | sorting the keys at every level keeps what the value means, and yields the one canonical order |
| Json.CanonicalUnique | backend/app/ledger/hashing.py:67 | two values with sorted keys that mean the same are the same |
| Json.DumpsRoundTrip | backend/app/ledger/hashing.py:67 | parsing a serialised value consumes the whole text and yields the value with sorted keys |
| Json.DumpsCanonical | backend/app/ledger/hashing.py:44-68 | two values serialise alike if and only if they mean the same: injective, and blind to insertion order |
| Json.EscapeForm | backend/app/ledger/hashing.py:67 | a character stands for itself exactly if it is printable ASCII other than quote and backslash, has a two-character escape exactly if it is one of seven, and otherwise takes one numeric escape, or two beyond the basic plane |
| Json.HexDigits | backend/app/ledger/hashing.py:67 | numeric escapes use lower-case hexadecimal digits |
| Json.TextPrintable | backend/app/ledger/hashing.py:67 | whatever is printed is printable ASCII |
| Hashing.IsoInjective | backend/app/ledger/hashing.py:23-24 | two UTC times with one ISO text are the same time |
| Hashing.IsoSays | backend/app/ledger/hashing.py:23-24 | the text of a time is date, T, time of day, microseconds if there are any, and +00:00, every field in its place and in a fixed number of digits |
| Hashing.PairsSorted | backend/app/ledger/hashing.py:48-67 | payloads with the same field names sort to the same object if and only if every field does |
| Hashing.TextDeterminesContent | backend/app/ledger/hashing.py:27-68 | the hashed text of two rows is equal if and only if all fourteen hashed columns agree, dictionaries compared as dictionaries |
| Hashing.TextSaysColumns | backend/app/ledger/hashing.py:44-68 | the hashed text, read back whole, is a sorted object of exactly fourteen entries, each column under its own name |
| Table.ReadsAscending | backend/app/ledger/verify.py:40-42 | however the rows are stored, a table is read in its one ascending order of sequence numbers |
| Table.ReadAfterUpdate | backend/app/ledger/verify.py:40-42 | after a row is overwritten, the other rows are read in their order and the new row where its number puts it |
| Verify.VerifyRows | backend/app/ledger/verify.py:44-85 | the loop counts the rows, and its report names exactly the wrong predecessor hashes and record hashes, with number, column, expected and actual value, in reading order; none if and only if every row is linked |
| Verify.VerifyChain | backend/app/ledger/verify.py:36-87 | the same of a table read in number order from genesis: its count, its entries and their order, and ok exactly for valid chains |
| Verify.ReportNamesExactly | backend/app/ledger/verify.py:44-85 | an entry about prev_hash is reported if and only if some row has that number and that predecessor hash, and the expected other one is the record hash before it; an entry about record_hash if and only if some row has that number and that record hash, and the expected other one is recomputed from it |
| Verify.ReportInReadOrder | backend/app/ledger/verify.py:44-85 | entries come by ascending number, and for one row prev_hash before record_hash |
| Verify.NoDivergenceIffValid | backend/app/ledger/verify.py:47-85 | no divergence if and only if every row names its predecessor's hash and hashes to its own |
| Verify.DivergencesConcat | backend/app/ledger/verify.py:38-85 | verifying a concatenation is verifying the first part and then the second from the first one's last record hash |
| Verify.ValidConcat | backend/app/ledger/verify.py:38-85 | a concatenation is a valid chain if and only if both parts are, the second starting from the first one's last hash |
| Verify.FirstDivergence | backend/app/ledger/verify.py:47-83 | the first entry is about the first row that is not linked: its prev_hash if that is wrong, otherwise its record_hash |
| Tamper.SameTipSameLedger | backend/app/ledger/verify.py:36-87 | two tables that verify and end in one record hash read as ledgers of the same length that agree on every hashed column, or rows of theirs break the hash |
| Tamper.ChangeReported | backend/app/ledger/verify.py:40-85 | whatever was changed in a verified table, if an old row is still read but not behind the same rows as before, the report is not clean and its first entry names a row from the first changed place to that row, or the rows break the hash |
| Tamper.EditReported | README.md:163-165 | editing a hashed column of any row, its sequence number included, is reported: the first entry is exactly known (the prev_hash of the row that takes its place if it moved back, else its own prev_hash if that is wrong where it is now read, else its record_hash), and its record_hash is always reported; or the rows break the hash |
| Tamper.RewriteReported | README.md:163-165 | editing a row and rewriting its record hash, unless it stays the last row, is reported first where it is now read or at the row behind it, or at the row that takes its place; or the rows break the hash |
| Tamper.LastRewriteEscapesIff | backend/app/ledger/verify.py:40-85 | a rewritten last row that is still read last goes unreported if and only if it is linked and carries its own hash |
| Tamper.LastMovedReported | backend/app/ledger/verify.py:40-85 | a rewritten last row whose number moves it forward is always reported, at the place where it is now read or the next, or the rows break the hash |
| Tamper.DeletionReported | backend/app/ledger/verify.py:47-55 | deleting a row that is not the last is reported first at the row after it, or the rows break the hash |
| Tamper.TruncationNotReported | backend/app/ledger/verify.py:36-87 | dropping the rows with the highest numbers from a verified table is never reported |
| Tamper.ReportIgnoresKeyOrder | backend/app/ledger/verify.py:57-73 | ledgers that agree on hashed columns, whatever the key order of dictionaries and the other columns, get the same report |
| Append.ChainHead.Seed | backend/migrations/versions/0006_seed_genesis_record.py:20-31 | the seeded head is number 0 with a hash of 64 zeros |
| Append.NextRowHash | backend/app/ledger/append.py:37-53 | the hash computed before the insert is the one a verifier recomputes from the row |
| Append.Session.AppendEvent | backend/app/ledger/append.py:23-85 | adds the row that follows the locked head and moves the head to it |
| Append.Session.AppendBatch | backend/app/ledger/append.py:88-102 | adds the whole chain of rows for the batch, in order, and leaves the head at the last one |
| Append.BuildConcat | backend/app/ledger/append.py:88-102 | appending two batches is appending their concatenation |
| Append.BuildIsChain | backend/app/ledger/append.py:34-85 | appended rows are numbered without gaps, carry the events in order, link to each other and hash to their own record hash; the head is the last of them |
| Append.AppendKeepsVerified | backend/app/ledger/append.py:23-102 | a ledger that verifies still verifies after any batch |
| Writers.Serializable | backend/app/ledger/append.py:32-85 | however writers interleave, the committed ledger is what one writer would have built from the committed events in commit order |
| Writers.CommittedChain | backend/app/ledger/append.py:32-85 | in every reachable state committed rows are numbered 1..n and linked, the head is (n, last hash), and the ledger verifies |
| Writers.InsertIsFresh | backend/app/ledger/append.py:34-80 | an inserted sequence number is larger than every committed one and every one of its own transaction |
| Writers.HeldLock | backend/app/ledger/append.py:32 | while a writer holds the head lock, nothing but its own transaction changes |
| Writers.RollbackLeavesNoTrace | backend/app/api/v1/events.py:55-60 | a rolled-back batch leaves the whole system as it was before it took the lock |
| Writers.CommitPublishes | backend/app/ledger/append.py:32-85 | a transaction that commits adds exactly the rows of what it inserted, in order, moves the head to the last of them and frees the lock, whatever the other writers tried meanwhile |
| Queue.NamesSortByNumber | agent/queue/queue.go:79 | file names are 20 digits of the number and .json, sort exactly as their 64-bit numbers, and are distinct |
| Queue.OldestFirst | agent/queue/queue.go:88-104 | Peek(n) yields the first n queue files of the directory in name order and leaves out only later ones |
| Queue.Queue.New | agent/queue/queue.go:43-56 | the directory as it is, with the counter at 0 for an empty listing and otherwise at the number of files listed plus the clock's nanoseconds modulo a million |
| Queue.Queue.Enqueue | agent/queue/queue.go:60-81 | a directory that lists 100,000 entries only counts a drop; otherwise the counter moves on by one and one file of that number is written, torn or lost; what is written is the event, with the time filled in only if it had none |
| Queue.Queue.Peek | agent/queue/queue.go:84-105 | returns the oldest n names, or fails if the directory cannot be listed |
| Queue.FirstQueueFiles | agent/queue/queue.go:95-104 | the loop over sorted entries keeps the first n queue files |
| Queue.SortNames | agent/queue/queue.go:92-94 | the entries in ascending name order |
| Queue.Queue.ReadBatch | agent/queue/queue.go:109-130 | a listing that fails changes nothing; otherwise events and paths are aligned index by index, unreadable files are passed over and stay, and exactly the undecodable ones are removed, except where the removal fails |
| Queue.Queue.Ack | agent/queue/queue.go:133-137 | removes exactly the given files whose removal does not fail |
| Queue.Queue.PurgeStale | agent/queue/queue.go:150-159 | removes exactly the files more than 7 * 24 * 3600 seconds old, except those whose age or removal fails |
| Shipper.WaitClosedForm | agent/shipper/shipper.go:87-102 | after k consecutive errors the base wait is 2^(k+1) seconds, or 300 if that is more, whatever came before |
| Shipper.BatchIff | agent/shipper/shipper.go:109 | the batch is the readable and decodable ones of the oldest 100 queue files, in name order |
| Shipper.Shipper.ShipOne | agent/shipper/shipper.go:105-153 | by status code: after no response, 500 and above, 401 or 403 only undecodable files are gone, nothing counts as sent, and the round fails if it had a batch; after another code from 400 the batch is gone and nothing counts as sent; below 400 the batch is gone and counts as sent; an unlisted directory fails the round and changes nothing |
| Shipper.Shipper.Run | agent/shipper/shipper.go:86-102 | with anything done to the directory between rounds: which rounds fail, what is left in the queue and counted as sent after all of them, and that every failed round sleeps its base wait plus less than half of it and the others do not |
| AgentRun.PeekByNumber | agent/queue/queue.go:79-105 | Peek's name order is the order of file numbers: it returns the n lowest numbers, lowest first |
| AgentRun.EventsConserved | agent/queue/queue.go:58-137 | in every run, restarts and failing reads, writes and removals included, each written event is in exactly one place: one file, or one recorded fate |
| AgentRun.Delivery | agent/shipper/shipper.go:105-153 | an event off the disk was acked after a reply below 400 to a request containing it, or after a 4xx other than 401 and 403, or was written undecodable, or was older than seven days when purged; none is overwritten or acked unsent, and requests list events in the order of writing |
| AgentRun.PeekIsFifo | agent/queue/queue.go:84-105 | in every reachable state Peek returns the oldest surviving events, oldest first |
| AgentRun.AckedInOrderIff | agent/queue/queue.go:109-137 | when a file is acked, every event still on disk is younger, if and only if no file with a lower number that this round could not read or remove is still there |
| AgentRun.LeftOnlyByFailure | agent/queue/queue.go:116-137 | without a read or removal that fails, a round leaves no file behind |
| AgentRun.UnreadableIsOvertaken | agent/queue/queue.go:117-120 | a run in which an unreadable file is overtaken by a younger event |
| AgentRun.RemovedOnlyBy | agent/shipper/shipper.go:137-153 | in every run a file leaves or changes only by the ack of a batch whose request listed its event and was answered below 400 or with a 4xx other than 401 and 403, as undecodable, or as older than seven days: no other reply removes anything |
| AgentFates.LostIff | agent/queue/queue.go:49-137 | in any run, however the counter is seeded, an event is lost if and only if some step writes under a number in use or acks a file that was replaced since it was sent |
| AgentFates.ReopenLosesIff | agent/queue/queue.go:49-52 | after reopening, m events written in a row destroy a survivor if and only if a survivor's number lies in the next m |
| AgentFates.SeedCanReuseANumber | agent/queue/queue.go:49-52 | a run in which the seed the code computes reuses a surviving file's number and the next event overwrites it |
| AgentFates.SentOnceAfterAcceptance | agent/shipper/shipper.go:131-152 | no event of an accepted request is in a later request, unless a restart or a failing removal interrupted the acks |
| AgentMatch.EnqueueMatches | agent/queue/queue.go:60-81 | an enqueue step does to the directory and the counter what `Queue.Queue.Enqueue` does |
| AgentMatch.RestartMatches | agent/queue/queue.go:43-56 | a restart step leaves the directory and seeds the counter as `Queue.Queue.New` does |
| AgentMatch.PurgeMatches | agent/queue/queue.go:150-159 | purge steps over all files leave what `Queue.Queue.PurgeStale` leaves |
| AgentMatch.RoundMatches | agent/shipper/shipper.go:105-153 | for every outcome of listing, reading, removing and sending, an uninterrupted round of steps leaves what `Shipper.Shipper.ShipOne` leaves and makes one request for its batch |
| RateLimit.RateLimiter.Check | backend/app/core/rate_limit.py:22-49 | one call's decision and the table it leaves, pruning included |
| RateLimit.Refinement | backend/app/core/rate_limit.py:22-49 | in every history the pruned table decides each call as counting the admitted calls in the closed window would, and a new key by the number of keys ever admitted |
| RateLimit.AtMostLimit | backend/app/core/rate_limit.py:36-40 | any closed interval of window length holds at most the limit of admitted calls of a key |
| RateLimit.KeptIff | backend/app/core/rate_limit.py:23-24 | the documented limit is kept if and only if it is at least 1 or the call is refused anyway |
| RateLimit.ZeroLimitAdmits | backend/app/core/rate_limit.py:36-49 | a limit of 0 admits a first call |
| RateLimit.TableOnlyGrows | backend/app/core/rate_limit.py:30-49 | the table never exceeds 50,000 keys and never loses one |
| RateLimit.FullForever | backend/app/core/rate_limit.py:42-46 | once the table is full, an untracked key is refused in the whole rest of the history |
| RateLimit.TableSize | backend/app/core/rate_limit.py:22-49 | from the empty table, after any history the table holds as many keys as were ever used, up to 50,000 |
| RateLimit.StrangerRefusedIff | backend/app/core/rate_limit.py:42-46 | a key never used before is refused if and only if 50,000 others were used before it, however long ago |
| RateLimit.VisitsShutOut | backend/app/core/rate_limit.py:42-46 | 50,000 single calls shut out every other key at any later time |
| FileWatcher.Watcher.ReadName | agent/collector/filewatcher_windows.go:163-166 | the loop reads the UTF-16 units of a name |
| FileWatcher.Watcher.ReadRecord | agent/collector/filewatcher_windows.go:154-167 | finds a record exactly where a whole one lies below the returned count |
| FileWatcher.Watcher.React | agent/collector/filewatcher_windows.go:170-205 | the events of one change and the pending rename half it leaves |
| FileWatcher.OnChangeReacts | agent/collector/filewatcher_windows.go:170-205 | by action number: 1 is file.created, or file.copied_to_usb with severity critical on a removable drive; 2 is file.deleted with severity high; 3 is file.modified, on fixed drives only; 4 waits for the next 5, which makes one event with both paths, a deletion for the recycle bin; a noisy path does nothing |
| FileWatcher.Watcher.HandleRead | agent/collector/filewatcher_windows.go:152-211 | for every buffer and count the walk terminates, depends only on the bytes below the count, and reacts to its records in order |
| FileWatcher.RecordsRoundTrip | agent/collector/filewatcher_windows.go:152-167 | walking the encoding of any records, whatever the padding, yields their actions and their names up to the first NUL, in order; NUL-free names come back whole |
| FileWatcher.SplitDoesNotMatter | agent/collector/filewatcher_windows.go:126-211 | splitting a stream of records over any reads yields the same events |
| FileWatcher.PairsCorrectlyIff | agent/collector/filewatcher_windows.go:170-205 | with adjacent halves the events are those due by action number and one for each clean rename, if and only if no rename to a noisy name is followed, before the next clean old name, by one from a noisy to a clean name |
| FileWatcher.CleanRenames | agent/collector/filewatcher_windows.go:194-203 | when both halves of every rename pass the filter, each yields one event with both paths, a delete exactly for the recycle bin |
| FileWatcher.JoinedRenames | agent/collector/filewatcher_windows.go:191-203 | two renames through noisy names are reported as one rename between unrelated files |
| FileWatcher.JoinedOnDrive | agent/collector/filewatcher_windows.go:191-203 | the same with the filter modelled: on a drive, whenever the names in between are listed as noise and the outer ones are not |
| FileWatcher.ReportBecomesPlan | agent/collector/filewatcher_windows.go:56-75 | with the program's lists: report.docx -> a.tmp and b.tmp -> plan.docx is reported as report.docx -> plan.docx |
| NoisyPaths.InRootNoisyIff | agent/collector/filewatcher_windows.go:265-284 | a file right below a drive is noise if and only if its extension or its name is listed, or its name starts as an Office temporary file |
| NoisyPaths.NoisyIff | agent/collector/filewatcher_windows.go:265-284 | a file in any directory is noise if and only if its extension or its name is listed, in either case, its name starts as an Office temporary file, or a listed part occurs in the path |
| Sessions.UserService.SetUserPassword | backend/app/services/user_service.py:69-79 | the new password, and no session of that user left |
| Sessions.UserService.CreateSession | backend/app/services/user_service.py:82-93 | a session of 24 hours under the token's hash, not seen yet, unless that hash is taken |
| Sessions.UserService.GetUserBySessionToken | backend/app/services/user_service.py:96-115 | who a token authenticates, and the last-seen time it sets |
| Sessions.UserService.DeleteSessionByToken | backend/app/services/user_service.py:129-137 | removes that session only |
| Sessions.UserService.RevokeAllSessions | backend/app/services/user_service.py:65-66 | removes exactly the user's sessions |
| Sessions.UserService.DeactivateUser | backend/app/services/user_service.py:140-154 | deactivates and revokes within the tenant, and nothing otherwise |
| Sessions.UserService.ReactivateUser | backend/app/services/user_service.py:157-166 | reactivates within the tenant, and nothing otherwise |
| Sessions.UserService.ChangeRole | backend/app/services/user_service.py:169-180 | changes the role and revokes within the tenant, and nothing otherwise |
| Sessions.RowIff | backend/app/services/user_service.py:65-180 | after any history a session row exists if and only if it was issued and no later operation ended it |
| Sessions.ActiveIff | backend/app/services/user_service.py:140-166 | a user is active if and only if it was at the start or was reactivated, with no deactivation in its tenant since |
| Sessions.PasswordIsLast | backend/app/services/user_service.py:69-79 | after any history the stored password hash and salt are those of the last password change, or the first ones |
| Sessions.RoleIsLast | backend/app/services/user_service.py:169-180 | after any history the role is the one of the last change by the user's own tenant, or the first one |
| Sessions.LastSeenIs | backend/app/services/user_service.py:96-115 | the last-seen time of a live session is that of the last request with its token while it was open |
| Sessions.AuthenticatesIff | backend/app/services/user_service.py:65-180 | a token authenticates a user if and only if it was issued to that user at most 24 hours ago, nothing revoked or deleted it since, and by the history the user is active |
| Sessions.RevokedForever | backend/app/services/user_service.py:69-180 | after a password change, role change or deactivation no earlier token of the user authenticates at any later point, reactivation included |
| Sessions.OtherTenantNoEffect | backend/app/services/user_service.py:140-180 | an operation with another tenant's id changes nothing |
| DeletionGate.DeletionRequest.Decide | backend/app/services/deletion_request_service.py:67-115 | the outcome and the new state of a call; the target changes exactly on the call that executes |
| DeletionGate.DeletionRequest.Execute | backend/app/services/deletion_request_service.py:118-122 | deactivates the target within the tenant and nothing else |
| DeletionGate.TargetDeactivated | backend/app/services/deletion_request_service.py:118-122 | a user of the tenant is deactivated and loses all sessions, or a source of the tenant is deactivated; every other row stays as it is |
| DeletionGate.TruthfulIff | backend/app/services/deletion_request_service.py:97-115 | a call keeps the status truthful if and only if it does not crash between an effective deactivation and the final commit |
| DeletionGate.StatusMeansIff | backend/app/services/deletion_request_service.py:67-115 | in every serial run, whatever other calls crash, the status is truthful if and only if no call crashed there: executed means all four roles approved, rejected means one rejection and it was the last vote, the action took effect at most once and only if executed |
| DeletionGate.CrashedVoteIsLost | backend/app/services/deletion_request_service.py:87-115 | any other crash, at whatever point of a run, loses the vote and leaves no trace in the rest of the run |
| DeletionGate.DecidedIsFinal | backend/app/services/deletion_request_service.py:74-75 | a decided request never changes, and every later call is refused |
| DeletionGate.ExecutedByFour | backend/app/models/deletion_request.py:9-13 | with approver roles only and no such crash, executed if and only if there are four approvals, one from each role |
| DeletionGate.AnyOrderExecutes | backend/app/services/deletion_request_service.py:102-110 | the four roles may approve in any order: pending until the fourth, then executed |
| DeletionGate.CrashStrands | backend/app/services/deletion_request_service.py:107-114 | after such a crash the request stays pending with its action done, whatever the approvers do |
| RiskScores.ComputeActorRiskScores | backend/app/services/stats_service.py:81-120 | from the grouped rows, the ranking of the ledger: every actor once with its counts and last-seen time, highest score first, ties by activity |
| RiskScores.LastSeenIsLatest | backend/app/services/stats_service.py:90 | the last-seen time is that of one of the actor's rows, and none of them is later |
| RiskScores.RankingFromGroups | backend/app/services/stats_service.py:81-120 | scoring and stable sorting turn the grouped rows into that ranking |
| RiskScores.ScoreIs | backend/app/services/stats_service.py:98-109 | a score is 5 for each failure, 10 for each high or critical, 3 for each administrative and 2 for each financial event, and 100 at most |
| RiskScores.CountNext | backend/app/services/stats_service.py:82-95 | a row counts exactly for its actor, in its tenant, and only from a source of the tenant's agent |
| RiskScores.ScoreGrows | backend/app/services/stats_service.py:100-109 | a score never decreases as the ledger grows |
| RiskScores.RiskScoreCache.GetActorRiskScores | backend/app/services/stats_service.py:242-252 | the answer and the cache it leaves |
| RiskScores.AnswersAreRecent | backend/app/services/stats_service.py:242-252 | every answer in every run is the asking tenant's ranking of the ledger as it was less than 20 seconds ago |
| RiskScores.RankingStays | backend/app/services/stats_service.py:242-252 | once computed, a tenant's ranking is its answer for 20 seconds, whatever is appended and whoever else asks |
| RiskScores.LimitedIs | backend/app/services/stats_service.py:248-252 | a limit takes the first entries, and a negative one leaves out the last |
| RiskScores.AnswersNeverHigher | backend/app/services/stats_service.py:81-120 | no answer shows an actor with more than its current score, or more than 100, or as seen later than it was |
| Calendar.AtInjective | backend/app/services/alert_service.py:52 | no two seconds since 1970 have the same calendar time |
| Calendar.AtIs | backend/app/services/alert_service.py:52 | the calendar time of a number of seconds is that of the Gregorian calendar, by the usual formula |
| Alerts.BucketStart | backend/app/services/alert_service.py:46-52 | the bucket start is a multiple of the window, at or before now, less than a window ago |
| Alerts.BucketUnique | backend/app/services/alert_service.py:46-52 | no other multiple of the window is |
| Alerts.KeyDetermines | backend/app/services/alert_service.py:55-60 | the hashed text determines rule, tenant, actor and bucket, or the financial row, colons in actor ids or not; equal keys mean equal alerts or a collision |
| Alerts.RawKeyReads | backend/app/services/alert_service.py:55-60 | the hashed text is rule, tenant, actor and bucket start in this order, with colons between, or critical_financial and the row id |
| Alerts.KeysAre | backend/app/services/alert_service.py:63-124 | the keys of the two threshold rules are the digests of these texts, with buckets of 15 and of 10 minutes |
| Alerts.AlertForms | backend/app/services/alert_service.py:78-151 | rule ids, severities, times and status of the alerts of the three rules |
| Alerts.AlertService.Mark | backend/app/services/alert_service.py:165-180 | the loop marks each alert with its tenant's acknowledgement of its key |
| Alerts.MarkedIs | backend/app/services/alert_service.py:165-180 | an alert shows the acknowledgement under its key if that is the tenant's own, and is as raised otherwise |
| Alerts.AlertService.EvaluateAlerts | backend/app/services/alert_service.py:154-183 | when the three queries answer from the ledger, the list shows an alert for exactly the actors with at least 5 failures in 15 minutes, exactly those with at least 10 data accesses in 10 minutes, once each, and exactly the high or critical financial rows of 24 hours, newest first, each with the tenant's acknowledgement |
| Alerts.EvaluationShowsExactly | backend/app/services/alert_service.py:63-183 | the same of the specification, for every ledger, every answer of the queries and every state of the acknowledgements |
| AlertQueries.SelectedIff | backend/app/services/alert_service.py:127-136 | the rows selected by the third rule are exactly the high or critical financial ones of the tenant's agent in the last 24 hours |
| AlertQueries.OverIff | backend/app/services/alert_service.py:63-107 | the thresholds are 5 failures in 15 minutes and 10 data accesses in 10 minutes, counted for the tenant's agent |
| Alerts.NewestFirstSorts | backend/app/services/alert_service.py:182 | the same alerts, newest first |
| Alerts.NewestFirstKeepsOrder | backend/app/services/alert_service.py:182 | alerts of one moment keep the order in which they were raised |
| Alerts.AlertService.AcknowledgeAlert | backend/app/services/alert_service.py:186-214 | the acknowledgement is updated or inserted; another tenant's row under the key makes it fail |
| Alerts.AckStored | backend/app/services/alert_service.py:186-214 | an acknowledgement is stored under its key, replaces only status, user and time of an earlier one of its tenant, and leaves another tenant's and all other keys alone |
| Alerts.AcknowledgementShows | backend/app/services/alert_service.py:154-214 | an acknowledgement shows in every later evaluation of its bucket that still raises the alert, until it is replaced |
| Alerts.OtherBucketOtherKey | backend/app/services/alert_service.py:46-60 | in another bucket the alert has another key, or the digest collides |
| EventSchema.ForbiddenIffReachable | backend/app/schemas/event.py:40-49 | the search says yes if and only if a path through nested objects and lists reaches an object key whose lower-case form is forbidden |
| EventSchema.CleanDictIff | backend/app/schemas/event.py:77-92 | metadata passes if and only if no path reaches an object with a key that is, in lower case, one of the eight words, and its size is within the limit |
| EventSchema.ValidConforms | backend/app/schemas/event.py:56-102 | a valid event has no raw content at any depth in its metadata or change summary, known words, a type of the right form, and fields within their lengths |
| Ingest.SanitisedForm | backend/app/api/v1/agent.py:154-165 | the sanitised event type is the part before the first dot and the part behind it, other characters replaced by underscores, agent and event standing in for missing parts, cut after 128 characters |
| Ingest.SanitisedValidIff | backend/app/api/v1/agent.py:154-165 | the sanitised event type has at most 128 characters, and is valid if and only if the part before its dot has at most 126 |
| Ingest.ValidUnchanged | backend/app/api/v1/agent.py:154-165 | valid event types pass unchanged |
| Ingest.IdempotentIff | backend/app/api/v1/agent.py:154-165 | sanitising twice is sanitising once if and only if that part has at most 127 characters |
| Ingest.AcceptedIff | backend/app/api/v1/agent.py:325-360 | an event is accepted if and only if its address parses, the part before the dot has at most 126 characters, no path through its metadata reaches one of the eight words, the metadata is within the size limit, and its time is in the window |
| Ingest.FilledIn | backend/app/api/v1/agent.py:325-343 | the time is the event's own if it parses and now otherwise; the actor id is cut to 256 characters, with agent for a missing one; address and metadata are the event's own |
| Ingest.DefaultWords | backend/app/api/v1/agent.py:335-339 | unknown words become system, system, unknown and info, warn becomes warning and error becomes high |
| Ingest.VocabularyKept | backend/app/api/v1/agent.py:335-339 | an actor type, category, outcome or severity that the schema knows is not altered |
| Ingest.ContentKept | backend/app/api/v1/agent.py:340-342 | a valid event type, an actor id of valid length and the metadata are not altered |
| Ingest.IngestBatch | backend/app/api/v1/agent.py:323-360 | the loop appends exactly what is submitted, in order, and counts it |
| Ingest.AgentIngestEvents | backend/app/api/v1/agent.py:309-363 | exactly the accepted ones of the first 500 events are appended, in order, and counted, and every row appended is free of raw content and conforms to the schema |
| Ingest.SubmissionsAre | backend/app/api/v1/agent.py:323-360 | the submissions are exactly the accepted events in their order, each with the clock reading of its turn |
| Ingest.SubmissionsValid | backend/app/schemas/event.py:56-102 | every submission is free of raw content, conforms to the schema and belongs to the tenant |
| Ingest.IngestKeepsVerified | backend/app/api/v1/agent.py:309-363 | a ledger that verifies still verifies after a batch of an agent, and gained only conforming events of that tenant, without raw content |

## Left out

- The database as code: only rows, the head row, its lock, commit and rollback are modelled; stale objects in a session's identity map, driver errors and constraint failures other than the unique keys named above are not.
- SHA-256, HMAC and password hashing internals; a collision or preimage appears as an alternative in the statement.
- JSON floats, surrogate code points, non-UTC offsets, and whitespace in the reader: the printer never emits whitespace.
- Comparing the ledger with the chain head: the verifier does not, so dropped final rows stay outside its guarantee.
- Failures to marshal an event, and directories or foreign files inside the queue directory.
- AgentRun.Delivery: files are known by their numbers and a purge is one step per file (`AgentMatch` ties both to the directory of names); the queue's mutex is not modelled, so a listing and the write behind it are one step.
- AgentMatch.RoundMatches: an interrupted round is only a run of steps; `ShipOne` itself is not interrupted.
- The purge goroutine started by `New` is a separate operation, `PurgeStale`.
- FileWatcher.PairsCorrectlyIff: the noise filter, the recycle-bin test and the path join are parameters, so it holds for every filter.
- NoisyPaths.InRootNoisyIff: volumes are drive letters and letters are ASCII; network volumes and other alphabets are not modelled.
- FileWatcher.Watcher.React: metadata derived from the path (base name, extension, directory, host, user) is not modelled.
- HTTP beyond the status code, heartbeats and registration of the agent.
- The errors and last-error counters of the shipper.
- Interleaved calls of `decide`: it takes no row lock, so only serial runs are claimed.
- RiskScores.ComputeActorRiskScores: the grouped query is an answer the database gives, which `RiskScores.Grouped` ties to the ledger.
- Alerts.AlertService.EvaluateAlerts: the three answers are given by the database, and `AlertQueries.Queried` ties them to the ledger; display names and messages of alerts are not modelled.
- Sessions: creating users, and authentication by password.
- Ingest.AgentIngestEvents: resolving the tenant and the agent source, and database errors inside the loop.
- Ingest.IngestBatch: an append that fails in the database ends the transaction and the batch with it; here no append fails.
- The size limit of metadata, the time window and address parsing are parameters of the schema.
- User interface, billing, GeoIP, AI investigation, staff and reporting endpoints: each is settled by reading one branch.

# Sync-inator consensus core in Dafny

This project models the consensus core of Sync-inator. Sync-inator is a file-sync
service whose metadata store is replicated over a Raft cluster. The model covers:

- **The per-node Raft state and its RPCs** (`RaftSyncinatorServer`). The node is a
  class that holds its role, term, log, commit index, applied index, pending client
  responses and chaos-control reachability set. Its methods are the receiver side
  of AppendEntries, SetLeader, SendHeartbeat, UpdateFile, the common front of the
  three read RPCs, and the test controls MakeServerUnreachableFrom, Crash, Restore
  and GetInternalState.
- **The AppendEntries log rules** (`RaftLog`), as pure functions with lemmas:
  - the previous-entry check;
  - the merge of incoming entries (truncate at the first conflict, append the
    rest, keep a non-conflicting tail);
  - the commit-index update.

  The in-place merge loop of the node is proved equal to the function.
- **The test helpers that compare logs and metadata** (`RaftTestUtils`, `TestUtils`)
  and **construct metadata values** (`FileMetaUtils`). The construction helpers
  rely on Go's `strings.Split`, `strings.TrimSpace`, `strconv.Atoi` and `int32()`.
  `GoStrings` and `SyncTypes.ToInt32` give the exact behaviour of those on the
  inputs used.
- **Three end-to-end runs** (`RaftScenarios`): leader election followed by
  replication to a follower, a truncation below the commit index, and a crashed
  node refusing leadership.

Two helpers whose code is not part of this model become parameters of the
methods that use them:

- **`checkStatus`** becomes a `gate: Option<RaftError>` parameter. `None` means
  the check passes. `GateSound` records what is known of it: a crashed node always
  fails with `ErrServerCrashed`, and on the AppendEntries path a leader in
  `unreachableFrom` is refused.
- **`sendPersistentHeartbeats`** becomes a `round: RoundOutcome` parameter. The
  round either reaches a majority or ends with the node a follower:
  - on a majority, the commit index reaches the last log index, the apply engine
    catches up, and it leaves responses for some applied indices;
  - otherwise the node is a follower again.

Conventions:

- The log is 0-based.
- `commitIndex` and `lastApplied` start at -1.
- `prevLogIndex = -1` names the empty prefix and always matches.

Where the design description and the code disagree, the model follows the code:

- **Commit index after a truncation.** The design states
  `lastApplied ≤ commitIndex < len(log)` as an invariant. The code can truncate
  the log below the commit index, when a request conflicts with a committed entry.
  What happens next depends on the leader's commit index:
  - if it is not larger, the commit index stays where it was, past the end of the
    log;
  - if it is larger, the commit index is lowered to the new last index
    (`RaftLog.CommitIndexFallsAfterTruncation`), below the applied index, which
    never moves back.

  `RaftScenarios.TruncationBelowCommit` runs such a request: it ends with commit
  index 0 and applied index 2. The model does what the code does. It proves both
  halves of the invariant are kept whenever the entries agree with the committed
  prefix, which is what leader completeness guarantees (`ReplicateLog`,
  `AppendEntries`, `RaftLog.MergeKeepsPrefix`). Every other RPC keeps them
  unconditionally.
- **When pending responses are created.** The design says a pending-response slot
  is created when a write is appended. In `UpdateFile` nothing is created at
  append time: the response is only read from the map after the round, and a
  missing one is a nil dereference. It is modelled as `NilResponse`.
- **Which "last index" the commit rule uses.** Figure 2 of the Raft paper says the
  index of the last new entry. The code takes the last index of the whole log. The
  model follows the code, and `CommitRuleAgreesWithFigure2` shows the two agree
  whenever the leader's commit index is within what it sent.

## Model

| member | source | states |
|---|---|---|
| SyncTypes.ToInt32 | test/file_meta_utils.go:31 | Go's `int32(x)`: equal to `x` when it fits, and always congruent to `x` modulo 2^32 |
| GoStrings.Split | test/file_meta_utils.go:22 | `strings.Split` with a one-character separator: at least one piece, and no piece holds the separator |
| GoStrings.JoinSplit | test/file_meta_utils.go:22 | joining the pieces of a split with the separator gives back the string |
| GoStrings.SplitNoSep | test/file_meta_utils.go:27 | a string without the separator splits into itself alone |
| GoStrings.SplitCons | test/file_meta_utils.go:22 | splitting `a + sep + rest` gives `a` followed by the pieces of `rest`, when `a` has no separator |
| GoStrings.SplitJoin | test/file_meta_utils.go:27 | splitting a join of separator-free pieces gives back the pieces |
| GoStrings.SpanStart | test/file_meta_utils.go:27 | the first non-space index at or after `lo`, with only spaces before it |
| GoStrings.SpanEnd | test/file_meta_utils.go:27 | the end of the last non-space before `hi`, with only spaces after it |
| GoStrings.TrimSpace | test/file_meta_utils.go:27 | `strings.TrimSpace`: the result is the slice of the input that starts at its first non-space; only spaces lie outside it; it neither starts nor ends with a space |
| GoStrings.TrimSpaceNoEdges | test/file_meta_utils.go:27 | a string with no space at either end is left as it is |
| GoStrings.TrimSpaceIdempotent | test/file_meta_utils.go:27 | trimming twice is trimming once |
| GoStrings.DigitPrefix | test/file_meta_utils.go:25 | the length of the longest run of digits at the start |
| GoStrings.Magnitude | test/file_meta_utils.go:25 | the string without its leading sign, as a suffix of it |
| GoStrings.Atoi | test/file_meta_utils.go:25 | `strconv.Atoi` on 64 bits. Success holds exactly for an optional sign followed by digits whose value fits int64, and then the result is that value (so "007" gives 7 and "+5" gives 5). An out-of-range decimal gives the nearest bound and an error. Any other string gives 0 and an error, unless its leading digit run overflows 64 unsigned bits, which gives the bound of its sign |
| GoStrings.NatToDecimal | test/file_meta_utils.go:25 | a non-empty digit string without a leading zero except for 0 |
| GoStrings.DigitsValueOfDecimal | test/file_meta_utils.go:25 | the decimal string of `n` reads back as `n` |
| GoStrings.DigitsOfInt64 | test/file_meta_utils.go:25 | a decimal of magnitude at most 2^63 never overflows the unsigned 64-bit scan |
| GoStrings.AtoiItoa | test/file_meta_utils.go:25 | `Atoi(Itoa(n))` is `n` without error for every 64-bit `n` |
| FileMetaUtils.NewFileMetaDataFromParams | test/file_meta_utils.go:36-42 | filename and hash list copied; version equal to the argument when it fits 32 bits, and its 32-bit wrap otherwise |
| FileMetaUtils.NewFileMetaDataFromConfig | test/file_meta_utils.go:21-34 | it fails (the index panic) exactly when the line has fewer than three comma fields. Otherwise: the filename is the comma-free text before the line's first comma; the version is `int32(Atoi(field 2))`; the hash list is a non-empty list of space-free hashes whose join by spaces is the trimmed third field |
| FileMetaUtils.JoinHead | test/file_meta_utils.go:22-24 | in a split of two or more fields, the first field is followed by the delimiter |
| FileMetaUtils.ConfigHashListIsSplit | test/file_meta_utils.go:27 | the hash list is exactly the split of the trimmed third field at spaces |
| FileMetaUtils.BlankHashField | test/file_meta_utils.go:27 | an empty or all-space third field gives the list `[""]`, not an empty list |
| FileMetaUtils.SplitOfSampleLine | test/file_meta_utils.go:22 | the line `a,1,` splits into `a`, `1` and an empty field |
| FileMetaUtils.ConfigLineWithEmptyHashes | test/file_meta_utils.go:21-34 | the line `a,1,` gives filename `a`, version 1 and the hash list `[""]` |
| FileMetaUtils.NewFileMetaData | test/file_meta_utils.go:9-19 | mode 1 builds from parameters, mode 2 from the config string, every other mode gives the empty metadata |
| FileMetaUtils.ConfigLineFields | test/file_meta_utils.go:22 | the config line of a value splits into exactly its filename, version text and joined hashes |
| FileMetaUtils.JoinExcludes | test/file_meta_utils.go:27 | a join of comma-free hashes with spaces holds no comma |
| FileMetaUtils.JoinEdges | test/file_meta_utils.go:27 | a join of well-formed hashes neither starts nor ends with a space |
| FileMetaUtils.ConfigLineRoundTrip | test/file_meta_utils.go:21-34 | parsing the config line written for a value gives the value back (comma-free filename, non-empty list of well-formed hashes) |
| TestUtils.IsTombHashList | test/test_utils.go:25-27 | true exactly for the one-element list holding the tombstone hash |
| TestUtils.SameHashList | test/test_utils.go:29-41 | true exactly when the two lists are equal |
| TestUtils.SameMeta | test/test_utils.go:239-260 | true exactly when the two maps have the same keys and the same version and hash list under each key, filenames aside |
| TestUtils.SameMetaEquivalence | test/test_utils.go:239-260 | the comparison is reflexive, symmetric and transitive, and two empty maps compare equal |
| TestUtils.SameMetaIgnoresFilename | test/test_utils.go:239-260 | renaming the file inside a stored value does not change the comparison |
| TestUtils.ConcatPath | test/test_utils.go:59-61 | the base directory, one slash, then the file path |
| RaftTestUtils.SameOperation | test/raft_test_utils.go:143-167 | true exactly when both entries look the same: nil, no-op of the same term, or update of the same term, version and hash list; entries of different terms never match |
| RaftTestUtils.SameLog | test/raft_test_utils.go:169-180 | true exactly when the two logs have the same length and look the same at every index |
| RaftTestUtils.SameLogEquivalence | test/raft_test_utils.go:169-180 | the log comparison is reflexive, symmetric and transitive |
| RaftTestUtils.SameLogOfServerLogs | test/raft_test_utils.go:143-180 | two server logs compare equal exactly when they agree at every index on term, on being a no-op, and on the version and hash list of updates |
| RaftLog.PrevLogMatched | pkg/syncinator/RaftSyncinatorServer.go:175-179 | a passing previous-entry check implies an index in `[-1, len(log))` |
| RaftLog.Merge | pkg/syncinator/RaftSyncinatorServer.go:137-139 | rules 3 and 4: the log before `start` is kept, the result reaches past the entries, and each window index holds an entry of the incoming entry's term |
| RaftLog.MergeWindow | pkg/syncinator/RaftSyncinatorServer.go:137-139 | each window index holds the incoming entry, or the same-term entry already there |
| RaftLog.MergeWindowIsEntries | pkg/syncinator/RaftSyncinatorServer.go:137-139 | under log matching (same term implies same entry), the window holds exactly the incoming entries |
| RaftLog.MergeKeepsTailOnlyUnchanged | pkg/syncinator/RaftSyncinatorServer.go:137-139 | a result longer than `start + len(entries)` is the old log unchanged; a changed log ends exactly with the entries |
| RaftLog.MergeIdempotent | pkg/syncinator/RaftSyncinatorServer.go:181-183 | delivering the same request twice leaves the log as one delivery does |
| RaftLog.MergeOntoItself | pkg/syncinator/RaftSyncinatorServer.go:137-139 | merging entries onto a log that already ends with them changes nothing |
| RaftLog.MergeKeepsPrefix | pkg/syncinator/RaftSyncinatorServer.go:137-139 | entries that agree in term with the log up to `bound` leave that prefix in place and the log long enough to hold it |
| RaftLog.MergeThenMatched | pkg/syncinator/RaftSyncinatorServer.go:175-183 | after a merge, the previous-entry check of the next request naming the last sent entry passes |
| RaftLog.NextCommitIndex | pkg/syncinator/RaftSyncinatorServer.go:185-188 | rule 5: kept unless the leader's is larger, else the smaller of the leader's commit index and the last log index |
| RaftLog.CommitIndexFallsAfterTruncation | pkg/syncinator/RaftSyncinatorServer.go:185-188 | with the log cut below the commit index and a larger leader commit index, the rule lowers the commit index to the new last index |
| RaftLog.CommitRuleAgreesWithFigure2 | pkg/syncinator/RaftSyncinatorServer.go:140-141 | with the leader's commit index within what it sent, the code's rule equals Figure 2's "last new entry" rule, and the commit index stays within the log and never falls |
| RaftSyncinatorServer.RaftSyncinator.constructor | pkg/syncinator/RaftSyncinatorServer.go:12-41 | a fresh node is a follower in term 0 with an empty log, nothing committed or applied, and no refused peers |
| RaftSyncinatorServer.RaftSyncinator.SendPersistentHeartbeats | pkg/syncinator/RaftSyncinatorServer.go:118-124 | a majority raises the commit index to the last entry, lets the applied index catch up, and adds the apply engine's responses; otherwise the node becomes a follower and nothing else changes. The log never changes, and `lastApplied ≤ commitIndex < len(log)` is kept |
| RaftSyncinatorServer.RaftSyncinator.ExecuteStateMachine | pkg/syncinator/RaftSyncinatorServer.go:190-191 | the applied index catches up with the commit index and never moves back |
| RaftSyncinatorServer.RaftSyncinator.MergeLog | pkg/syncinator/RaftSyncinatorServer.go:181-182 | the in-place merge loop leaves exactly `Merge(old log, prevLogIndex + 1, entries)` |
| RaftSyncinatorServer.RaftSyncinator.ReplicateLog | pkg/syncinator/RaftSyncinatorServer.go:181-191 | rules 3 to 5: merged log, matched index `prevLogIndex + len(entries)` within the log, commit index by rule 5, applied index caught up. Entries agreeing with the committed prefix leave it in place and keep `lastApplied ≤ commitIndex < len(log)` |
| RaftSyncinatorServer.RaftSyncinator.AdoptTerm | pkg/syncinator/RaftSyncinatorServer.go:159-171 | a newer term is taken and the node is a follower |
| RaftSyncinatorServer.RaftSyncinator.AppendEntries | pkg/syncinator/RaftSyncinatorServer.go:142-196 | a failing status check or a stale term changes nothing; a newer term is adopted and the node steps down; no matching previous entry keeps log and commit index; otherwise the merged log, rule-5 commit index and success with the matched index. Entries agreeing with the committed prefix keep `lastApplied ≤ commitIndex < len(log)` |
| RaftSyncinatorServer.RaftSyncinator.AcceptFromLeader | pkg/syncinator/RaftSyncinatorServer.go:159-195 | for a leader not behind this node: the term adopted, then rule 2 or rules 3 to 5 as for AppendEntries, with the same conditional invariant |
| RaftSyncinatorServer.RaftSyncinator.SetLeader | pkg/syncinator/RaftSyncinatorServer.go:198-226 | a crashed node refuses and changes nothing. Otherwise: term plus one, and a no-op of the new term appended. A successful round keeps it leader with the no-op committed, the applied index caught up and the round's responses added. A failed round makes it a follower with `ErrNotLeader`, commit index, applied index and responses unchanged. `lastApplied ≤ commitIndex < len(log)` is kept |
| RaftSyncinatorServer.RaftSyncinator.SendHeartbeat | pkg/syncinator/RaftSyncinatorServer.go:228-242 | a failing status check changes nothing. Otherwise success exactly when the round reaches a majority, which commits the whole log, catches the applied index up and adds the round's responses; a failed round makes the node a follower and changes nothing else. Term and log never change, and the index invariant is kept |
| RaftSyncinatorServer.RaftSyncinator.LinearizableRead | pkg/syncinator/RaftSyncinatorServer.go:43-59 | the status check's error, else `ErrNotLeader` with the node a follower when the round fails, else leave to the store with the whole log committed and applied. Term and log unchanged, and the index invariant kept |
| RaftSyncinatorServer.RaftSyncinator.UpdateFile | pkg/syncinator/RaftSyncinatorServer.go:99-132 | a failing status check changes nothing. Otherwise one entry of the current term is appended. A failed round answers `ErrNotLeader` with the node a follower and commit index, applied index and responses unchanged. A successful round keeps the role, commits and applies the entry, and answers with the response left at its index, removing it, or hits the nil response when none was left. The index invariant is kept |
| RaftSyncinatorServer.RaftSyncinator.MakeServerUnreachableFrom | pkg/syncinator/RaftSyncinatorServer.go:246-260 | an empty list clears the refused set; a non-empty one adds its ids and removes none |
| RaftSyncinatorServer.RaftSyncinator.Crash | pkg/syncinator/RaftSyncinatorServer.go:262-269 | the node is crashed |
| RaftSyncinatorServer.RaftSyncinator.Restore | pkg/syncinator/RaftSyncinatorServer.go:271-283 | the node is a reachable follower; restoring a restored node changes nothing |
| RaftSyncinatorServer.RaftSyncinator.GetInternalState | pkg/syncinator/RaftSyncinatorServer.go:285-300 | role, term, commit index and log exactly as held |
| RaftScenarios.SetLeaderThenReplicate | test/raft_test.go:12-27 | after node 0 leads and node 1 receives the no-op and a heartbeat, both are in term 1 with one committed no-op; only node 0 leads |
| RaftScenarios.TruncationBelowCommit | pkg/syncinator/RaftSyncinatorServer.go:181-191 | a follower with three applied entries of term 1, given a conflicting term-2 request with leader commit 5, ends with a one-entry log, commit index 0 and applied index 2 |
| RaftScenarios.CrashRefusesLeadership | pkg/syncinator/RaftSyncinatorServer.go:198-205 | a crashed node refuses SetLeader with `ErrServerCrashed`; after Restore it leads in term 1 |

## Left out

- `sendPersistentHeartbeats` is not part of this model, nor are `initLeaderStates`,
  `nextIndex` and `matchIndex`. The round is a parameter whose outcome the caller
  chooses. The fan-out, retries and per-peer indices are therefore not modelled,
  and neither is the claim that a round succeeds only with a real majority.
- `checkStatus` is not part of this model. It is a parameter constrained only by
  `GateSound`, so the model does not fix which error a live but non-leader node
  gets on the read and write RPCs.
- `isPrevLogMatched` and `mergeLog` are called at lines 176 and 182 of
  `pkg/syncinator/RaftSyncinatorServer.go`, but their bodies are not part of this
  model. They are specified from the Raft rules quoted at lines 134-141.
- `executeStateMachine` is reduced to its effect on `lastApplied`. Applying
  updates to the metadata store and filling pending responses belong to the
  round's outcome.
- The metadata store is left out: the read RPCs stop where they would consult
  it, and GetInternalState omits its `MetaMap`.
- Mutexes and concurrency are left out. Each RPC runs as one atomic sequence, so
  interleavings between the status read and later steps are not modelled.
- gRPC, logging, process control, the RPC client's leader-search loops and the
  test drivers are left out.
- Terms and indices are unbounded integers, so int64 overflow of the term counter
  is not modelled.
- Strings are sequences of code points, so invalid UTF-8 in config lines is not
  modelled.
- TestUtils.SameMeta: nil map values, on which the source would dereference nil,
  are not modelled, because a map value here is always present.
- A Go nil hash list and an empty one are the same sequence here. No modelled
  operation tells them apart.
- RaftSyncinatorServer.RaftSyncinator.ReplicateLog keeps `lastApplied ≤ commitIndex < len(log)`
  only when the entries agree with the committed prefix. That is weaker than the
  design's unconditional invariant, because the code as written does not
  guarantee more. The same holds for AppendEntries and AcceptFromLeader.

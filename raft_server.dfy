/** The per-node consensus state of the metadata cluster and the RPCs that
    change it. Each RPC runs here as one sequence of atomic steps. Two helpers
    whose code lies outside this model are parameters of the RPCs that use them:
    the status check (`gate`: its error, or `None` when it passes) and the
    synchronous replication round (`round`: its outcome). */
module RaftSyncinatorServer {
  import opened SyncTypes
  import opened RaftLog

  datatype AppendEntryInput = AppendEntryInput(
    term: int, leaderId: int, prevLogIndex: int, prevLogTerm: int,
    entries: seq<UpdateOperation>, leaderCommit: int)

  datatype AppendEntryOutput = AppendEntryOutput(serverId: int, term: int, success: bool, matchedIndex: int)

  /** A reply or the error an RPC returns in its place. */
  datatype Result<T> = Ok(value: T) | Err(error: RaftError)

  /** What the apply engine leaves for the client whose write produced an entry. */
  datatype UpdateFileResponse = UpdateFileResponse(version: Option<Int32>, err: Option<RaftError>)

  /** The reply of UpdateFile; `NilResponse` is the nil dereference that follows
      when no response was left for the new entry. */
  datatype UpdateFileReply = Replied(version: Option<Int32>, err: Option<RaftError>) | NilResponse

  /** Outcome of one replication round: a majority matched the whole log, and the
      apply engine left responses for some applied entries; or the node gave up
      leadership. */
  datatype RoundOutcome = MajorityReached(applied: map<int, UpdateFileResponse>) | RevertedToFollower

  datatype RaftInternalState = RaftInternalState(status: ServerStatus, term: int, commitIndex: int,
                                                 log: seq<UpdateOperation>)

  function Max(a: int, b: int): int { if a < b then b else a }

  class RaftSyncinator {
    var serverStatus: ServerStatus
    const id: int
    var term: int
    var log: seq<UpdateOperation>
    var commitIndex: int
    var lastApplied: int
    var pendingResponses: map<int, UpdateFileResponse>
    var unreachableFrom: set<int>

    ghost predicate Valid()
      reads this
    {
      -1 <= commitIndex && -1 <= lastApplied
    }

    /** Every committed index is in the log. */
    ghost predicate CommitWithinLog()
      reads this
    {
      commitIndex <= |log| - 1
    }

    /** The apply engine never runs ahead of the commit index. */
    ghost predicate AppliedWithinCommit()
      reads this
    {
      lastApplied <= commitIndex
    }

    /** What is known of the status check: it fails with ErrServerCrashed on a
        crashed node and, on the AppendEntries path, for a leader this node
        refuses calls from. */
    ghost predicate GateSound(gate: Option<RaftError>, appendEntriesPath: bool, leaderId: int)
      reads this
    {
      (serverStatus == CRASHED ==> gate == Some(ErrServerCrashed))
      && (appendEntriesPath && leaderId in unreachableFrom ==> gate.Some?)
    }

    /** A fresh node: a follower in term 0 with an empty log, nothing committed. */
    constructor (id: int)
      ensures Valid() && CommitWithinLog() && AppliedWithinCommit()
      ensures this.id == id && serverStatus == FOLLOWER && term == 0 && log == []
      ensures commitIndex == -1 && lastApplied == -1
      ensures pendingResponses == map[] && unreachableFrom == {}
    {
      this.id := id;
      serverStatus := FOLLOWER;
      term := 0;
      log := [];
      commitIndex := -1;
      lastApplied := -1;
      pendingResponses := map[];
      unreachableFrom := {};
    }

    /** The replication round. On success the commit index reaches the last
        entry of the log and the apply engine catches up with it; otherwise the
        node is a follower again. */
    method SendPersistentHeartbeats(round: RoundOutcome) returns (success: bool)
      requires Valid()
      modifies this`serverStatus, this`commitIndex, this`lastApplied, this`pendingResponses
      ensures Valid()
      ensures success == round.MajorityReached?
      ensures old(CommitWithinLog()) ==> CommitWithinLog()
      ensures old(AppliedWithinCommit()) ==> AppliedWithinCommit()
      ensures success ==>
        && serverStatus == old(serverStatus)
        && commitIndex == Max(old(commitIndex), |log| - 1)
        && lastApplied == Max(old(lastApplied), commitIndex)
        && pendingResponses == old(pendingResponses) + round.applied
      ensures !success ==>
        && serverStatus == FOLLOWER
        && commitIndex == old(commitIndex) && lastApplied == old(lastApplied)
        && pendingResponses == old(pendingResponses)
    {
      match round
      case MajorityReached(applied) =>
        if commitIndex < |log| - 1 {
          commitIndex := |log| - 1;
        }
        ExecuteStateMachine();
        pendingResponses := pendingResponses + applied;
        success := true;
      case RevertedToFollower =>
        serverStatus := FOLLOWER;
        success := false;
    }

    /** The apply engine, as far as the consensus state sees it: the applied
        index catches up with the commit index and never moves back. */
    method ExecuteStateMachine()
      requires Valid()
      modifies this`lastApplied
      ensures Valid()
      ensures lastApplied == Max(old(lastApplied), commitIndex)
    {
      if lastApplied < commitIndex {
        lastApplied := commitIndex;
      }
    }

    /** Rules 3 and 4 of AppendEntries, in place: walk the entries while the log
        already holds them, and at the first conflict or the end of the log cut
        the log there and append the rest. */
    method MergeLog(prevLogIndex: int, entries: seq<UpdateOperation>)
      requires -1 <= prevLogIndex < |log|
      modifies this`log
      ensures log == Merge(old(log), prevLogIndex + 1, entries)
    {
      var i := 0;
      var next := prevLogIndex + 1;
      while i < |entries|
        invariant 0 <= i <= |entries| && next == prevLogIndex + 1 + i && next <= |log|
        invariant Merge(log, next, entries[i..]) == Merge(old(log), prevLogIndex + 1, entries)
      {
        if next < |log| && log[next].term == entries[i].term {
          assert entries[i..][1..] == entries[i + 1..];
          i, next := i + 1, next + 1;
        } else {
          log := log[..next] + entries[i..];
          return;
        }
      }
      assert entries[i..] == [];
    }

    /** Rules 3 to 5 once the previous entry matched: merge the entries, raise
        the commit index to `min(leaderCommit, last index)` when the leader's is
        larger, and apply. */
    method ReplicateLog(prevLogIndex: int, entries: seq<UpdateOperation>, leaderCommit: int)
      returns (matchedIndex: int)
      requires Valid() && -1 <= prevLogIndex < |log|
      modifies this`log, this`commitIndex, this`lastApplied
      ensures Valid()
      ensures log == Merge(old(log), prevLogIndex + 1, entries)
      ensures matchedIndex == prevLogIndex + |entries| && matchedIndex < |log|
      ensures commitIndex == NextCommitIndex(old(commitIndex), leaderCommit, |log|)
      ensures lastApplied == Max(old(lastApplied), commitIndex)
      // entries that do not contradict the committed prefix leave it in place
      ensures old(CommitWithinLog()) && NoConflictUpTo(old(log), prevLogIndex + 1, entries, old(commitIndex)) ==>
        |log| > old(commitIndex) && CommitWithinLog()
        && log[..old(commitIndex) + 1] == old(log)[..old(commitIndex) + 1]
        && (old(AppliedWithinCommit()) ==> AppliedWithinCommit())
    {
      if commitIndex <= |log| - 1 && NoConflictUpTo(log, prevLogIndex + 1, entries, commitIndex) {
        MergeKeepsPrefix(log, prevLogIndex + 1, entries, commitIndex);
      }
      MergeLog(prevLogIndex, entries);
      matchedIndex := prevLogIndex + |entries|;
      if leaderCommit > commitIndex {
        commitIndex := if leaderCommit < |log| - 1 then leaderCommit else |log| - 1;
      }
      ExecuteStateMachine();
    }

    /** A newer term seen from a leader: take it, and be a follower. */
    method AdoptTerm(newTerm: int)
      modifies this`serverStatus, this`term
      ensures term == newTerm && serverStatus == FOLLOWER
    {
      if serverStatus != FOLLOWER {
        serverStatus := FOLLOWER;
      }
      term := newTerm;
    }

    /** The receiver side of AppendEntries. */
    method AppendEntries(input: AppendEntryInput, gate: Option<RaftError>) returns (r: Result<AppendEntryOutput>)
      requires Valid() && GateSound(gate, true, input.leaderId)
      modifies this
      ensures Valid()
      ensures unreachableFrom == old(unreachableFrom) && pendingResponses == old(pendingResponses)
      // the status check refuses: nothing changes
      ensures gate.Some? ==> r == Err(gate.value) && unchanged(this)
      // rule 1: a stale leader is refused and nothing changes
      ensures gate.None? && input.term < old(term) ==>
        r == Ok(AppendEntryOutput(id, old(term), false, -1)) && unchanged(this)
      // a newer term is adopted, and a leader steps down, whatever follows
      ensures gate.None? && input.term >= old(term) ==> term == input.term
      ensures gate.None? && input.term > old(term) ==> serverStatus == FOLLOWER
      ensures gate.None? && input.term == old(term) ==> serverStatus == old(serverStatus)
      // rule 2: no matching previous entry, so the log and commit index stay
      ensures (gate.None? && input.term >= old(term)
               && !PrevLogMatched(old(log), input.prevLogIndex, input.prevLogTerm)) ==>
          r == Ok(AppendEntryOutput(id, input.term, false, -1))
          && log == old(log) && commitIndex == old(commitIndex) && lastApplied == old(lastApplied)
      // rules 3 to 5: merge, then raise the commit index and apply
      ensures (gate.None? && input.term >= old(term)
               && PrevLogMatched(old(log), input.prevLogIndex, input.prevLogTerm)) ==>
          r == Ok(AppendEntryOutput(id, input.term, true, input.prevLogIndex + |input.entries|))
          && log == Merge(old(log), input.prevLogIndex + 1, input.entries)
          && commitIndex == NextCommitIndex(old(commitIndex), input.leaderCommit, |log|)
          && lastApplied == Max(old(lastApplied), commitIndex)
      // entries that agree with the committed prefix keep both index invariants
      ensures old(CommitWithinLog() && AppliedWithinCommit())
              && NoConflictUpTo(old(log), input.prevLogIndex + 1, input.entries, old(commitIndex)) ==>
          CommitWithinLog() && AppliedWithinCommit()
    {
      if gate.Some? {
        return Err(gate.value);
      }
      if input.term < term {
        return Ok(AppendEntryOutput(id, term, false, -1));
      }
      var output := AcceptFromLeader(input);
      return Ok(output);
    }

    /** AppendEntries from a leader whose term is not behind this node's. */
    method AcceptFromLeader(input: AppendEntryInput) returns (output: AppendEntryOutput)
      requires Valid() && input.term >= term
      modifies this`serverStatus, this`term, this`log, this`commitIndex, this`lastApplied
      ensures Valid() && term == input.term
      ensures input.term > old(term) ==> serverStatus == FOLLOWER
      ensures input.term == old(term) ==> serverStatus == old(serverStatus)
      ensures !PrevLogMatched(old(log), input.prevLogIndex, input.prevLogTerm) ==>
          output == AppendEntryOutput(id, input.term, false, -1)
          && log == old(log) && commitIndex == old(commitIndex) && lastApplied == old(lastApplied)
      ensures PrevLogMatched(old(log), input.prevLogIndex, input.prevLogTerm) ==>
          output == AppendEntryOutput(id, input.term, true, input.prevLogIndex + |input.entries|)
          && log == Merge(old(log), input.prevLogIndex + 1, input.entries)
          && commitIndex == NextCommitIndex(old(commitIndex), input.leaderCommit, |log|)
          && lastApplied == Max(old(lastApplied), commitIndex)
      // entries that agree with the committed prefix keep both index invariants
      ensures old(CommitWithinLog() && AppliedWithinCommit())
              && NoConflictUpTo(old(log), input.prevLogIndex + 1, input.entries, old(commitIndex)) ==>
          CommitWithinLog() && AppliedWithinCommit()
    {
      if term < input.term {
        AdoptTerm(input.term);
      }
      if !PrevLogMatched(log, input.prevLogIndex, input.prevLogTerm) {
        return AppendEntryOutput(id, input.term, false, -1);
      }
      var matchedIndex := ReplicateLog(input.prevLogIndex, input.entries, input.leaderCommit);
      return AppendEntryOutput(id, input.term, true, matchedIndex);
    }

    /** Make this node leader: refused on a crashed node; otherwise a new term,
        the leader role, a no-op entry of that term, then one replication round. */
    method SetLeader(round: RoundOutcome) returns (flag: bool, err: Option<RaftError>)
      requires Valid()
      modifies this
      ensures Valid()
      ensures old(CommitWithinLog()) ==> CommitWithinLog()
      ensures old(AppliedWithinCommit()) ==> AppliedWithinCommit()
      ensures old(serverStatus) == CRASHED ==> !flag && err == Some(ErrServerCrashed) && unchanged(this)
      ensures old(serverStatus) != CRASHED ==>
        && term == old(term) + 1
        && log == old(log) + [UpdateOperation(old(term) + 1, None)]
        && unreachableFrom == old(unreachableFrom)
        && flag == round.MajorityReached?
        && err == (if flag then None else Some(ErrNotLeader))
        && serverStatus == (if flag then LEADER else FOLLOWER)
        && commitIndex == (if flag then Max(old(commitIndex), |old(log)|) else old(commitIndex))
        && lastApplied == (if flag then Max(old(lastApplied), commitIndex) else old(lastApplied))
        && pendingResponses == (if flag then old(pendingResponses) + round.applied else old(pendingResponses))
    {
      var myStatus := serverStatus;
      if myStatus == CRASHED {
        return false, Some(ErrServerCrashed);
      }
      serverStatus := LEADER;
      term := term + 1;
      log := log + [UpdateOperation(term, None)];
      var success := SendPersistentHeartbeats(round);
      if !success {
        return false, Some(ErrNotLeader);
      }
      return true, None;
    }

    /** A replication round with no new entry, for a node the status check lets through. */
    method SendHeartbeat(gate: Option<RaftError>, round: RoundOutcome) returns (flag: bool, err: Option<RaftError>)
      requires Valid() && GateSound(gate, false, -1)
      modifies this
      ensures Valid()
      ensures old(CommitWithinLog()) ==> CommitWithinLog()
      ensures term == old(term) && log == old(log) && unreachableFrom == old(unreachableFrom)
      ensures old(AppliedWithinCommit()) ==> AppliedWithinCommit()
      ensures gate.Some? ==> !flag && err == gate && unchanged(this)
      ensures gate.None? ==>
        && flag == round.MajorityReached?
        && err == (if flag then None else Some(ErrNotLeader))
        && serverStatus == (if flag then old(serverStatus) else FOLLOWER)
        && commitIndex == (if flag then Max(old(commitIndex), |log| - 1) else old(commitIndex))
        && lastApplied == (if flag then Max(old(lastApplied), commitIndex) else old(lastApplied))
        && pendingResponses == (if flag then old(pendingResponses) + round.applied else old(pendingResponses))
    {
      if gate.Some? {
        return false, gate;
      }
      var success := SendPersistentHeartbeats(round);
      if !success {
        return false, Some(ErrNotLeader);
      }
      return true, None;
    }

    /** The common front of GetFileInfoMap, GetBlockStoreMap and
        GetBlockStoreAddrs: the status check, then a replication round so that
        a stale leader cannot serve the read. `None` means the metadata store
        is consulted next. */
    method LinearizableRead(gate: Option<RaftError>, round: RoundOutcome) returns (err: Option<RaftError>)
      requires Valid() && GateSound(gate, false, -1)
      modifies this
      ensures Valid()
      ensures old(CommitWithinLog()) ==> CommitWithinLog()
      ensures term == old(term) && log == old(log) && unreachableFrom == old(unreachableFrom)
      ensures old(AppliedWithinCommit()) ==> AppliedWithinCommit()
      ensures gate.Some? ==> err == gate && unchanged(this)
      ensures gate.None? ==>
        var ok := round.MajorityReached?;
        && err == (if ok then None else Some(ErrNotLeader))
        && serverStatus == (if ok then old(serverStatus) else FOLLOWER)
        && commitIndex == (if ok then Max(old(commitIndex), |log| - 1) else old(commitIndex))
        && lastApplied == (if ok then Max(old(lastApplied), commitIndex) else old(lastApplied))
        && pendingResponses == (if ok then old(pendingResponses) + round.applied else old(pendingResponses))
    {
      if gate.Some? {
        return gate;
      }
      var success := SendPersistentHeartbeats(round);
      if !success {
        return Some(ErrNotLeader);
      }
      return None;
    }

    /** A client write: append one entry of the current term, replicate it, then
        take the response the apply engine left at its index. */
    method UpdateFile(filemeta: FileMetaData, gate: Option<RaftError>, round: RoundOutcome)
      returns (reply: UpdateFileReply)
      requires Valid() && GateSound(gate, false, -1)
      modifies this
      ensures Valid()
      ensures old(CommitWithinLog()) ==> CommitWithinLog()
      ensures term == old(term) && unreachableFrom == old(unreachableFrom)
      ensures gate.Some? ==> reply == Replied(None, gate) && unchanged(this)
      ensures gate.None? ==> log == old(log) + [UpdateOperation(old(term), Some(filemeta))]
      ensures old(AppliedWithinCommit()) ==> AppliedWithinCommit()
      ensures gate.None? && round.RevertedToFollower? ==>
        reply == Replied(None, Some(ErrNotLeader)) && serverStatus == FOLLOWER
        && commitIndex == old(commitIndex) && lastApplied == old(lastApplied)
        && pendingResponses == old(pendingResponses)
      ensures gate.None? && round.MajorityReached? ==>
        var index := |old(log)|;
        var responses := old(pendingResponses) + round.applied;
        && serverStatus == old(serverStatus)
        && commitIndex == Max(old(commitIndex), index)
        && lastApplied == Max(old(lastApplied), commitIndex)
        && pendingResponses == responses - {index}
        && reply == (if index in responses then Replied(responses[index].version, responses[index].err)
                     else NilResponse)
    {
      if gate.Some? {
        return Replied(None, gate);
      }
      var entry := UpdateOperation(term, Some(filemeta));
      log := log + [entry];
      var requestLogIndex := |log| - 1;
      var success := SendPersistentHeartbeats(round);
      if !success {
        return Replied(None, Some(ErrNotLeader));
      }
      var response: Option<UpdateFileResponse> :=
        if requestLogIndex in pendingResponses then Some(pendingResponses[requestLogIndex]) else None;
      pendingResponses := pendingResponses - {requestLogIndex};
      if response.None? {
        return NilResponse;
      }
      return Replied(response.value.version, response.value.err);
    }

    /** Chaos control: an empty list makes every peer reach this node again; a
        non-empty one adds its ids to those refused, removing none. */
    method MakeServerUnreachableFrom(serverIds: seq<int>) returns (flag: bool)
      modifies this`unreachableFrom
      ensures flag
      ensures |serverIds| == 0 ==> unreachableFrom == {}
      ensures |serverIds| > 0 ==> unreachableFrom == old(unreachableFrom) + set x | x in serverIds
    {
      if |serverIds| == 0 {
        unreachableFrom := {};
      } else {
        var i := 0;
        while i < |serverIds|
          invariant 0 <= i <= |serverIds|
          invariant unreachableFrom == old(unreachableFrom) + set x | x in serverIds[..i]
        {
          assert serverIds[..i + 1] == serverIds[..i] + [serverIds[i]];
          unreachableFrom := unreachableFrom + {serverIds[i]};
          i := i + 1;
        }
        assert serverIds[..i] == serverIds;
      }
      return true;
    }

    /** Chaos control: the node takes the crashed role. */
    method Crash() returns (flag: bool)
      modifies this`serverStatus
      ensures flag && serverStatus == CRASHED
    {
      serverStatus := CRASHED;
      return true;
    }

    /** Chaos control: the node is a follower reachable from every peer again;
        a second call changes nothing more. */
    method Restore() returns (flag: bool)
      modifies this`serverStatus, this`unreachableFrom
      ensures flag && serverStatus == FOLLOWER && unreachableFrom == {}
      ensures old(serverStatus) == FOLLOWER && old(unreachableFrom) == {} ==> unchanged(this)
    {
      serverStatus := FOLLOWER;
      unreachableFrom := {};
      return true;
    }

    /** Test observation: role, term, commit index and log, changing nothing. */
    method GetInternalState() returns (state: RaftInternalState)
      ensures state.status == serverStatus && state.term == term
      ensures state.commitIndex == commitIndex && state.log == log
    {
      state := RaftInternalState(serverStatus, term, commitIndex, log);
    }
  }
}

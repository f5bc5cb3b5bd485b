/** End-to-end runs of the consensus state, one node call at a time, in the
    shape of the cluster tests. */
module RaftScenarios {
  import opened SyncTypes
  import opened RaftLog
  import opened RaftSyncinatorServer

  /** Node 0 is made leader and its round succeeds; node 1 receives the no-op
      entry, then a heartbeat that carries the leader's commit index. Both end
      in term 1 with the one no-op entry committed at index 0; only node 0 leads. */
  method SetLeaderThenReplicate() returns (leader: RaftInternalState, follower: RaftInternalState)
    ensures leader == RaftInternalState(LEADER, 1, 0, [UpdateOperation(1, None)])
    ensures follower == RaftInternalState(FOLLOWER, 1, 0, [UpdateOperation(1, None)])
  {
    var n0 := new RaftSyncinator(0);
    var n1 := new RaftSyncinator(1);
    var flag, err := n0.SetLeader(MajorityReached(map[]));
    assert flag && err.None?;
    var noOp := UpdateOperation(1, None);
    var r := n1.AppendEntries(AppendEntryInput(1, 0, -1, 0, [noOp], -1), None);
    assert r == Ok(AppendEntryOutput(1, 1, true, 0));
    r := n1.AppendEntries(AppendEntryInput(1, 0, 0, 1, [], 0), None);
    assert r == Ok(AppendEntryOutput(1, 1, true, 0));
    leader := n0.GetInternalState();
    follower := n1.GetInternalState();
  }

  /** A crashed node refuses to lead and keeps its state; once restored it can
      lead again, in the next term. */
  method CrashRefusesLeadership() returns (refused: bool, state: RaftInternalState)
    ensures refused
    ensures state == RaftInternalState(LEADER, 1, 0, [UpdateOperation(1, None)])
  {
    var n := new RaftSyncinator(2);
    var _ := n.Crash();
    var flag, err := n.SetLeader(RevertedToFollower);
    refused := !flag && err == Some(ErrServerCrashed);
    var _ := n.Restore();
    flag, err := n.SetLeader(MajorityReached(map[]));
    state := n.GetInternalState();
  }

  /** A follower holding three committed and applied entries of term 1 receives,
      from a leader of term 2, a request that conflicts at index 0 and carries a
      larger commit index. The log is cut to the one new entry and the commit
      index falls to 0, below the applied index, which stays at 2. */
  method TruncationBelowCommit() returns (state: RaftInternalState, applied: int)
    ensures state == RaftInternalState(FOLLOWER, 2, 0, [UpdateOperation(2, None)])
    ensures applied == 2 && applied > state.commitIndex
  {
    var n := new RaftSyncinator(1);
    var old1 := UpdateOperation(1, None);
    var r := n.AppendEntries(AppendEntryInput(1, 0, -1, 0, [old1, old1, old1], 2), None);
    assert n.commitIndex == 2 && n.lastApplied == 2;
    r := n.AppendEntries(AppendEntryInput(2, 0, -1, 0, [UpdateOperation(2, None)], 5), None);
    state := n.GetInternalState();
    applied := n.lastApplied;
  }
}

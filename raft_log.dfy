/** The receiver-side log rules of AppendEntries (figure 2 and sections 5.1
    and 5.3 of "In Search of an Understandable Consensus Algorithm"), for a
    0-based log whose last index is `|log| - 1`. Index -1 stands before the
    first entry. */
module RaftLog {
  import opened SyncTypes

  /** Rule 2: the log holds an entry at `prevLogIndex` whose term is
      `prevLogTerm`; the empty prefix at index -1 always matches. */
  predicate PrevLogMatched(log: seq<UpdateOperation>, prevLogIndex: int, prevLogTerm: int)
    ensures PrevLogMatched(log, prevLogIndex, prevLogTerm) ==> -1 <= prevLogIndex < |log|
  {
    prevLogIndex == -1 || (0 <= prevLogIndex < |log| && log[prevLogIndex].term == prevLogTerm)
  }

  /** Rules 3 and 4: lay `entries` over the log from index `start`. Entries whose
      index and term are already in the log are kept; at the first conflict (or
      past the end) the log is cut there and the rest of `entries` appended. A
      log longer than the entries and without conflict keeps its tail. */
  function Merge(log: seq<UpdateOperation>, start: nat, entries: seq<UpdateOperation>): (r: seq<UpdateOperation>)
    requires start <= |log|
    ensures |r| >= start + |entries|
    ensures r[..start] == log[..start]
    ensures forall j :: 0 <= j < |entries| ==> r[start + j].term == entries[j].term
    decreases |entries|
  {
    if entries == [] then log
    else if start < |log| && log[start].term == entries[0].term then
      var r := Merge(log, start + 1, entries[1..]);
      assert forall j :: 0 <= j < |entries| - 1 ==> r[start + 1 + j].term == entries[1..][j].term;
      assert r[..start] == r[..start + 1][..start];
      r
    else log[..start] + entries
  }

  /** What a merge leaves at each index of the window: the incoming entry, or
      the entry already there when it has the same term. */
  lemma {:induction false} MergeWindow(log: seq<UpdateOperation>, start: nat, entries: seq<UpdateOperation>, j: nat)
    requires start <= |log| && j < |entries|
    ensures Merge(log, start, entries)[start + j] == entries[j]
      || (start + j < |log| && Merge(log, start, entries)[start + j] == log[start + j])
    decreases |entries|
  {
    if start < |log| && log[start].term == entries[0].term && j > 0 {
      MergeWindow(log, start + 1, entries[1..], j - 1);
    }
  }

  /** Where every same-term entry already in the log is the incoming one (the
      log matching property of section 5.3), the window holds exactly `entries`. */
  lemma {:induction false} MergeWindowIsEntries(log: seq<UpdateOperation>, start: nat, entries: seq<UpdateOperation>)
    requires start <= |log|
    requires forall j :: (0 <= j < |entries| && start + j < |log| && log[start + j].term == entries[j].term)
                         ==> log[start + j] == entries[j]
    ensures Merge(log, start, entries)[start..start + |entries|] == entries
  {
    var r := Merge(log, start, entries);
    forall j | 0 <= j < |entries| ensures r[start + j] == entries[j] {
      MergeWindow(log, start, entries, j);
    }
  }

  /** The log is cut only at a conflict, and then ends with the entries; a
      request without conflict, stale or repeated, keeps any longer tail. */
  lemma {:induction false} MergeKeepsTailOnlyUnchanged(log: seq<UpdateOperation>, start: nat, entries: seq<UpdateOperation>)
    requires start <= |log|
    ensures |Merge(log, start, entries)| > start + |entries| ==> Merge(log, start, entries) == log
    ensures Merge(log, start, entries) != log ==> |Merge(log, start, entries)| == start + |entries|
    decreases |entries|
  {
    if entries != [] && start < |log| && log[start].term == entries[0].term {
      MergeKeepsTailOnlyUnchanged(log, start + 1, entries[1..]);
    }
  }

  /** Delivering the same request twice leaves the log as one delivery does. */
  lemma {:induction false} MergeIdempotent(log: seq<UpdateOperation>, start: nat, entries: seq<UpdateOperation>)
    requires start <= |log|
    ensures Merge(Merge(log, start, entries), start, entries) == Merge(log, start, entries)
    decreases |entries|
  {
    var r := Merge(log, start, entries);
    if entries != [] {
      if start < |log| && log[start].term == entries[0].term {
        MergeIdempotent(log, start + 1, entries[1..]);
        assert r[start].term == entries[0].term;
      } else {
        assert r == log[..start] + entries;
        MergeOntoItself(log[..start], entries);
      }
    }
  }

  /** Merging entries onto a log that ends with exactly those entries changes nothing. */
  lemma {:induction false} MergeOntoItself(prefix: seq<UpdateOperation>, entries: seq<UpdateOperation>)
    ensures Merge(prefix + entries, |prefix|, entries) == prefix + entries
    decreases |entries|
  {
    if entries != [] {
      assert (prefix + entries)[|prefix|] == entries[0];
      assert prefix + entries == (prefix + [entries[0]]) + entries[1..];
      MergeOntoItself(prefix + [entries[0]], entries[1..]);
    }
  }

  /** The entries laid from `start` agree in term with every entry the log holds
      up to index `bound`. */
  predicate NoConflictUpTo(log: seq<UpdateOperation>, start: int, entries: seq<UpdateOperation>, bound: int) {
    forall j :: 0 <= j < |entries| && 0 <= start + j <= bound && start + j < |log| ==>
      log[start + j].term == entries[j].term
  }

  /** Entries that agree in term with everything the log holds up to `bound`
      leave that part of the log as it was. With `bound` the commit index, this
      is why committed entries survive a request from a leader whose log holds
      them (leader completeness, section 5.4). */
  lemma {:induction false} MergeKeepsPrefix(log: seq<UpdateOperation>, start: nat, entries: seq<UpdateOperation>, bound: int)
    requires start <= |log| && -1 <= bound < |log|
    requires NoConflictUpTo(log, start, entries, bound)
    ensures |Merge(log, start, entries)| > bound
    ensures Merge(log, start, entries)[..bound + 1] == log[..bound + 1]
    decreases |entries|
  {
    if entries != [] && start <= bound {
      assert log[start].term == entries[0].term;
      MergeKeepsPrefix(log, start + 1, entries[1..], bound);
    } else if entries != [] {
      var r := Merge(log, start, entries);
      assert r[..bound + 1] == r[..start][..bound + 1];
      assert log[..bound + 1] == log[..start][..bound + 1];
    }
  }

  /** After a merge from `prevLogIndex + 1`, the next request of the same leader,
      which names the last entry it sent, passes the previous-entry check. */
  lemma MergeThenMatched(log: seq<UpdateOperation>, prevLogIndex: int, entries: seq<UpdateOperation>)
    requires -1 <= prevLogIndex < |log| && |entries| >= 1
    ensures PrevLogMatched(Merge(log, prevLogIndex + 1, entries), prevLogIndex + |entries|, entries[|entries| - 1].term)
  {
    var r := Merge(log, prevLogIndex + 1, entries);
    assert r[prevLogIndex + 1 + (|entries| - 1)].term == entries[|entries| - 1].term;
  }

  /** The commit index after a successful AppendEntries: raised to
      `min(leaderCommit, last index)` when the leader's is larger, else kept. */
  function NextCommitIndex(commitIndex: int, leaderCommit: int, logLength: nat): (c: int)
    ensures leaderCommit <= commitIndex ==> c == commitIndex
    ensures leaderCommit > commitIndex ==>
      (c <= leaderCommit && c <= logLength - 1 && (c == leaderCommit || c == logLength - 1))
  {
    if leaderCommit > commitIndex then
      if leaderCommit < logLength - 1 then leaderCommit else logLength - 1
    else commitIndex
  }

  /** The code takes the minimum with the last index of the whole log, where
      figure 2 says the index of the last new entry. A leader never sends a
      commit index beyond the last entry it sends, and then the two agree; the
      commit index never falls while the log still reaches it. */
  lemma CommitRuleAgreesWithFigure2(commitIndex: int, leaderCommit: int, prevLogIndex: int,
                                    entries: seq<UpdateOperation>, logLength: nat)
    requires leaderCommit <= prevLogIndex + |entries| <= logLength - 1
    ensures var lastNew := prevLogIndex + |entries|;
      NextCommitIndex(commitIndex, leaderCommit, logLength)
        == (if leaderCommit > commitIndex then (if leaderCommit < lastNew then leaderCommit else lastNew) else commitIndex)
    ensures commitIndex <= logLength - 1 ==>
      commitIndex <= NextCommitIndex(commitIndex, leaderCommit, logLength) <= logLength - 1
  {
  }

  /** When a merge leaves the log shorter than the commit index reaches and the
      leader's commit index is larger, the rule lowers the commit index to the
      new last index: the committed entries cut away are no longer counted. */
  lemma CommitIndexFallsAfterTruncation(commitIndex: int, leaderCommit: int, logLength: nat)
    requires logLength - 1 < commitIndex < leaderCommit
    ensures NextCommitIndex(commitIndex, leaderCommit, logLength) == logLength - 1
    ensures NextCommitIndex(commitIndex, leaderCommit, logLength) < commitIndex
  {
  }
}

/** Log comparison of the Raft tests: entries are compared on their term and,
    for file updates, on version and hash list, never on the filename. A log
    entry is a pointer in the tests and may be nil, hence `Option`. */
module RaftTestUtils {
  import opened SyncTypes
  import opened TestUtils

  /** What the comparison sees of an entry. */
  datatype OpView = NilEntry | NoOp(term: int) | Update(term: int, version: Int32, hashes: seq<string>)

  function View(op: Option<UpdateOperation>): OpView {
    match op
    case None => NilEntry
    case Some(UpdateOperation(t, None)) => NoOp(t)
    case Some(UpdateOperation(t, Some(m))) => Update(t, m.version, m.blockHashList)
  }

  /** `SameOperation`: two nil entries agree, a nil and a non-nil never do; else
      the terms must agree, both must be no-ops or both updates, and two updates
      must agree on version and hash list. */
  predicate SameOperation(op1: Option<UpdateOperation>, op2: Option<UpdateOperation>)
    ensures SameOperation(op1, op2) <==> View(op1) == View(op2)
    ensures op1.Some? && op2.Some? && op1.value.term != op2.value.term ==> !SameOperation(op1, op2)
  {
    if op1.None? && op2.None? then true
    else if op1.None? || op2.None? then false
    else if op1.value.term != op2.value.term then false
    else if op1.value.fileMetaData.None? != op2.value.fileMetaData.None? then false
    else if op1.value.fileMetaData.None? && op2.value.fileMetaData.None? then true
    else if op1.value.fileMetaData.value.version != op2.value.fileMetaData.value.version then false
    else if !SameHashList(op1.value.fileMetaData.value.blockHashList,
                          op2.value.fileMetaData.value.blockHashList) then false
    else true
  }

  function Views(l: seq<Option<UpdateOperation>>): (r: seq<OpView>)
    ensures |r| == |l| && forall i :: 0 <= i < |l| ==> r[i] == View(l[i])
  {
    seq(|l|, i requires 0 <= i < |l| => View(l[i]))
  }

  /** `SameLog`: same length and `SameOperation` at every index, which is equality
      of the two logs as the comparison sees them. */
  predicate SameLog(log1: seq<Option<UpdateOperation>>, log2: seq<Option<UpdateOperation>>)
    ensures SameLog(log1, log2) <==> Views(log1) == Views(log2)
  {
    var r := |log1| == |log2| && forall i :: 0 <= i < |log1| ==> SameOperation(log1[i], log2[i]);
    assert Views(log1) == Views(log2) ==> r by {
      if Views(log1) == Views(log2) {
        forall i | 0 <= i < |log1| ensures SameOperation(log1[i], log2[i]) {
          assert Views(log1)[i] == Views(log2)[i];
        }
      }
    }
    r
  }

  /** `SameLog` is an equivalence relation. */
  lemma SameLogEquivalence(l1: seq<Option<UpdateOperation>>, l2: seq<Option<UpdateOperation>>,
                           l3: seq<Option<UpdateOperation>>)
    ensures SameLog(l1, l1)
    ensures SameLog(l1, l2) ==> SameLog(l2, l1)
    ensures SameLog(l1, l2) && SameLog(l2, l3) ==> SameLog(l1, l3)
  {
  }

  /** Logs of a server, whose entries are never nil, as the tests receive them. */
  function Received(log: seq<UpdateOperation>): (r: seq<Option<UpdateOperation>>)
    ensures |r| == |log| && forall i :: 0 <= i < |log| ==> r[i] == Some(log[i])
  {
    seq(|log|, i requires 0 <= i < |log| => Some(log[i]))
  }

  /** Two server logs compare equal exactly when they agree entry by entry on the
      term, on being a no-op, and on the version and hash list of updates. */
  lemma SameLogOfServerLogs(a: seq<UpdateOperation>, b: seq<UpdateOperation>)
    ensures SameLog(Received(a), Received(b)) <==>
      |a| == |b| && forall i :: 0 <= i < |a| ==>
        a[i].term == b[i].term && a[i].fileMetaData.None? == b[i].fileMetaData.None?
        && (a[i].fileMetaData.Some? ==> Content(a[i].fileMetaData.value) == Content(b[i].fileMetaData.value))
  {
    if SameLog(Received(a), Received(b)) {
      forall i | 0 <= i < |a|
        ensures a[i].term == b[i].term && a[i].fileMetaData.None? == b[i].fileMetaData.None?
          && (a[i].fileMetaData.Some? ==> Content(a[i].fileMetaData.value) == Content(b[i].fileMetaData.value))
      {
        assert Views(Received(a))[i] == Views(Received(b))[i];
      }
    }
  }
}

/** Comparison helpers of the test package over hash lists and metadata maps. */
module TestUtils {
  import opened SyncTypes

  /** The tombstone hash the test package compares against. */
  const TOMBSTONE_HASH: string := TOMBSTONE_HASHVALUE

  /** `IsTombHashList`: the list marks a deleted file. */
  predicate IsTombHashList(hashList: seq<string>)
    ensures IsTombHashList(hashList) <==> hashList == [TOMBSTONE_HASH]
  {
    |hashList| == 1 && hashList[0] == TOMBSTONE_HASH
  }

  /** `SameHashList`: equal lengths and equal at every position, which is
      exactly equality of the two lists. */
  predicate SameHashList(list1: seq<string>, list2: seq<string>)
    ensures SameHashList(list1, list2) <==> list1 == list2
  {
    |list1| == |list2| && forall i :: 0 <= i < |list1| ==> list1[i] == list2[i]
  }

  /** What the comparisons look at in a metadata value: version and hash list, not the filename. */
  function Content(m: FileMetaData): (Int32, seq<string>) {
    (m.version, m.blockHashList)
  }

  /** `m` with every stored filename dropped. */
  function Contents(m: map<string, FileMetaData>): map<string, (Int32, seq<string>)> {
    map k | k in m :: Content(m[k])
  }

  /** Whether `m1[k]` is matched by an entry of `m2`, as one loop of `SameMeta` checks it. */
  predicate Matched(m1: map<string, FileMetaData>, m2: map<string, FileMetaData>, k: string)
    requires k in m1
  {
    k in m2 && m2[k].version == m1[k].version && SameHashList(m2[k].blockHashList, m1[k].blockHashList)
  }

  /** `SameMeta`: every key of each map is in the other with the same version and
      hash list. It is equality of the two maps once filenames are dropped. */
  predicate SameMeta(meta1: map<string, FileMetaData>, meta2: map<string, FileMetaData>)
    ensures SameMeta(meta1, meta2) <==> Contents(meta1) == Contents(meta2)
  {
    var r := (forall k :: k in meta1 ==> Matched(meta1, meta2, k))
      && (forall k :: k in meta2 ==> Matched(meta2, meta1, k));
    assert r ==> Contents(meta1) == Contents(meta2) by {
      if r {
        assert Contents(meta1).Keys == Contents(meta2).Keys;
      }
    }
    assert Contents(meta1) == Contents(meta2) ==> r by {
      if Contents(meta1) == Contents(meta2) {
        forall k | k in meta1 ensures Matched(meta1, meta2, k) {
          assert k in Contents(meta2);
        }
        forall k | k in meta2 ensures Matched(meta2, meta1, k) {
          assert k in Contents(meta1);
        }
      }
    }
    r
  }

  /** `SameMeta` is an equivalence, and two empty maps are the same. */
  lemma SameMetaEquivalence(m1: map<string, FileMetaData>, m2: map<string, FileMetaData>,
                            m3: map<string, FileMetaData>)
    ensures SameMeta(m1, m1)
    ensures SameMeta(m1, m2) ==> SameMeta(m2, m1)
    ensures SameMeta(m1, m2) && SameMeta(m2, m3) ==> SameMeta(m1, m3)
    ensures SameMeta(map[], map[])
  {
  }

  /** Renaming the file inside a stored value does not change the comparison. */
  lemma SameMetaIgnoresFilename(m1: map<string, FileMetaData>, m2: map<string, FileMetaData>,
                                k: string, name: string)
    requires k in m1
    ensures SameMeta(m1[k := m1[k].(filename := name)], m2) == SameMeta(m1, m2)
  {
    assert Contents(m1[k := m1[k].(filename := name)]) == Contents(m1);
  }

  /** `ConcatPath`: the base directory, a slash, then the file path. */
  function ConcatPath(baseDir: string, fileDir: string): (r: string)
    ensures |r| == |baseDir| + |fileDir| + 1
    ensures r[..|baseDir|] == baseDir && r[|baseDir|] == '/' && r[|baseDir| + 1..] == fileDir
  {
    baseDir + "/" + fileDir
  }
}

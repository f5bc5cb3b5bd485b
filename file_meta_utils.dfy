/** Construction of `FileMetaData` values in the test package: from
    parameters, or from one line of the flat metadata file
    `filename,version,hash1 hash2 ...`. */
module FileMetaUtils {
  import opened SyncTypes
  import opened GoStrings

  /** `NewFileMetaDataFromParams`: filename and hash list as given, version cut to 32 bits. */
  function NewFileMetaDataFromParams(filename: string, version: int, hashList: seq<string>): (m: FileMetaData)
    ensures m.filename == filename && m.blockHashList == hashList
    ensures -0x8000_0000 <= version < 0x8000_0000 ==> m.version == version
    ensures (m.version - version) % 0x1_0000_0000 == 0
  {
    FileMetaData(filename, ToInt32(version), hashList)
  }

  /** `NewFileMetaDataFromConfig`. `None` stands for the index-out-of-range panic
      of a line with fewer than three comma-separated fields. The filename is the
      text before the first comma, untrimmed; the version is the second field read
      by `Atoi` (0 on a syntax error) and cut to 32 bits; the hash list is the
      third field, trimmed, split at single spaces; later fields are ignored. */
  function NewFileMetaDataFromConfig(configString: string): (r: Option<FileMetaData>)
    ensures r.Some? <==> |Split(configString, CONFIG_DELIMITER)| >= 3
    ensures r.Some? ==>
      var items := Split(configString, CONFIG_DELIMITER);
      && Excludes(r.value.filename, CONFIG_DELIMITER)
      && |r.value.filename| < |configString|
      && configString[..|r.value.filename|] == r.value.filename
      && configString[|r.value.filename|] == CONFIG_DELIMITER
      && r.value.version == ToInt32(Atoi(items[VERSION_INDEX]).0)
      && |r.value.blockHashList| >= 1
      && (forall i :: 0 <= i < |r.value.blockHashList| ==> Excludes(r.value.blockHashList[i], HASH_DELIMITER))
      && Join(r.value.blockHashList, HASH_DELIMITER) == TrimSpace(items[HASH_LIST_INDEX])
  {
    var configItems := Split(configString, CONFIG_DELIMITER);
    if |configItems| < 3 then None
    else
      var filename := configItems[FILENAME_INDEX];
      var version := Atoi(configItems[VERSION_INDEX]).0;
      var blockHashList := Split(TrimSpace(configItems[HASH_LIST_INDEX]), HASH_DELIMITER);
      JoinSplit(configString, CONFIG_DELIMITER);
      JoinHead(configItems, CONFIG_DELIMITER);
      JoinSplit(TrimSpace(configItems[HASH_LIST_INDEX]), HASH_DELIMITER);
      Some(FileMetaData(filename, ToInt32(version), blockHashList))
  }

  /** In a join of two or more pieces, the first piece is followed by the separator. */
  lemma JoinHead(parts: seq<string>, sep: char)
    requires |parts| >= 2
    ensures |parts[0]| < |Join(parts, sep)|
    ensures Join(parts, sep)[..|parts[0]|] == parts[0] && Join(parts, sep)[|parts[0]|] == sep
  {
    assert Join(parts, sep) == parts[0] + [sep] + Join(parts[1..], sep);
  }

  /** The hash list read from the config line is exactly the split of the trimmed
      third field: no other separator-free list joins to it. */
  lemma ConfigHashListIsSplit(configString: string)
    requires |Split(configString, CONFIG_DELIMITER)| >= 3
    ensures NewFileMetaDataFromConfig(configString).value.blockHashList
      == Split(TrimSpace(Split(configString, CONFIG_DELIMITER)[HASH_LIST_INDEX]), HASH_DELIMITER)
  {
    var m := NewFileMetaDataFromConfig(configString).value;
    SplitJoin(m.blockHashList, HASH_DELIMITER);
  }

  /** A blank third field, empty or spaces only, gives the one-element list
      holding the empty hash, not an empty list. */
  lemma BlankHashField(configString: string)
    requires |Split(configString, CONFIG_DELIMITER)| >= 3
    requires var f := Split(configString, CONFIG_DELIMITER)[HASH_LIST_INDEX];
      forall k :: 0 <= k < |f| ==> IsSpace(f[k])
    ensures NewFileMetaDataFromConfig(configString).value.blockHashList == [""]
  {
    ConfigHashListIsSplit(configString);
  }

  /** A line whose hash field is empty names the file before the first comma
      and holds the one empty hash. */
  lemma ConfigLineWithEmptyHashes()
    ensures NewFileMetaDataFromConfig("a,1,") == Some(FileMetaData("a", 1, [""]))
  {
    var line := "a,1,";
    SplitOfSampleLine();
    var items := Split(line, CONFIG_DELIMITER);
    assert items[FILENAME_INDEX] == "a" && items[VERSION_INDEX] == "1";
    assert Magnitude("1") == "1" && DigitsValue("1") == 1;
    assert Atoi(items[VERSION_INDEX]) == (1, true);
    BlankHashField(line);
    var r := NewFileMetaDataFromConfig(line);
    assert r == Some(FileMetaData(items[FILENAME_INDEX], ToInt32(Atoi(items[VERSION_INDEX]).0), r.value.blockHashList));
  }

  /** The sample line splits into its three fields, the last one empty. */
  lemma SplitOfSampleLine()
    ensures Split("a,1,", CONFIG_DELIMITER) == ["a", "1", ""]
  {
    SplitCons("a", CONFIG_DELIMITER, "1,");
    SplitCons("1", CONFIG_DELIMITER, "");
    assert "a,1," == "a" + [CONFIG_DELIMITER] + "1,";
    assert "1," == "1" + [CONFIG_DELIMITER] + "";
  }

  /** `NewFileMetaData`: dispatch on the initialisation mode. Any mode other than
      by-parameters or by-config-string, by-filename included, gives the empty
      metadata. `None` is the panic of a malformed config string. */
  function NewFileMetaData(initMode: int, filename: string, version: int, hashList: seq<string>,
                           configStr: string): (r: Option<FileMetaData>)
    ensures initMode == META_INIT_BY_PARAMS ==>
      r == Some(NewFileMetaDataFromParams(filename, version, hashList))
    ensures initMode == META_INIT_BY_CONFIG_STR ==> r == NewFileMetaDataFromConfig(configStr)
    ensures initMode != META_INIT_BY_PARAMS && initMode != META_INIT_BY_CONFIG_STR ==>
      r == Some(FileMetaData("", 0, []))
  {
    match initMode
    case 1 => Some(NewFileMetaDataFromParams(filename, version, hashList))
    case 2 => NewFileMetaDataFromConfig(configStr)
    case _ => Some(FileMetaData("", 0, []))
  }

  /** The config line the metadata file holds for `m`. */
  function ConfigLine(m: FileMetaData): string {
    m.filename + [CONFIG_DELIMITER] + Itoa(m.version) + [CONFIG_DELIMITER] + Join(m.blockHashList, HASH_DELIMITER)
  }

  /** A hash as the block store produces it: non-empty, with no space or comma. */
  predicate WellFormedHash(h: string) {
    |h| >= 1 && NoSpace(h) && Excludes(h, CONFIG_DELIMITER)
  }

  /** Parsing the config line of a metadata value gives the value back, provided
      the filename holds no comma and the hash list is non-empty and made of
      well-formed hashes. */
  lemma ConfigLineRoundTrip(m: FileMetaData)
    requires Excludes(m.filename, CONFIG_DELIMITER)
    requires |m.blockHashList| >= 1
    requires forall i :: 0 <= i < |m.blockHashList| ==> WellFormedHash(m.blockHashList[i])
    ensures NewFileMetaDataFromConfig(ConfigLine(m)) == Some(m)
  {
    var hs := Join(m.blockHashList, HASH_DELIMITER);
    var items := Split(ConfigLine(m), CONFIG_DELIMITER);
    ConfigLineFields(m);
    assert items[FILENAME_INDEX] == m.filename && items[VERSION_INDEX] == Itoa(m.version);
    assert items[HASH_LIST_INDEX] == hs;
    AtoiItoa(m.version);
    assert ToInt32(Atoi(Itoa(m.version)).0) == m.version;
    JoinEdges(m.blockHashList, HASH_DELIMITER);
    TrimSpaceNoEdges(hs);
    assert forall i :: 0 <= i < |m.blockHashList| ==> Excludes(m.blockHashList[i], HASH_DELIMITER);
    SplitJoin(m.blockHashList, HASH_DELIMITER);
    assert Split(TrimSpace(items[HASH_LIST_INDEX]), HASH_DELIMITER) == m.blockHashList;
  }

  /** The config line of a metadata value splits into its three fields. */
  lemma ConfigLineFields(m: FileMetaData)
    requires Excludes(m.filename, CONFIG_DELIMITER)
    requires forall i :: 0 <= i < |m.blockHashList| ==> WellFormedHash(m.blockHashList[i])
    ensures Split(ConfigLine(m), CONFIG_DELIMITER)
      == [m.filename, Itoa(m.version), Join(m.blockHashList, HASH_DELIMITER)]
  {
    var v := Itoa(m.version);
    var hs := Join(m.blockHashList, HASH_DELIMITER);
    assert Excludes(v, CONFIG_DELIMITER) by {
      var n: int := m.version;
      var d := NatToDecimal(if n < 0 then -n else n);
      assert forall k :: 0 <= k < |d| ==> IsDigit(d[k]);
    }
    JoinExcludes(m.blockHashList, HASH_DELIMITER, CONFIG_DELIMITER);
    assert ConfigLine(m) == m.filename + [CONFIG_DELIMITER] + (v + [CONFIG_DELIMITER] + hs);
    SplitCons(m.filename, CONFIG_DELIMITER, v + [CONFIG_DELIMITER] + hs);
    SplitCons(v, CONFIG_DELIMITER, hs);
    SplitNoSep(hs, CONFIG_DELIMITER);
  }

  /** A join of pieces free of `c` is free of `c`, when the separator is not `c`. */
  lemma {:induction false} JoinExcludes(parts: seq<string>, sep: char, c: char)
    requires sep != c
    requires forall i :: 0 <= i < |parts| ==> Excludes(parts[i], c)
    ensures Excludes(Join(parts, sep), c)
    decreases |parts|
  {
    if |parts| > 1 {
      JoinExcludes(parts[1..], sep, c);
    }
  }

  /** A join of non-empty space-free pieces neither starts nor ends with a space. */
  lemma {:induction false} JoinEdges(parts: seq<string>, sep: char)
    requires |parts| >= 1
    requires forall i :: 0 <= i < |parts| ==> WellFormedHash(parts[i])
    ensures var j := Join(parts, sep); |j| >= 1 && !IsSpace(j[0]) && !IsSpace(j[|j| - 1])
    decreases |parts|
  {
    if |parts| > 1 {
      JoinEdges(parts[1..], sep);
      var j := Join(parts, sep);
      var t := Join(parts[1..], sep);
      assert j == parts[0] + [sep] + t;
      assert j[0] == parts[0][0];
      assert j[|j| - 1] == t[|t| - 1];
    }
  }
}

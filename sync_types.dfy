/** Message types and constants of the syncinator package that the consensus
    core and the test helpers share. */
module SyncTypes {

  datatype Option<+T> = None | Some(value: T)

  /** Values of a Go `int32`. */
  type Int32 = x: int | -0x8000_0000 <= x < 0x8000_0000

  /** Go's conversion `int32(x)`: keep the low 32 bits, read them as two's complement. */
  function ToInt32(x: int): (r: Int32)
    ensures -0x8000_0000 <= x < 0x8000_0000 ==> r == x
    ensures (r - x) % 0x1_0000_0000 == 0
  {
    (x + 0x8000_0000) % 0x1_0000_0000 - 0x8000_0000
  }

  /** File metadata as the metadata store and the log carry it. A Go nil hash
      list and an empty one behave alike for every operation modelled here. */
  datatype FileMetaData = FileMetaData(filename: string, version: Int32, blockHashList: seq<string>)

  /** One log entry; `fileMetaData == None` marks the no-op a new leader appends. */
  datatype UpdateOperation = UpdateOperation(term: int, fileMetaData: Option<FileMetaData>)

  datatype ServerStatus = FOLLOWER | LEADER | CRASHED

  datatype RaftError = ErrServerCrashed | ErrNotLeader | StoreError(message: string)

  const TOMBSTONE_HASHVALUE: string := "0"
  const EMPTYFILE_HASHVALUE: string := "-1"

  const FILENAME_INDEX: nat := 0
  const VERSION_INDEX: nat := 1
  const HASH_LIST_INDEX: nat := 2

  const CONFIG_DELIMITER: char := ','
  const HASH_DELIMITER: char := ' '

  const META_INIT_BY_FILENAME: int := 0
  const META_INIT_BY_PARAMS: int := 1
  const META_INIT_BY_CONFIG_STR: int := 2
}

/** The value types of a backup's manifest that the other modules share. */
module Schema {

  datatype Option<+T> = None | Some(value: T)

  datatype Result<+T, +E> = Ok(value: T) | Err(error: E)

  type u32 = x: int | 0 <= x < 0x1_0000_0000

  const U32_MAX: u32 := 0xFFFF_FFFF

  type i64 = x: int | -0x8000_0000_0000_0000 <= x < 0x8000_0000_0000_0000

  const I64_MIN: i64 := -0x8000_0000_0000_0000

  /** A backup id.  The program uses UUID v7 strings because their order is the
      creation order (section 5.7 of RFC 9562); only that order matters here. */
  type Id = nat

  /** A position in the oplog: a second and a counter within that second. */
  datatype OplogTimestamp = OplogTimestamp(t: u32, i: u32) {
    predicate Lt(other: OplogTimestamp) {
      t < other.t || (t == other.t && i < other.i)
    }

    predicate Le(other: OplogTimestamp) {
      !other.Lt(this)
    }
  }

  datatype OplogRange = OplogRange(start: OplogTimestamp, end: OplogTimestamp)

  datatype BackupType = Full | Incremental

  datatype BackupStatus = Complete | Incomplete

  /** The archive format that a manifest records, which tells the engines apart. */
  datatype ArchiveFormat = MongoArchive | FileTar | FileIncr | PgArchive | PgIncr

  datatype BackupManifest = BackupManifest(
    id: Id,
    createdAt: Option<i64>, // seconds since the epoch, None when the text does not parse
    backupType: BackupType,
    baseId: Option<Id>,
    format: ArchiveFormat,
    selective: bool,
    oplogRange: Option<OplogRange>,
    oplogCount: Option<nat>,
    promotedFromGap: bool,
    status: BackupStatus)

  /** The projection of a manifest that chain verification looks at. */
  datatype ChainNode = ChainNode(
    id: Id,
    backupType: BackupType,
    baseId: Option<Id>,
    oplogRange: Option<OplogRange>,
    isEmptySlice: bool,
    selective: bool,
    status: BackupStatus)

  function NodeOf(m: BackupManifest): ChainNode {
    ChainNode(m.id, m.backupType, m.baseId, m.oplogRange, m.oplogCount == Some(0), m.selective, m.status)
  }

  function NodesOf(ms: seq<BackupManifest>): (nodes: seq<ChainNode>)
    ensures |nodes| == |ms|
    ensures forall i :: 0 <= i < |ms| ==> nodes[i] == NodeOf(ms[i])
  {
    seq(|ms|, i requires 0 <= i < |ms| => NodeOf(ms[i]))
  }
}

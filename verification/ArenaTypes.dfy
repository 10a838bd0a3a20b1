/** The values an arena table is made of, and the value of a whole table. */
module ArenaTypes {

  type Byte = b: int | 0 <= b < 256

  datatype Option<+T> = None | Some(value: T)

  datatype Result<+T, +E> = Ok(value: T) | Err(error: E)

  /** A reference into a table's blob arena: `len` bytes from offset `off`. */
  datatype BlobRef = BlobRef(off: nat, len: nat)

  /** The bytes of some spans. */
  type Blobs = map<BlobRef, seq<Byte>>

  /** A fixed-size row: its id, then the bytes of its other fields. */
  datatype Row = Row(id: int, data: seq<Byte>)

  /** A secondary key, as the tuple of its components. */
  type Key = seq<int>

  /**
    What a row type declares: the size of a row after its id, one key function
    for each secondary index, and the non-empty blob spans its fields name.
   */
  datatype Schema = Schema(size: nat, keys: seq<Row -> Key>, refs: Row -> multiset<BlobRef>)

  type Rows = map<int, Row>

  /** One open undo session: what is needed to go back to where it started. */
  datatype Session = Session(
    modified: Rows,
    removed: Rows,
    modifiedOrder: seq<int>,
    removedOrder: seq<int>,
    oldNextId: nat,
    oldBlobLen: nat,
    freed: seq<BlobRef>,
    reused: seq<BlobRef>)

  /** A stack, innermost entry first. */
  datatype Stack<T> = Bottom | Push(top: T, below: Stack<T>)

  function Depth<T>(st: Stack<T>): nat
  {
    match st
    case Bottom => 0
    case Push(_, below) => 1 + Depth(below)
  }

  /** The innermost `keep` entries: what is left when the oldest are dropped. */
  function Innermost<T>(st: Stack<T>, keep: nat): Stack<T>
  {
    match st
    case Bottom => Bottom
    case Push(top, below) => if keep == 0 then Bottom else Push(top, Innermost(below, keep - 1))
  }

  function Nth<T>(st: Stack<T>, k: nat): Option<T>
  {
    match st
    case Bottom => None
    case Push(top, below) => if k == 0 then Some(top) else Nth(below, k - 1)
  }

  /** The entry that took a stack to revision `k`, if it is still there; the innermost took it to `revision`. */
  function OpenedAt<T>(st: Stack<T>, revision: int, k: int): Option<T>
  {
    if k <= revision then Nth(st, revision - k) else None
  }

  /**
    The value of a table. The secondary indices and the row count are functions
    of `rows`; the class that stores them keeps them equal to those functions.
    `free` lists the reusable spans in the order they were released.
   */
  datatype Tab = Tab(
    nextId: nat,
    rows: Rows,
    blobs: seq<Byte>,
    undo: Stack<Session>,
    revision: int,
    dirty: seq<int>,
    free: seq<BlobRef>,
    patches: seq<BlobRef>,
    flushed: nat)

  datatype TableError =
    | NotFound(id: int)
    | UniquenessViolation(index: nat)
    | IdChanged
    | Revision
    | Corrupted
}

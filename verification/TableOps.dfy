/** The operations callers run on a table, as values, so that runs can be sequences of them. */
module TableOps {
  import opened ArenaTypes
  import opened TableSpec

  datatype Op =
    | AllocOp(bytes: seq<Byte>)
    | FreeOp(r: BlobRef)
    | EmplaceOp(obj: Row)
    | ModifyOp(id: int, updated: Row)
    | RemoveOp(id: int)
    | RewriteOp(id: int, was: BlobRef, bytes: seq<Byte>, updated: Row)
    | StartOp
    | UndoOp(order: seq<int>)
    | SquashOp
    | CommitOp(revision: int)
    | SetRevisionOp(revision: int)
    | FlushOp

  /** What the table itself needs to carry out an operation. */
  ghost predicate CanStep(t: Tab, op: Op)
  {
    match op
    case AllocOp(bytes) => FreeInside(t) && |bytes| < U32
    case RewriteOp(_, was, bytes, _) => FreeInside(FreeBlob(t, was)) && |bytes| < U32
    case _ => true
  }

  ghost function TabStep(sc: Schema, t: Tab, op: Op): Tab
    requires CanStep(t, op)
  {
    match op
    case AllocOp(bytes) => Alloc(t, bytes)
    case FreeOp(r) => FreeBlob(t, r)
    case EmplaceOp(obj) => Emplace(sc, t, obj)
    case ModifyOp(id, updated) => Modify(sc, t, id, updated)
    case RemoveOp(id) => Remove(t, id)
    case RewriteOp(id, was, bytes, updated) => Modify(sc, Alloc(FreeBlob(t, was), bytes), id, updated)
    case StartOp => StartSession(t)
    case UndoOp(order) => UndoSession(t, order)
    case SquashOp => Squash(t)
    case CommitOp(revision) => Commit(t, revision)
    case SetRevisionOp(revision) => SetRevision(t, revision)
    case FlushOp => MarkFlushed(t)
  }
}

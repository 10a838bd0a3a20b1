/** How each operation moves a table's undo depth and revision. */
module SessionLevels {
  import opened ArenaTypes
  import opened TableSpec
  import opened TableOps

  predicate ForOne(op: Op)
  {
    op.AllocOp? || op.FreeOp? || op.EmplaceOp? || op.ModifyOp? || op.RemoveOp? || op.RewriteOp?
  }

  lemma InnermostDepth<T>(st: Stack<T>, keep: nat)
    requires keep <= Depth(st)
    ensures Depth(Innermost(st, keep)) == keep
  {
  }

  /** The undo depth and revision of a table after an operation. */
  function Moved(depth: nat, revision: int, op: Op): (nat, int)
  {
    match op
    case StartOp => (depth + 1, revision + 1)
    case UndoOp(_) => if depth == 0 then (depth, revision) else (depth - 1, revision - 1)
    case SquashOp => if depth == 0 then (depth, revision) else (depth - 1, revision - 1)
    case CommitOp(r) => (KeptBy(depth, revision, r), revision)
    case SetRevisionOp(r) => if depth == 0 && revision <= r then (depth, r) else (depth, revision)
    case _ => (depth, revision)
  }

  lemma AllocKeeps(t: Tab, bytes: seq<Byte>)
    requires FreeInside(t) && |bytes| < U32
    ensures var t' := Alloc(t, bytes); Depth(t'.undo) == Depth(t.undo) && t'.revision == t.revision
  {
    hide FreeInside, Write, RemoveAt;
  }

  lemma FreeKeeps(t: Tab, r: BlobRef)
    ensures var t' := FreeBlob(t, r); Depth(t'.undo) == Depth(t.undo) && t'.revision == t.revision
  {
  }

  lemma ModifyKeeps(sc: Schema, t: Tab, id: int, updated: Row)
    ensures var t' := Modify(sc, t, id, updated); Depth(t'.undo) == Depth(t.undo) && t'.revision == t.revision
  {
    hide ModifyError;
    if ModifyError(sc, t, id, updated).None? {
      NoErrorStored(sc, t, id, updated);
    }
  }

  lemma NoErrorStored(sc: Schema, t: Tab, id: int, updated: Row)
    requires ModifyError(sc, t, id, updated).None?
    ensures id in t.rows
  {
    hide Conflict;
  }

  /** Row and blob operations leave the sessions' number and the revision alone. */
  lemma OneKeeps(sc: Schema, t: Tab, op: Op)
    requires ForOne(op) && CanStep(t, op)
    ensures var t' := TabStep(sc, t, op); Depth(t'.undo) == Depth(t.undo) && t'.revision == t.revision
  {
    hide Alloc, FreeBlob, Modify, FreeInside, EmplaceError, MarkDirty;
    match op
    case AllocOp(bytes) => AllocKeeps(t, bytes);
    case FreeOp(r) => FreeKeeps(t, r);
    case ModifyOp(id, updated) => ModifyKeeps(sc, t, id, updated);
    case RewriteOp(id, was, bytes, updated) =>
      FreeKeeps(t, was);
      AllocKeeps(FreeBlob(t, was), bytes);
      ModifyKeeps(sc, Alloc(FreeBlob(t, was), bytes), id, updated);
    case EmplaceOp(_) =>
    case RemoveOp(_) =>
  }

  lemma SquashShifts(t: Tab)
    requires t.undo.Push?
    ensures var t' := Squash(t); Depth(t'.undo) == Depth(t.undo) - 1 && t'.revision == t.revision - 1
  {
    hide Merge;
  }

  lemma NothingToSquash(t: Tab)
    requires t.undo.Bottom?
    ensures Squash(t) == t
  {
  }

  lemma StepMoves(sc: Schema, t: Tab, op: Op)
    requires CanStep(t, op)
    ensures var t' := TabStep(sc, t, op); (Depth(t'.undo), t'.revision) == Moved(Depth(t.undo), t.revision, op)
  {
    hide Alloc, FreeBlob, Emplace, Modify, Remove, Squash, Restore, MarkAll, FreedOutside, FreeInside;
    if op.SquashOp? {
      if t.undo.Push? {
        SquashShifts(t);
      } else {
        NothingToSquash(t);
      }
    } else if op.CommitOp? {
      InnermostDepth(t.undo, KeptBy(Depth(t.undo), t.revision, op.revision));
    } else if ForOne(op) {
      OneKeeps(sc, t, op);
    }
  }
}

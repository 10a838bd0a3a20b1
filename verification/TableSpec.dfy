/** What each table operation does, as a function from a table's value to the next. */
module TableSpec {
  import opened ArenaTypes

  /** Offsets and lengths are 32 bits wide. */
  const U32 := 0x1_0000_0000

  // ----- rows and keys ------------------------------------------------------

  /** Index `i` already maps `row`'s key to a row other than `row` itself. */
  ghost predicate Taken(sc: Schema, rows: Rows, row: Row, i: nat)
    requires i < |sc.keys|
  {
    exists id :: id in rows && id != row.id && sc.keys[i](rows[id]) == sc.keys[i](row)
  }

  /** The first index, from `i` on, whose key for `row` is taken. */
  ghost function Conflict(sc: Schema, rows: Rows, row: Row, i: nat): (r: Option<nat>)
    requires i <= |sc.keys|
    ensures r.None? <==> forall j: nat :: i <= j < |sc.keys| ==> !Taken(sc, rows, row, j)
    ensures r.Some? ==> i <= r.value < |sc.keys| && Taken(sc, rows, row, r.value)
                        && forall j: nat :: i <= j < r.value ==> !Taken(sc, rows, row, j)
    decreases |sc.keys| - i
  {
    if i == |sc.keys| then None
    else if Taken(sc, rows, row, i) then Some(i)
    else Conflict(sc, rows, row, i + 1)
  }

  ghost predicate KeysUnique(sc: Schema, rows: Rows)
  {
    forall i: nat, a, b :: i < |sc.keys| && a in rows && b in rows && sc.keys[i](rows[a]) == sc.keys[i](rows[b]) ==>
        a == b
  }

  // ----- the dirty list -----------------------------------------------------

  function MarkDirty(dirty: seq<int>, id: int): seq<int>
  {
    if id in dirty then dirty else dirty + [id]
  }

  function MarkAll(dirty: seq<int>, ids: seq<int>): seq<int>
  {
    if ids == [] then dirty else MarkDirty(MarkAll(dirty, ids[..|ids| - 1]), ids[|ids| - 1])
  }

  function Range(lo: nat, hi: nat): seq<int>
  {
    if hi <= lo then [] else seq(hi - lo, i => lo + i)
  }

  // ----- what a session records ---------------------------------------------

  function FreshSession(t: Tab): Session
  {
    Session(map[], map[], [], [], t.nextId, |t.blobs|, [], [])
  }

  /** The first value an older row had wins. */
  function NoteModified(s: Session, id: int, was: Row): Session
  {
    if id < s.oldNextId && id !in s.modified
    then s.(modified := s.modified[id := was], modifiedOrder := s.modifiedOrder + [id])
    else s
  }

  /** A row created in the session leaves no trace when removed. */
  function NoteRemoved(s: Session, id: int, row: Row): Session
  {
    if id < s.oldNextId
    then s.(removed := s.removed[id := row],
            removedOrder := if id in s.removed then s.removedOrder else s.removedOrder + [id])
    else s
  }

  /** The rows as they were when session `s` started, from the rows after it. */
  function Restore(s: Session, rows: Rows): Rows
  {
    map id | id in s.modified.Keys + s.removed.Keys + rows.Keys
        && (id in s.modified || id in s.removed || id < s.oldNextId)
      :: if id in s.modified then s.modified[id] else if id in s.removed then s.removed[id] else rows[id]
  }

  /** Ids of `order` below `bound` that `known` does not hold yet. */
  function NewIds(order: seq<int>, bound: nat, known: Rows): seq<int>
  {
    if order == [] then []
    else
      var rest := NewIds(order[..|order| - 1], bound, known);
      var id := order[|order| - 1];
      if id < bound && id !in known then rest + [id] else rest
  }

  function Below(m: Rows, bound: nat): Rows
  {
    map id | id in m && id < bound :: m[id]
  }

  /** Squash folds the inner session `s` into the outer session `prev`. */
  function Merge(prev: Session, s: Session): Session
  {
    Session(
      Below(s.modified, prev.oldNextId) + prev.modified,
      prev.removed + Below(s.removed, prev.oldNextId),
      prev.modifiedOrder + NewIds(s.modifiedOrder, prev.oldNextId, prev.modified),
      prev.removedOrder + NewIds(s.removedOrder, prev.oldNextId, prev.removed),
      prev.oldNextId,
      prev.oldBlobLen,
      prev.freed + s.freed,
      prev.reused + s.reused)
  }

  function OnTop(st: Stack<Session>, s: Session): Stack<Session>
    requires st.Push?
  {
    Push(s, st.below)
  }

  // ----- row operations -----------------------------------------------------

  /** The row `emplace` stores: the constructor cannot pick the id. */
  function WithId(t: Tab, obj: Row): Row
  {
    obj.(id := t.nextId)
  }

  ghost function EmplaceError(sc: Schema, t: Tab, obj: Row): Option<TableError>
  {
    match Conflict(sc, t.rows, WithId(t, obj), 0)
    case Some(i) => Some(UniquenessViolation(i))
    case None => None
  }

  ghost function Emplace(sc: Schema, t: Tab, obj: Row): Tab
  {
    if EmplaceError(sc, t, obj).Some? then t
    else t.(rows := t.rows[t.nextId := WithId(t, obj)], nextId := t.nextId + 1, dirty := MarkDirty(t.dirty, t.nextId))
  }

  ghost function ModifyError(sc: Schema, t: Tab, id: int, updated: Row): Option<TableError>
  {
    if id !in t.rows then Some(NotFound(id))
    else if updated.id != id then Some(IdChanged)
    else match Conflict(sc, t.rows, updated, 0)
      case Some(i) => Some(UniquenessViolation(i))
      case None => None
  }

  ghost function Modify(sc: Schema, t: Tab, id: int, updated: Row): Tab
  {
    if ModifyError(sc, t, id, updated).Some? then t
    else t.(rows := t.rows[id := updated],
            undo := if t.undo.Bottom? then Bottom else OnTop(t.undo, NoteModified(t.undo.top, id, t.rows[id])),
            dirty := MarkDirty(t.dirty, id))
  }

  function RemoveError(t: Tab, id: int): Option<TableError>
  {
    if id in t.rows then None else Some(NotFound(id))
  }

  function Remove(t: Tab, id: int): Tab
  {
    if id !in t.rows then t
    else t.(rows := t.rows - {id},
            undo := if t.undo.Bottom? then Bottom else OnTop(t.undo, NoteRemoved(t.undo.top, id, t.rows[id])),
            dirty := MarkDirty(t.dirty, id))
  }

  // ----- blobs --------------------------------------------------------------

  /** The most recently released span of exactly `len` bytes, as a position in `free`. */
  function FindFree(free: seq<BlobRef>, len: nat): (r: Option<nat>)
    ensures r.Some? ==> r.value < |free| && free[r.value].len == len
                        && forall j :: r.value < j < |free| ==> free[j].len != len
    ensures r.None? ==> forall j :: 0 <= j < |free| ==> free[j].len != len
  {
    if free == [] then None
    else if free[|free| - 1].len == len then Some(|free| - 1)
    else FindFree(free[..|free| - 1], len)
  }

  function RemoveAt<T>(s: seq<T>, i: nat): seq<T>
    requires i < |s|
  {
    s[..i] + s[i + 1..]
  }

  function Write(blobs: seq<Byte>, off: nat, bytes: seq<Byte>): seq<Byte>
    requires off + |bytes| <= |blobs|
  {
    blobs[..off] + bytes + blobs[off + |bytes|..]
  }

  /** The bytes a reference names; empty when it names none in this arena. */
  function Read(blobs: seq<Byte>, r: BlobRef): seq<Byte>
  {
    if r.off + r.len <= |blobs| then blobs[r.off..r.off + r.len] else []
  }

  /** Every free span lies inside the arena: what `alloc_blob` relies on to write in place. */
  predicate FreeInside(t: Tab)
  {
    forall r :: r in t.free ==> r.off + r.len <= |t.blobs|
  }

  /** The reference `alloc_blob` returns. */
  function AllocRef(t: Tab, bytes: seq<Byte>): BlobRef
  {
    if bytes == [] then BlobRef(0, 0)
    else match FindFree(t.free, |bytes| % U32)
      case Some(i) => t.free[i]
      case None => BlobRef(|t.blobs| % U32, |bytes| % U32)
  }

  /** The table after `alloc_blob` reused the `i`th free span. */
  function Reuse(t: Tab, i: nat, bytes: seq<Byte>): Tab
    requires i < |t.free| && |bytes| == t.free[i].len && t.free[i].off + |bytes| <= |t.blobs|
  {
    var r := t.free[i];
    t.(free := RemoveAt(t.free, i),
       blobs := Write(t.blobs, r.off, bytes),
       patches := if r.off < t.flushed then t.patches + [r] else t.patches,
       undo := if t.undo.Bottom? then Bottom else OnTop(t.undo, t.undo.top.(reused := t.undo.top.reused + [r])))
  }

  function Alloc(t: Tab, bytes: seq<Byte>): Tab
    requires FreeInside(t)
    requires |bytes| < U32
  {
    if bytes == [] then t
    else match FindFree(t.free, |bytes| % U32)
      case Some(i) => Reuse(t, i, bytes)
      case None => t.(blobs := t.blobs + bytes)
  }

  function FreeBlob(t: Tab, r: BlobRef): Tab
  {
    if r.len == 0 then t
    else if t.undo.Push? then t.(undo := OnTop(t.undo, t.undo.top.(freed := t.undo.top.freed + [r])))
    else t.(free := t.free + [r])
  }

  // ----- sessions -----------------------------------------------------------

  function StartSession(t: Tab): Tab
  {
    t.(undo := Push(FreshSession(t), t.undo), revision := t.revision + 1)
  }

  function Truncate(blobs: seq<Byte>, len: nat): seq<Byte>
  {
    if len < |blobs| then blobs[..len] else blobs
  }

  function BelowOffset(refs: seq<BlobRef>, bound: nat): seq<BlobRef>
  {
    if refs == [] then []
    else
      var rest := BelowOffset(refs[..|refs| - 1], bound);
      if refs[|refs| - 1].off < bound then rest + [refs[|refs| - 1]] else rest
  }

  /**
    `order` lists the restored ids as `undo` re-inserts them. The maps it walks
    are hashed, so the order inside each group is not determined: first the rows
    that were only modified, then the rows that were removed.
   */
  predicate RestoreOrder(s: Session, order: seq<int>)
  {
    && (set id | id in order) == s.modified.Keys + s.removed.Keys
    && forall i, j :: 0 <= i < j < |order| ==> order[i] != order[j] && (order[i] in s.removed ==> order[j] in s.removed)
  }

  function UndoSession(t: Tab, order: seq<int>): Tab
  {
    if t.undo.Bottom? then t
    else
      var s := t.undo.top;
      t.(undo := t.undo.below,
         nextId := s.oldNextId,
         rows := Restore(s, t.rows),
         blobs := Truncate(t.blobs, s.oldBlobLen),
         free := t.free + BelowOffset(s.reused, s.oldBlobLen),
         dirty := MarkAll(MarkAll(t.dirty, Range(s.oldNextId, t.nextId)), order),
         revision := t.revision - 1)
  }

  function Squash(t: Tab): Tab
  {
    match t.undo
    case Bottom => t
    case Push(s, Bottom) => t.(undo := Bottom, revision := t.revision - 1, free := t.free + s.freed)
    case Push(s, Push(prev, base)) => t.(undo := Push(Merge(prev, s), base), revision := t.revision - 1)
  }

  /** How many of the innermost sessions `commit` keeps. */
  function KeptBy(depth: nat, current: int, revision: int): (keep: nat)
    ensures keep <= depth
  {
    var r := if revision < current then revision else current;
    if r == current then 0
    else if current - r < depth then current - r
    else depth
  }

  /** The spans the sessions outside the innermost `keep` freed, oldest session first. */
  function FreedOutside(st: Stack<Session>, keep: nat): seq<BlobRef>
  {
    match st
    case Bottom => []
    case Push(s, below) =>
      if keep == 0 then FreedOutside(below, 0) + s.freed else FreedOutside(below, keep - 1)
  }

  function Commit(t: Tab, revision: int): Tab
  {
    var keep := KeptBy(Depth(t.undo), t.revision, revision);
    t.(undo := Innermost(t.undo, keep), free := t.free + FreedOutside(t.undo, keep))
  }

  predicate CanSetRevision(t: Tab, revision: int)
  {
    t.undo.Bottom? && t.revision <= revision
  }

  function SetRevision(t: Tab, revision: int): Tab
  {
    if CanSetRevision(t, revision) then t.(revision := revision) else t
  }

  function MarkFlushed(t: Tab): Tab
  {
    t.(dirty := [], patches := [], flushed := |t.blobs|)
  }
}

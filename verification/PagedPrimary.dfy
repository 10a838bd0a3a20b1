/** Sparse, directly indexed row storage in fixed-size pages. */
module PagedPrimary {
  import opened ArenaTypes

  const PAGE_SIZE: nat := 1024

  /** A page of slots and how many of them hold a row. */
  datatype Page = Page(slots: seq<Option<Row>>, live: nat)

  function Occupied(slots: seq<Option<Row>>): nat
  {
    if slots == [] then 0 else (if slots[0].Some? then 1 else 0) + Occupied(slots[1..])
  }

  function EmptySlots(): (s: seq<Option<Row>>)
    ensures |s| == PAGE_SIZE && forall i :: 0 <= i < PAGE_SIZE ==> s[i].None?
  {
    seq(PAGE_SIZE, i => None)
  }

  lemma {:induction false} OccupiedUpdate(s: seq<Option<Row>>, i: nat, v: Option<Row>)
    requires i < |s|
    ensures Occupied(s[i := v]) == Occupied(s) - (if s[i].Some? then 1 else 0) + (if v.Some? then 1 else 0)
  {
    if i == 0 {
      assert s[i := v][1..] == s[1..];
    } else {
      OccupiedUpdate(s[1..], i - 1, v);
      assert s[i := v][1..] == s[1..][i - 1 := v];
    }
  }

  lemma {:induction false} OccupiedZero(s: seq<Option<Row>>)
    ensures Occupied(s) == 0 <==> forall i :: 0 <= i < |s| ==> s[i].None?
  {
    if s != [] {
      OccupiedZero(s[1..]);
      assert forall i :: 1 <= i < |s| ==> s[i] == s[1..][i - 1];
    }
  }

  function At(page: Option<Page>, i: nat): Option<Row>
  {
    if page.Some? && i < |page.value.slots| then page.value.slots[i] else None
  }

  /** The slot of `id`. */
  function Slot(pages: seq<Option<Page>>, id: nat): Option<Row>
  {
    if id / PAGE_SIZE < |pages| then At(pages[id / PAGE_SIZE], id % PAGE_SIZE) else None
  }

  /** A kept page is full-size, counts its rows exactly and is not empty. */
  predicate PageOK(page: Page)
  {
    |page.slots| == PAGE_SIZE && page.live == Occupied(page.slots) && 0 < page.live
  }

  lemma SameSlot(a: nat, b: nat)
    requires a / PAGE_SIZE == b / PAGE_SIZE && a % PAGE_SIZE == b % PAGE_SIZE
    ensures a == b
  {
  }

  /** Replacing the page of `id` by one that differs from it only at `id`. */
  lemma SlotUpdate(pages: seq<Option<Page>>, id: nat, page: Option<Page>, v: Option<Row>, x: nat)
    requires id / PAGE_SIZE < |pages|
    requires forall i: nat :: i < PAGE_SIZE ==>
               At(page, i) == if i == id % PAGE_SIZE then v else At(pages[id / PAGE_SIZE], i)
    ensures Slot(pages[id / PAGE_SIZE := page], x) == if x == id then v else Slot(pages, x)
  {
    if x / PAGE_SIZE == id / PAGE_SIZE && x % PAGE_SIZE == id % PAGE_SIZE {
      SameSlot(x, id);
    }
  }

  /** A page with slot `i` set to `v`, dropped when that leaves it empty. */
  function SetSlot(page: Page, i: nat, v: Option<Row>): (r: Option<Page>)
    requires |page.slots| == PAGE_SIZE && i < PAGE_SIZE
  {
    var slots := page.slots[i := v];
    var live := page.live - (if page.slots[i].Some? then 1 else 0) + (if v.Some? then 1 else 0);
    if live <= 0 then None else Some(Page(slots, live))
  }

  lemma SetSlotOK(page: Page, i: nat, v: Option<Row>)
    requires |page.slots| == PAGE_SIZE && i < PAGE_SIZE && page.live == Occupied(page.slots)
    ensures var r := SetSlot(page, i, v);
            && (r.Some? ==> PageOK(r.value))
            && forall j: nat :: j < PAGE_SIZE ==> At(r, j) == if j == i then v else page.slots[j]
  {
    OccupiedUpdate(page.slots, i, v);
    OccupiedZero(page.slots[i := v]);
    var r := SetSlot(page, i, v);
    forall j: nat | j < PAGE_SIZE ensures At(r, j) == if j == i then v else page.slots[j] {
      assert page.slots[i := v][j] == if j == i then v else page.slots[j];
    }
  }

  lemma SlotExtend(pages: seq<Option<Page>>, extra: nat, x: nat)
    ensures Slot(pages + seq(extra, j => None), x) == Slot(pages, x)
  {
  }

  predicate AllPagesOK(pages: seq<Option<Page>>)
  {
    forall p :: 0 <= p < |pages| && pages[p].Some? ==> PageOK(pages[p].value)
  }

  ghost predicate NothingFrom(pages: seq<Option<Page>>, len: nat)
  {
    forall id: nat :: len <= id ==> Slot(pages, id).None?
  }

  /** The partial map from ids below `len` to rows. */
  ghost function MapOf(pages: seq<Option<Page>>, len: nat): Rows
  {
    map id: int | 0 <= id < len && Slot(pages, id).Some? :: Slot(pages, id).value
  }

  lemma MapOfUpdate(pages: seq<Option<Page>>, pages': seq<Option<Page>>, len: nat, id: nat, v: Option<Row>)
    requires NothingFrom(pages, len) && id < len
    requires forall x: nat :: Slot(pages', x) == if x == id then v else Slot(pages, x)
    ensures NothingFrom(pages', len)
    ensures MapOf(pages', len) == if v.Some? then MapOf(pages, len)[id := v.value] else MapOf(pages, len) - {id}
  {
  }

  lemma UpdatePage(pages: seq<Option<Page>>, len: nat, id: nat, page: Page, v: Option<Row>)
    requires AllPagesOK(pages) && NothingFrom(pages, len) && id < len && id / PAGE_SIZE < |pages|
    requires |page.slots| == PAGE_SIZE && page.live == Occupied(page.slots)
    requires forall i: nat :: i < PAGE_SIZE ==> page.slots[i] == At(pages[id / PAGE_SIZE], i)
    ensures var pages' := pages[id / PAGE_SIZE := SetSlot(page, id % PAGE_SIZE, v)];
            && AllPagesOK(pages') && NothingFrom(pages', len)
            && MapOf(pages', len) == if v.Some? then MapOf(pages, len)[id := v.value] else MapOf(pages, len) - {id}
  {
    var kept := SetSlot(page, id % PAGE_SIZE, v);
    SetSlotOK(page, id % PAGE_SIZE, v);
    var pages' := pages[id / PAGE_SIZE := kept];
    forall x: nat ensures Slot(pages', x) == if x == id then v else Slot(pages, x) {
      SlotUpdate(pages, id, kept, v, x);
    }
    MapOfUpdate(pages, pages', len, id, v);
  }

  lemma ExtendPages(pages: seq<Option<Page>>, len: nat, extra: nat)
    requires AllPagesOK(pages) && NothingFrom(pages, len)
    ensures var pages' := pages + seq(extra, j => None);
            AllPagesOK(pages') && NothingFrom(pages', len) && MapOf(pages', len) == MapOf(pages, len)
  {
    var pages' := pages + seq(extra, j => None);
    forall x: nat ensures Slot(pages', x) == Slot(pages, x) {
      SlotExtend(pages, extra, x);
    }
  }

  lemma PageSize(pages: seq<Option<Page>>, p: nat)
    requires AllPagesOK(pages) && p < |pages|
    ensures pages[p].Some? ==>
            |pages[p].value.slots| == PAGE_SIZE && pages[p].value.live == Occupied(pages[p].value.slots)
  {
  }

  lemma PresentAt(pages: seq<Option<Page>>, len: nat, id: nat, page: Page)
    requires id < len && id / PAGE_SIZE < |pages| && |page.slots| == PAGE_SIZE
    requires forall i: nat :: i < PAGE_SIZE ==> page.slots[i] == At(pages[id / PAGE_SIZE], i)
    ensures id in MapOf(pages, len) <==> page.slots[id % PAGE_SIZE].Some?
  {
    InMap(pages, len, id);
  }

  lemma InMap(pages: seq<Option<Page>>, len: nat, id: nat)
    requires id < len
    ensures id in MapOf(pages, len) <==> Slot(pages, id).Some?
    ensures id in MapOf(pages, len) ==> MapOf(pages, len)[id] == Slot(pages, id).value
  {
  }

  // ----- shrinking ----------------------------------------------------------

  /** How many pages cover `len` ids. */
  function PagesFor(len: nat): (n: nat)
    ensures forall id: nat :: id < len ==> id / PAGE_SIZE < n
    ensures forall id: nat :: id / PAGE_SIZE < n && len <= id ==>
            len % PAGE_SIZE != 0 && id / PAGE_SIZE == len / PAGE_SIZE
  {
    (len + PAGE_SIZE - 1) / PAGE_SIZE
  }

  /** `page'` is `page` without its slots from `first` on. */
  ghost predicate Cleared(page: Option<Page>, page': Option<Page>, first: nat)
  {
    forall i: nat :: i < PAGE_SIZE ==> At(page', i) == if i < first then At(page, i) else None
  }

  lemma ShrinkPages(pages: seq<Option<Page>>, pages': seq<Option<Page>>, len: nat, newLen: nat)
    requires AllPagesOK(pages') && NothingFrom(pages, len) && newLen < len && |pages'| == |pages|
    requires forall p: nat :: p < |pages| && !(p == newLen / PAGE_SIZE && newLen % PAGE_SIZE != 0) ==>
             pages'[p] == pages[p]
    requires newLen % PAGE_SIZE != 0 && newLen / PAGE_SIZE < |pages| ==>
               Cleared(pages[newLen / PAGE_SIZE], pages'[newLen / PAGE_SIZE], newLen % PAGE_SIZE)
    ensures var kept := if PagesFor(newLen) < |pages'| then pages'[..PagesFor(newLen)] else pages';
            && AllPagesOK(kept) && NothingFrom(kept, newLen)
            && MapOf(kept, newLen) == map id | id in MapOf(pages, len) && id < newLen :: MapOf(pages, len)[id]
  {
    var kept := if PagesFor(newLen) < |pages'| then pages'[..PagesFor(newLen)] else pages';
    forall id: nat ensures Slot(kept, id) == if id < newLen then Slot(pages, id) else None {
      SlotShrunk(pages, pages', newLen, id);
    }
  }

  lemma SlotShrunk(pages: seq<Option<Page>>, pages': seq<Option<Page>>, newLen: nat, id: nat)
    requires |pages'| == |pages|
    requires forall p: nat :: p < |pages| && !(p == newLen / PAGE_SIZE && newLen % PAGE_SIZE != 0) ==>
             pages'[p] == pages[p]
    requires newLen % PAGE_SIZE != 0 && newLen / PAGE_SIZE < |pages| ==>
               Cleared(pages[newLen / PAGE_SIZE], pages'[newLen / PAGE_SIZE], newLen % PAGE_SIZE)
    ensures var kept := if PagesFor(newLen) < |pages'| then pages'[..PagesFor(newLen)] else pages';
            Slot(kept, id) == if id < newLen then Slot(pages, id) else None
  {
    if id / PAGE_SIZE == newLen / PAGE_SIZE {
      assert id < newLen <==> id % PAGE_SIZE < newLen % PAGE_SIZE;
    }
  }

  // ----- listing ------------------------------------------------------------

  /** `out` lists the rows of `m` with ids below `bound`, each once, in ascending id order. */
  ghost predicate Enumerates(out: seq<(int, Row)>, m: Rows, bound: int)
  {
    && (forall i :: 0 <= i < |out| ==> out[i].0 in m && out[i].0 < bound && out[i].1 == m[out[i].0])
    && (forall i, j :: 0 <= i < j < |out| ==> out[i].0 < out[j].0)
    && (forall id :: id in m && id < bound ==> exists i :: 0 <= i < |out| && out[i].0 == id)
  }

  lemma EnumeratesNext(out: seq<(int, Row)>, m: Rows, id: int)
    requires Enumerates(out, m, id)
    ensures id in m ==> Enumerates(out + [(id, m[id])], m, id + 1)
    ensures id !in m ==> Enumerates(out, m, id + 1)
  {
    if id in m {
      var out' := out + [(id, m[id])];
      forall x | x in m && x < id + 1 ensures exists i :: 0 <= i < |out'| && out'[i].0 == x {
        if x == id {
          assert out'[|out|].0 == x;
        } else {
          var i :| 0 <= i < |out| && out[i].0 == x;
          assert out'[i].0 == x;
        }
      }
    }
  }

  lemma EnumeratesSkip(out: seq<(int, Row)>, m: Rows, bound: int, next: int)
    requires Enumerates(out, m, bound) && bound <= next && forall id :: bound <= id < next ==> id !in m
    ensures Enumerates(out, m, next)
  {
  }

  lemma SlotInPage(pages: seq<Option<Page>>, p: nat, i: nat)
    requires p < |pages| && i < PAGE_SIZE
    ensures Slot(pages, p * PAGE_SIZE + i) == At(pages[p], i)
  {
  }

  lemma NoneInPage(pages: seq<Option<Page>>, p: nat, id: nat)
    requires p < |pages| && pages[p].None? && p * PAGE_SIZE <= id < (p + 1) * PAGE_SIZE
    ensures Slot(pages, id).None?
  {
    SlotInPage(pages, p, id - p * PAGE_SIZE);
  }

  class Primary {
    var pages: seq<Option<Page>>
    var len: nat
    /** The partial map from ids to rows that the pages hold. */
    ghost var rows: Rows

    ghost predicate Valid()
      reads this
    {
      AllPagesOK(pages) && NothingFrom(pages, len) && rows == MapOf(pages, len)
    }

    constructor ()
      ensures Valid() && rows == map[] && len == 0
    {
      pages := [];
      len := 0;
      rows := map[];
    }

    method Get(id: int) returns (r: Option<Row>)
      requires Valid()
      ensures r == if id in rows then Some(rows[id]) else None
    {
      if id < 0 || len <= id {
        return None;
      }
      var p := id / PAGE_SIZE;
      if |pages| <= p || pages[p].None? {
        return None;
      }
      r := pages[p].value.slots[id % PAGE_SIZE];
    }

    method Insert(id: nat, row: Row) returns (wasAbsent: bool)
      requires Valid() && id < len
      modifies this
      ensures Valid() && len == old(len)
      ensures rows == old(rows)[id := row]
      ensures wasAbsent <==> id !in old(rows)
    {
      hide Occupied, Slot, MapOf, NothingFrom, SetSlot, AllPagesOK, PageOK;
      var p := id / PAGE_SIZE;
      if |pages| <= p {
        ExtendPages(pages, len, p + 1 - |pages|);
        pages := pages + seq(p + 1 - |pages|, j => None);
      }
      PageSize(pages, p);
      OccupiedZero(EmptySlots());
      var page := if pages[p].Some? then pages[p].value else Page(EmptySlots(), 0);
      wasAbsent := page.slots[id % PAGE_SIZE].None?;
      PresentAt(pages, len, id, page);
      UpdatePage(pages, len, id, page, Some(row));
      pages := pages[p := SetSlot(page, id % PAGE_SIZE, Some(row))];
      rows := rows[id := row];
    }

    method Push(row: Row)
      requires Valid()
      modifies this
      ensures Valid() && len == old(len) + 1
      ensures rows == old(rows)[old(len) := row]
    {
      var id := len;
      assert MapOf(pages, len + 1) == MapOf(pages, len);
      len := len + 1;
      var inserted := Insert(id, row);
    }

    method Take(id: int) returns (r: Option<Row>)
      requires Valid()
      modifies this
      ensures Valid() && len == old(len)
      ensures r == if id in old(rows) then Some(old(rows)[id]) else None
      ensures rows == old(rows) - {id}
    {
      if id < 0 || len <= id {
        return None;
      }
      InMap(pages, len, id);
      var p := id / PAGE_SIZE;
      if |pages| <= p || pages[p].None? || pages[p].value.slots[id % PAGE_SIZE].None? {
        return None;
      }
      r := pages[p].value.slots[id % PAGE_SIZE];
      UpdatePage(pages, len, id, pages[p].value, None);
      hide Occupied, Slot, MapOf, NothingFrom, SetSlot;
      pages := pages[p := SetSlot(pages[p].value, id % PAGE_SIZE, None)];
      rows := rows - {id};
    }

    /** Sets the next id; shrinking drops the rows from it on, and the pages that leaves empty. */
    method SetLen(newLen: nat)
      requires Valid()
      modifies this
      ensures Valid() && len == newLen
      ensures rows == map id | id in old(rows) && id < newLen :: old(rows)[id]
    {
      if newLen < len {
        ghost var was := pages;
        var p, first := newLen / PAGE_SIZE, newLen % PAGE_SIZE;
        if first != 0 && p < |pages| && pages[p].Some? {
          var page := ClearFrom(pages[p].value, first);
          pages := pages[p := page];
        }
        ShrinkPages(was, pages, len, newLen);
        if PagesFor(newLen) < |pages| {
          pages := pages[..PagesFor(newLen)];
        }
      } else {
        assert MapOf(pages, newLen) == MapOf(pages, len);
      }
      len := newLen;
      rows := map id | id in rows && id < newLen :: rows[id];
      hide Slot, MapOf, NothingFrom, AllPagesOK;
    }

    static method ClearFrom(page: Page, first: nat) returns (kept: Option<Page>)
      requires PageOK(page) && first <= PAGE_SIZE
      ensures kept.Some? ==> PageOK(kept.value)
      ensures Cleared(Some(page), kept, first)
    {
      var slots, live := page.slots, page.live;
      var i := first;
      while i < PAGE_SIZE
        invariant first <= i <= PAGE_SIZE && |slots| == PAGE_SIZE && live == Occupied(slots)
        invariant forall j: nat :: j < PAGE_SIZE ==> slots[j] == if first <= j < i then None else page.slots[j]
      {
        OccupiedUpdate(slots, i, None);
        if slots[i].Some? {
          live := live - 1;
        }
        slots := slots[i := None];
        i := i + 1;
      }
      OccupiedZero(slots);
      kept := if live == 0 then None else Some(Page(slots, live));
    }

    method ListPage(p: nat, before: seq<(int, Row)>) returns (out: seq<(int, Row)>)
      requires Valid() && p < |pages| && pages[p].Some? && Enumerates(before, rows, p * PAGE_SIZE)
      ensures Enumerates(out, rows, (p + 1) * PAGE_SIZE)
    {
      hide Enumerates, Occupied;
      out := before;
      var slots, i := pages[p].value.slots, 0;
      while i < PAGE_SIZE
        invariant 0 <= i <= PAGE_SIZE
        invariant Enumerates(out, rows, p * PAGE_SIZE + i)
      {
        var id := p * PAGE_SIZE + i;
        SlotInPage(pages, p, i);
        EnumeratesNext(out, rows, id);
        assert id in rows <==> slots[i].Some?;
        if slots[i].Some? {
          out := out + [(id, slots[i].value)];
        }
        i := i + 1;
      }
    }

    /** The rows in id order. */
    method List() returns (out: seq<(int, Row)>)
      requires Valid()
      ensures Enumerates(out, rows, len)
    {
      out := [];
      var p := 0;
      while p < |pages|
        invariant 0 <= p <= |pages|
        invariant Enumerates(out, rows, p * PAGE_SIZE)
      {
        if pages[p].Some? {
          out := ListPage(p, out);
        } else {
          SkipPage(pages, len, p, out);
        }
        p := p + 1;
      }
      assert forall id :: id in rows ==> id / PAGE_SIZE < |pages|;
    }
  }

  lemma SkipPage(pages: seq<Option<Page>>, len: nat, p: nat, out: seq<(int, Row)>)
    requires p < |pages| && pages[p].None? && Enumerates(out, MapOf(pages, len), p * PAGE_SIZE)
    ensures Enumerates(out, MapOf(pages, len), (p + 1) * PAGE_SIZE)
  {
    forall id: nat | p * PAGE_SIZE <= id < (p + 1) * PAGE_SIZE ensures Slot(pages, id).None? {
      NoneInPage(pages, p, id);
    }
    EnumeratesSkip(out, MapOf(pages, len), p * PAGE_SIZE, (p + 1) * PAGE_SIZE);
  }
}

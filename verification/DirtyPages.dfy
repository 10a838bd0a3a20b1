/** The set of dirty ids, as pages of bits. */
module DirtyPages {
  import opened ArenaTypes

  const PAGE_BITS: nat := 1024
  const WORD_BITS: nat := 64
  const WORDS: nat := 16

  /** A 64-bit word, as the set of the positions of its one bits. */
  type Word = set<nat>

  /** A page is kept only while some bit of it is set. */
  predicate PageOK(page: seq<Word>)
  {
    |page| == WORDS && exists w :: 0 <= w < WORDS && page[w] != {}
  }

  predicate InPage(page: Option<seq<Word>>, i: nat)
  {
    page.Some? && i / WORD_BITS < |page.value| && i % WORD_BITS in page.value[i / WORD_BITS]
  }

  predicate Has(pages: seq<Option<seq<Word>>>, id: nat)
  {
    id / PAGE_BITS < |pages| && InPage(pages[id / PAGE_BITS], id % PAGE_BITS)
  }

  function ZeroPage(): (page: seq<Word>)
    ensures |page| == WORDS && forall w :: 0 <= w < WORDS ==> page[w] == {}
  {
    seq(WORDS, w => {})
  }

  /** Changing the word that holds `id` so that only the bit of `id` may change. */
  lemma HasUpdate(pages: seq<Option<seq<Word>>>, id: nat, page: Option<seq<Word>>, present: bool, x: nat)
    requires id / PAGE_BITS < |pages|
    requires forall i: nat :: i < PAGE_BITS ==>
               (InPage(page, i) <==> if i == id % PAGE_BITS then present else InPage(pages[id / PAGE_BITS], i))
    ensures Has(pages[id / PAGE_BITS := page], x) <==> if x == id then present else Has(pages, x)
  {
    if x / PAGE_BITS == id / PAGE_BITS && x % PAGE_BITS == id % PAGE_BITS {
      assert x == id;
    }
  }

  lemma WordUpdate(page: seq<Word>, i: nat, w: Word, present: bool, x: nat)
    requires |page| == WORDS && i < PAGE_BITS && x < PAGE_BITS
    requires w == if present then page[i / WORD_BITS] + {i % WORD_BITS} else page[i / WORD_BITS] - {i % WORD_BITS}
    ensures InPage(Some(page[i / WORD_BITS := w]), x) <==> if x == i then present else InPage(Some(page), x)
  {
    if x / WORD_BITS == i / WORD_BITS && x % WORD_BITS == i % WORD_BITS {
      assert x == i;
    }
  }

  /** `ids` is the set of ids whose bits are set. */
  ghost predicate Holds(pages: seq<Option<seq<Word>>>, ids: set<int>)
  {
    (forall id: nat :: Has(pages, id) <==> id in ids) && (forall id :: id in ids ==> 0 <= id)
  }

  class DirtySet {
    var pages: seq<Option<seq<Word>>>
    ghost var ids: set<int>

    ghost predicate Valid()
      reads this
    {
      && (forall p :: 0 <= p < |pages| && pages[p].Some? ==> PageOK(pages[p].value))
      && Holds(pages, ids)
    }

    constructor ()
      ensures Valid() && ids == {}
    {
      pages := [];
      ids := {};
    }

    /** Adds `id`; true only when it was not there already. */
    method Insert(id: nat) returns (wasAbsent: bool)
      requires Valid()
      modifies this
      ensures Valid() && ids == old(ids) + {id}
      ensures wasAbsent <==> id !in old(ids)
    {
      var p, i := id / PAGE_BITS, id % PAGE_BITS;
      if |pages| <= p {
        ghost var was := pages;
        pages := pages + seq(p + 1 - |pages|, j => None);
        assert forall x: nat :: Has(pages, x) <==> Has(was, x);
      }
      var page := if pages[p].Some? then pages[p].value else ZeroPage();
      var word := page[i / WORD_BITS];
      wasAbsent := i % WORD_BITS !in word;
      var page' := page[i / WORD_BITS := word + {i % WORD_BITS}];
      forall x: nat | x < PAGE_BITS ensures InPage(Some(page'), x) <==> if x == i then true else InPage(pages[p], x) {
        WordUpdate(page, i, word + {i % WORD_BITS}, true, x);
      }
      forall x: nat ensures Has(pages[p := Some(page')], x) <==> if x == id then true else Has(pages, x) {
        HasUpdate(pages, id, Some(page'), true, x);
      }
      assert i % WORD_BITS in page'[i / WORD_BITS];
      assert wasAbsent <==> !Has(pages, id);
      hide InPage;
      pages := pages[p := Some(page')];
      ids := ids + {id};
    }

    /** Removes `id`, and its page when no bit of it is left. */
    method Remove(id: nat)
      requires Valid()
      modifies this
      ensures Valid() && ids == old(ids) - {id}
    {
      var p, i := id / PAGE_BITS, id % PAGE_BITS;
      if |pages| <= p || pages[p].None? {
        return;
      }
      var page := pages[p].value;
      var word := page[i / WORD_BITS] - {i % WORD_BITS};
      var page' := page[i / WORD_BITS := word];
      var zero := AllZero(page');
      var kept := if zero then None else Some(page');
      forall x: nat | x < PAGE_BITS ensures InPage(kept, x) <==> if x == i then false else InPage(pages[p], x) {
        WordUpdate(page, i, word, false, x);
      }
      forall x: nat ensures Has(pages[p := kept], x) <==> if x == id then false else Has(pages, x) {
        HasUpdate(pages, id, kept, false, x);
      }
      hide InPage;
      pages := pages[p := kept];
      ids := ids - {id};
    }

    static method AllZero(page: seq<Word>) returns (zero: bool)
      ensures zero <==> forall w :: 0 <= w < |page| ==> page[w] == {}
    {
      var w := 0;
      while w < |page|
        invariant 0 <= w <= |page|
        invariant forall j :: 0 <= j < w ==> page[j] == {}
      {
        if page[w] != {} {
          return false;
        }
        w := w + 1;
      }
      return true;
    }
  }
}

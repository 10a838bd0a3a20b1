/** Free spans kept as one stack of offsets per length, against the list of releases they came from. */
module FreeList {
  import opened ArenaTypes
  import opened TableSpec

  type Stacks = map<nat, seq<nat>>

  /** The offsets of the free spans of one length, in the order they were released. */
  function OffsetsOf(free: seq<BlobRef>, len: nat): seq<nat>
  {
    if free == [] then []
    else
      var rest := OffsetsOf(free[..|free| - 1], len);
      if free[|free| - 1].len == len then rest + [free[|free| - 1].off] else rest
  }

  function StackOf(stacks: Stacks, len: nat): seq<nat>
  {
    if len in stacks then stacks[len] else []
  }

  ghost predicate Ties(stacks: Stacks, free: seq<BlobRef>)
  {
    forall len: nat :: StackOf(stacks, len) == OffsetsOf(free, len)
  }

  lemma OffsetsOfPush(free: seq<BlobRef>, r: BlobRef, len: nat)
    ensures OffsetsOf(free + [r], len) == if r.len == len then OffsetsOf(free, len) + [r.off] else OffsetsOf(free, len)
  {
    assert (free + [r])[..|free|] == free;
  }

  lemma TiesPush(stacks: Stacks, free: seq<BlobRef>, r: BlobRef)
    requires Ties(stacks, free)
    ensures Ties(stacks[r.len := StackOf(stacks, r.len) + [r.off]], free + [r])
  {
    forall len: nat
      ensures StackOf(stacks[r.len := StackOf(stacks, r.len) + [r.off]], len) == OffsetsOf(free + [r], len)
    {
      OffsetsOfPush(free, r, len);
      assert StackOf(stacks, len) == OffsetsOf(free, len);
    }
  }

  /** The top of a length's stack is the most recently released span of that length. */
  lemma {:induction false} TopIsLatest(free: seq<BlobRef>, len: nat)
    ensures OffsetsOf(free, len) == [] <==> FindFree(free, len).None?
    ensures FindFree(free, len).Some? ==>
              var i, offs := FindFree(free, len).value, OffsetsOf(free, len);
              && free[i] == BlobRef(offs[|offs| - 1], len)
              && OffsetsOf(RemoveAt(free, i), len) == offs[..|offs| - 1]
              && forall other: nat :: other != len ==> OffsetsOf(RemoveAt(free, i), other) == OffsetsOf(free, other)
  {
    if free != [] {
      var init, last := free[..|free| - 1], free[|free| - 1];
      assert free == init + [last];
      if last.len == len {
        assert RemoveAt(free, |free| - 1) == init;
      } else {
        TopIsLatest(init, len);
        if FindFree(init, len).Some? {
          var i := FindFree(init, len).value;
          assert RemoveAt(free, i) == RemoveAt(init, i) + [last];
          OffsetsOfPush(RemoveAt(init, i), last, len);
          forall other: nat | other != len ensures OffsetsOf(RemoveAt(free, i), other) == OffsetsOf(free, other) {
            OffsetsOfPush(RemoveAt(init, i), last, other);
          }
        }
      }
    }
  }

  lemma TiesPop(stacks: Stacks, free: seq<BlobRef>, len: nat)
    requires Ties(stacks, free)
    ensures StackOf(stacks, len) == [] <==> FindFree(free, len).None?
    ensures FindFree(free, len).Some? ==>
              var i, offs := FindFree(free, len).value, StackOf(stacks, len);
              && free[i] == BlobRef(offs[|offs| - 1], len)
              && Ties(stacks[len := offs[..|offs| - 1]], RemoveAt(free, i))
  {
    TopIsLatest(free, len);
    assert StackOf(stacks, len) == OffsetsOf(free, len);
    if FindFree(free, len).Some? {
      var i, offs := FindFree(free, len).value, StackOf(stacks, len);
      forall other: nat
        ensures StackOf(stacks[len := offs[..|offs| - 1]], other) == OffsetsOf(RemoveAt(free, i), other)
      {
        assert StackOf(stacks, other) == OffsetsOf(free, other);
      }
    }
  }
}

/**
  What the checker knows of every block (gfs/gfs_fsck/block_list.c:11-17, 83-215): a type of
  four bits and three flags, in four bitmaps.
 */
module BlockList {
  import opened Bitmap

  // marks above the sixteen block types
  const BAD_BLOCK: bv8 := 16
  const DUP_BLOCK: bv8 := 17
  const EATTR_BLOCK: bv8 := 18

  const BLOCK_FREE: bv8 := 0
  const BLOCK_USED: bv8 := 1
  const META_OTHER: bv8 := 12
  const META_FREE: bv8 := 13

  datatype Query = Query(kind: bv8, bad: bv8, dup: bv8, eattr: bv8)

  const NOTHING := Query(0, 0, 0, 0)

  /** The answer for a block that carries one mark and no other. */
  function Just(mark: bv8): Query
  {
    if mark == BAD_BLOCK then NOTHING.(bad := 1)
    else if mark == DUP_BLOCK then NOTHING.(dup := 1)
    else if mark == EATTR_BLOCK then NOTHING.(eattr := 1)
    else NOTHING.(kind := mark & 15)
  }

  /** Marking adds to what is there. */
  function Both(a: Query, b: Query): Query
  {
    Query(a.kind | b.kind, a.bad | b.bad, a.dup | b.dup, a.eattr | b.eattr)
  }

  lemma BothWithNothing(q: Query)
    ensures Both(NOTHING, q) == q && Both(q, NOTHING) == q
  {
  }

  class Blocks {
    const groups: Bmap
    const bads: Bmap
    const dups: Bmap
    const eattrs: Bmap

    ghost predicate Valid()
      reads this, groups, bads, dups, eattrs
    {
      && groups.Valid() && bads.Valid() && dups.Valid() && eattrs.Valid()
      && groups.chunkSize == 4 && bads.chunkSize == dups.chunkSize == eattrs.chunkSize == 1
      && groups.size == bads.size == dups.size == eattrs.size
      && groups.bytes != bads.bytes && groups.bytes != dups.bytes && groups.bytes != eattrs.bytes
      && bads.bytes != dups.bytes && bads.bytes != eattrs.bytes && dups.bytes != eattrs.bytes
    }

    ghost function Size(): nat
      reads this
    {
      groups.size
    }

    ghost function Repr(): set<object>
      reads this
    {
      {groups.bytes, bads.bytes, dups.bytes, eattrs.bytes}
    }

    /** The map this structure stands for. */
    ghost function At(x: nat): Query
      requires Valid() && x < Size()
      reads this, groups, bads, dups, eattrs, Repr()
    {
      Query(groups.At(x), bads.At(x), dups.At(x), eattrs.At(x))
    }

    constructor (size: nat)
      ensures Valid() && fresh(Repr()) && Size() == size
      ensures forall x :: 0 <= x < size ==> At(x) == NOTHING
    {
      groups := new Bmap(size, 4);
      bads := new Bmap(size, 1);
      dups := new Bmap(size, 1);
      eattrs := new Bmap(size, 1);
    }

    method Mark(x: nat, mark: bv8) returns (status: int)
      requires Valid() && mark <= EATTR_BLOCK
      modifies Repr()
      ensures status == if x < Size() then 0 else -1
      ensures x < Size() ==> At(x) == Both(old(At(x)), Just(mark))
      ensures forall y :: 0 <= y < Size() && y != x ==> At(y) == old(At(y))
    {
      hide Chunk;
      if mark == BAD_BLOCK {
        status := bads.Set(x, 1);
      } else if mark == DUP_BLOCK {
        status := dups.Set(x, 1);
      } else if mark == EATTR_BLOCK {
        status := eattrs.Set(x, 1);
      } else {
        status := groups.Set(x, mark);
      }
    }

    method Clear(x: nat) returns (status: int)
      requires Valid()
      modifies Repr()
      ensures status == if x < Size() then 0 else -1
      ensures x < Size() ==> At(x) == NOTHING
      ensures forall y :: 0 <= y < Size() && y != x ==> At(y) == old(At(y))
    {
      hide Chunk;
      status := dups.Clear(x);
      status := bads.Clear(x);
      status := eattrs.Clear(x);
      status := groups.Clear(x);
    }

    /** A block's answer is then exactly the new mark, and every other block's is what it was. */
    method Set(x: nat, mark: bv8) returns (status: int)
      requires Valid() && mark <= EATTR_BLOCK
      modifies Repr()
      ensures status == if x < Size() then 0 else -1
      ensures x < Size() ==> At(x) == Just(mark)
      ensures forall y :: 0 <= y < Size() && y != x ==> At(y) == old(At(y))
    {
      status := Clear(x);
      if status == 0 {
        status := Mark(x, mark);
        BothWithNothing(Just(mark));
      }
    }

    /** Beyond the end the status is an error and the type reads as free. */
    method Check(x: nat) returns (status: int, q: Query)
      requires Valid()
      ensures status == if x < Size() then 0 else -1
      ensures q == if x < Size() then At(x) else NOTHING
    {
      q := NOTHING;
      var kind, bad, dup, eattr;
      status, kind := groups.Get(x);
      if status != 0 { return; }
      status, bad := bads.Get(x);
      if status != 0 { return; }
      status, dup := dups.Get(x);
      if status != 0 { return; }
      status, eattr := eattrs.Get(x);
      if status != 0 { return; }
      q := Query(kind, bad, dup, eattr);
    }
  }
}

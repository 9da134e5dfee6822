/**
  Allocating a block of a resource group out of the checker's block list
  (gfs/gfs_fsck/fs_bits.c:35-87, 179-223).
 */
module BlockAlloc {
  import opened Basics
  import opened BlockList
  import Bitmap

  // the four states a resource group's bitmap can hold
  const FREE: nat := 0
  const USED: nat := 1
  const FREE_META: nat := 2
  const USED_META: nat := 3

  /** Whether a block type counts as a state; type 15, invalid metadata, counts as none. */
  predicate InState(state: nat, kind: bv8)
  {
    if state == FREE then kind == BLOCK_FREE
    else if state == USED then kind == BLOCK_USED
    else if state == FREE_META then kind == META_FREE
    else if state == USED_META then (2 <= kind <= 12) || kind == 14
    else false
  }

  /** The type a block has for the search: beyond the block list it reads as free. */
  ghost function KindAt(bl: Blocks, x: nat): bv8
    requires bl.Valid()
    reads bl, bl.groups, bl.bads, bl.dups, bl.eattrs, bl.Repr()
  {
    if x < bl.Size() then bl.At(x).kind else 0
  }

  /** r is the first offset from the goal on whose block is in the state, or there is none. */
  ghost predicate FirstInState(bl: Blocks, goal: nat, start: nat, len: nat, state: nat, r: nat)
    requires bl.Valid()
    reads bl, bl.groups, bl.bads, bl.dups, bl.eattrs, bl.Repr()
  {
    && (r == NO_ENTRY <==> forall x :: start + goal <= x < start + len ==> !InState(state, KindAt(bl, x)))
    && (r != NO_ENTRY ==>
          && goal <= r < len && InState(state, KindAt(bl, start + r))
          && forall x :: start + goal <= x < start + r ==> !InState(state, KindAt(bl, x)))
  }

  method BitFitCore(bl: Blocks, goal: nat, start: nat, len: nat, state: nat) returns (r: nat)
    requires bl.Valid() && len < TWO_32
    ensures FirstInState(bl, goal, start, len, state, r)
  {
    hide InState, Bitmap.Chunk;
    var block := start + goal;
    while block < start + len
      invariant start + goal <= block
      invariant forall x :: start + goal <= x < block ==> !InState(state, KindAt(bl, x))
    {
      label before:
      var _, q := bl.Check(block);
      assert KindAt(bl, block) == q.kind;
      assert forall x :: start + goal <= x < block ==> KindAt(bl, x) == old@before(KindAt(bl, x));
      if InState(state, q.kind) { return block - start; }
      assert !InState(state, KindAt(bl, block));
      block := block + 1;
    }
    return NO_ENTRY;
  }

  // ---------- the goal

  /** The goal relative to the group, by way of a 64-bit difference cut to a signed 32-bit one. */
  function Clamp(goal: nat, start: nat): nat
  {
    var low := ((goal - start) % TWO_64) % TWO_32;
    if low >= 0x8000_0000 then 0 else low
  }

  /** When the goal lies before the group the search should begin at its first block. */
  function Relative(goal: nat, start: nat): nat
  {
    if goal < start then 0 else goal - start
  }

  /** Exactly when the cut does what it is meant to. */
  predicate ClampFits(goal: nat, start: nat)
  {
    if goal < start then (start - goal) % TWO_32 <= 0x8000_0000 else goal - start < 0x8000_0000
  }

  lemma ClampExactly(goal: nat, start: nat)
    requires goal < TWO_32 && start < TWO_64
    ensures Clamp(goal, start) == Relative(goal, start) <==> ClampFits(goal, start)
  {
    if goal < start {
      var d := start - goal;
      assert (goal - start) % TWO_64 == TWO_64 - d;
      LowBits(d);
    }
  }

  lemma LowBits(d: nat)
    requires 0 < d <= TWO_64
    ensures (TWO_64 - d) % TWO_32 == if d % TWO_32 == 0 then 0 else TWO_32 - d % TWO_32
  {
    var q, e := d / TWO_32, d % TWO_32;
    assert d == q * TWO_32 + e;
    if e == 0 {
      assert TWO_64 - d == (TWO_32 - q) * TWO_32;
    } else {
      assert TWO_64 - d == (TWO_32 - q - 1) * TWO_32 + (TWO_32 - e);
    }
  }

  /** With a goal almost 2^32 blocks before the group the search skips the group's first block. */
  lemma ClampMisses()
    ensures Clamp(0, 0xFFFF_FFFF) == 1 && Relative(0, 0xFFFF_FFFF) == 0
  {
  }

  method ClampGoal(goal: nat, start: nat) returns (r: nat)
    requires goal < TWO_32 && start < TWO_64
    ensures r == Clamp(goal, start) && (ClampFits(goal, start) <==> r == Relative(goal, start))
  {
    ClampExactly(goal, start);
    var low := ((goal - start) % TWO_64) % TWO_32;
    r := if low >= 0x8000_0000 then 0 else low;
  }

  // ---------- the allocation

  function MarkFor(state: nat): bv8
  {
    if state == FREE then BLOCK_FREE
    else if state == USED then BLOCK_USED
    else if state == USED_META then META_OTHER
    else META_FREE
  }

  lemma MarkIsInState(state: nat)
    requires state <= 3
    ensures InState(state, Just(MarkFor(state)).kind)
  {
  }

  /** Any state but the four leaves the block alone. */
  method SetState(bl: Blocks, x: nat, state: nat)
    requires bl.Valid()
    modifies bl.Repr()
    ensures x < bl.Size() && state <= 3 ==> bl.At(x) == Just(MarkFor(state)) && InState(state, bl.At(x).kind)
    ensures forall y :: 0 <= y < bl.Size() && (state > 3 || y != x) ==> bl.At(y) == old(bl.At(y))
  {
    if state <= 3 {
      MarkIsInState(state);
      hide Just, InState, Bitmap.Chunk;
      var _ := bl.Set(x, MarkFor(state));
    }
  }

  /**
    The first block from the clamped goal on in the old state becomes one of the new state, and
    no other block changes; when there is none, nothing changes.
   */
  method BlkAlloc(bl: Blocks, goal: nat, start: nat, len: nat, oldState: nat, newState: nat) returns (r: nat)
    requires bl.Valid() && goal < TWO_32 && len < TWO_32 && start + TWO_32 <= TWO_64
    modifies bl.Repr()
    ensures old(FirstInState(bl, Clamp(goal, start), start, len, oldState, r))
    ensures ClampFits(goal, start) ==> old(FirstInState(bl, Relative(goal, start), start, len, oldState, r))
    ensures r != NO_ENTRY && start + r < bl.Size() && newState <= 3 ==>
              bl.At(start + r) == Just(MarkFor(newState)) && InState(newState, bl.At(start + r).kind)
    ensures forall x :: 0 <= x < bl.Size() && (r == NO_ENTRY || newState > 3 || x != start + r) ==> bl.At(x) == old(bl.At(x))
  {
    hide Clamp, ClampFits, FirstInState, InState, Just, MarkFor;
    var from := ClampGoal(goal, start);
    r := BitFitCore(bl, from, start, len, oldState);
    if r != NO_ENTRY { SetState(bl, start + r, newState); }
  }
}

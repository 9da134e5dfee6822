/**
  The on-disk block bitmap of a resource group: two bits of state per block, four blocks to a
  byte, lowest bits first (gfs/gfs_fsck/fs_bits.c:15-33, 97-165).
 */
module ResourceBits {
  import opened Basics

  const BLOCKS_PER_BYTE: nat := 4

  /** The state of block i of a byte. */
  function Field(b: bv8, i: nat): bv8
    requires i < 4
  {
    match i
    case 0 => b & 3
    case 1 => (b >> 2) & 3
    case 2 => (b >> 4) & 3
    case _ => (b >> 6) & 3
  }

  function Shifted(s: bv8, i: nat): bv8
    requires i < 4
  {
    match i
    case 0 => s
    case 1 => s << 2
    case 2 => s << 4
    case _ => s << 6
  }

  /** The byte after the two in-place updates of a block's state. */
  function Replaced(b: bv8, i: nat, s: bv8): bv8
    requires i < 4
  {
    (b ^ Shifted(Field(b, i), i)) | Shifted(s, i)
  }

  lemma ReplacedField(b: bv8, i: nat, j: nat, s: bv8)
    requires i < 4 && j < 4
    ensures i == j ==> Field(Replaced(b, i, s), j) == s & 3
    ensures j < i || (j > i && s <= 3) ==> Field(Replaced(b, i, s), j) == Field(b, j)
  {
  }

  /** A byte whose low bits all miss holds no block in the wanted state. */
  predicate Skips(b: bv8, state: bv8)
  {
    b & 0x55 == if state & 1 != 0 then 0 else 0x55
  }

  lemma SkipIsSafe(b: bv8, state: bv8, i: nat)
    requires i < 4 && Skips(b, state)
    ensures Field(b, i) != state
  {
  }

  function StateOf(bytes: seq<bv8>, block: nat): bv8
    requires block < 4 * |bytes|
  {
    Field(bytes[block / 4], block % 4)
  }

  // ---------- fs_setbit

  /**
    False when the block lies beyond the buffer, where the program gives up.  A state of more
    than two bits, which no caller passes, spills into the later blocks of the same byte.
   */
  method SetBit(buffer: array<bv8>, block: nat, newState: bv8) returns (ok: bool)
    modifies buffer
    ensures ok <==> block < 4 * buffer.Length
    ensures ok ==> StateOf(buffer[..], block) == newState & 3
    ensures forall k :: 0 <= k < 4 * buffer.Length && k != block && (newState <= 3 || k < block || k / 4 != block / 4)
                        ==> StateOf(buffer[..], k) == StateOf(old(buffer[..]), k)
  {
    var i, bit := block / 4, block % 4;
    if i >= buffer.Length { return false; }
    ghost var was := buffer[..];
    var cur := Field(buffer[i], bit);
    buffer[i] := buffer[i] ^ Shifted(cur, bit);
    buffer[i] := buffer[i] | Shifted(newState, bit);
    ReplacedField(was[i], bit, bit, newState);
    hide Field, Shifted;
    forall k | 0 <= k < 4 * buffer.Length && k != block && (newState <= 3 || k < block || k / 4 != block / 4)
      ensures StateOf(buffer[..], k) == StateOf(was, k)
    {
      if k / 4 == i { ReplacedField(was[i], bit, k % 4, newState); }
    }
    return true;
  }

  // ---------- fs_bitfit

  /** The byte-skipping search finds what a scan of every block from the goal on would find first. */
  method BitFit(buffer: array<bv8>, goal: nat, state: bv8) returns (r: nat)
    requires 4 * buffer.Length < 0x1_0000_0000
    ensures r == NO_ENTRY <==> forall k :: goal <= k < 4 * buffer.Length ==> StateOf(buffer[..], k) != state
    ensures r != NO_ENTRY ==> goal <= r < 4 * buffer.Length && StateOf(buffer[..], r) == state
    ensures r != NO_ENTRY ==> forall k :: goal <= k < r ==> StateOf(buffer[..], k) != state
  {
    var blk, i, bit := goal, goal / 4, (goal % 4) * 2;
    while i < buffer.Length
      invariant 0 <= bit < 8 && bit % 2 == 0 && blk == 4 * i + bit / 2 && goal <= blk
      invariant forall k :: goal <= k < blk && k < 4 * buffer.Length ==> StateOf(buffer[..], k) != state
      decreases 4 * buffer.Length - blk
    {
      if Skips(buffer[i], state) {
        forall k | blk <= k < 4 * (i + 1) ensures StateOf(buffer[..], k) != state {
          SkipIsSafe(buffer[i], state, k % 4);
        }
        blk := blk + (8 - bit) / 2;
        bit := 0;
        i := i + 1;
      } else {
        assert StateOf(buffer[..], blk) == Field(buffer[i], bit / 2);
        if Field(buffer[i], bit / 2) == state { return blk; }
        bit := bit + 2;
        if bit >= 8 {
          bit := 0;
          i := i + 1;
        }
        blk := blk + 1;
      }
    }
    return NO_ENTRY;
  }

  // ---------- fs_bitcount

  /** How many of the first n blocks are in a state. */
  function CountOf(bytes: seq<bv8>, state: bv8, n: nat): nat
    requires n <= 4 * |bytes|
  {
    if n == 0 then 0 else CountOf(bytes, state, n - 1) + (if StateOf(bytes, n - 1) == state then 1 else 0)
  }

  method BitCount(buffer: array<bv8>, state: bv8) returns (count: nat)
    ensures count == CountOf(buffer[..], state, 4 * buffer.Length)
  {
    count := 0;
    var i, bit := 0, 0;
    while i < buffer.Length
      invariant 0 <= i <= buffer.Length && 0 <= bit < 8 && bit % 2 == 0 && (i == buffer.Length ==> bit == 0)
      invariant count == CountOf(buffer[..], state, 4 * i + bit / 2)
      decreases 4 * (buffer.Length - i) - bit / 2
    {
      assert StateOf(buffer[..], 4 * i + bit / 2) == Field(buffer[i], bit / 2);
      if Field(buffer[i], bit / 2) == state { count := count + 1; }
      bit := bit + 2;
      if bit >= 8 {
        bit := 0;
        i := i + 1;
      }
    }
  }

  lemma FieldIsAState(b: bv8, i: nat)
    requires i < 4
    ensures Field(b, i) == 0 || Field(b, i) == 1 || Field(b, i) == 2 || Field(b, i) == 3
  {
  }

  /** The four counts make up the whole bitmap. */
  lemma {:induction false} CountsAddUp(bytes: seq<bv8>, n: nat)
    requires n <= 4 * |bytes|
    ensures CountOf(bytes, 0, n) + CountOf(bytes, 1, n) + CountOf(bytes, 2, n) + CountOf(bytes, 3, n) == n
  {
    if n > 0 {
      CountsAddUp(bytes, n - 1);
      FieldIsAState(bytes[(n - 1) / 4], (n - 1) % 4);
    }
  }

  function One(b: bool): nat
  {
    if b then 1 else 0
  }

  /** Changing one block moves exactly one unit from its old state's count to the new one's. */
  lemma {:induction false} SetMovesOne(was: seq<bv8>, now: seq<bv8>, block: nat, state: bv8, n: nat)
    requires |was| == |now| && block < 4 * |was| && n <= 4 * |was|
    requires forall k :: 0 <= k < 4 * |was| && k != block ==> StateOf(now, k) == StateOf(was, k)
    ensures CountOf(now, state, n) ==
            CountOf(was, state, n) + (if block < n then One(StateOf(now, block) == state) - One(StateOf(was, block) == state) else 0)
  {
    if n > 0 { SetMovesOne(was, now, block, state, n - 1); }
  }
}

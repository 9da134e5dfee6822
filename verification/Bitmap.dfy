/**
  The in-memory bitmaps of the file-system checker (gfs/gfs_fsck/bitmap.c:11-108): a byte array
  holding chunks of one, two, four, six or eight bits.
 */
module Bitmap {

  function Shl(x: bv8, k: nat): bv8
    requires k < 8
  {
    match k
    case 0 => x
    case 1 => x << 1
    case 2 => x << 2
    case 3 => x << 3
    case 4 => x << 4
    case 5 => x << 5
    case 6 => x << 6
    case _ => x << 7
  }

  function Shr(x: bv8, k: nat): bv8
    requires k < 8
  {
    match k
    case 0 => x
    case 1 => x >> 1
    case 2 => x >> 2
    case 3 => x >> 3
    case 4 => x >> 4
    case 5 => x >> 5
    case 6 => x >> 6
    case _ => x >> 7
  }

  /** The sizes that pass the test of bitmap_create; zero passes it too and then divides by zero. */
  predicate ChunkSize(c: nat)
  {
    c == 1 || c == 2 || c == 4 || c == 6 || c == 8
  }

  function Mask(c: nat): bv8
    requires ChunkSize(c)
  {
    match c
    case 1 => 1
    case 2 => 3
    case 4 => 15
    case 6 => 63
    case _ => 255
  }

  /** Chunk i of a byte starts at this bit. */
  function Offset(c: nat, i: nat): (k: nat)
    requires ChunkSize(c) && i < 8 / c
    ensures k < 8 && (c == 1 ==> k == i) && (c == 2 ==> k == 2 * i) && (c == 4 ==> k == 4 * i) && (c >= 6 ==> k == 0)
  {
    i * c
  }

  function Chunk(b: bv8, c: nat, i: nat): bv8
    requires ChunkSize(c) && i < 8 / c
  {
    Shr(b & Shl(Mask(c), Offset(c, i)), Offset(c, i))
  }

  function Added(b: bv8, c: nat, i: nat, v: bv8): bv8
    requires ChunkSize(c) && i < 8 / c
  {
    b | Shl(v & Mask(c), Offset(c, i))
  }

  function Cleared(b: bv8, c: nat, i: nat): bv8
    requires ChunkSize(c) && i < 8 / c
  {
    b & !Shl(Mask(c), Offset(c, i))
  }

  lemma AddedChunk(b: bv8, c: nat, i: nat, j: nat, v: bv8)
    requires ChunkSize(c) && i < 8 / c && j < 8 / c
    ensures Chunk(Added(b, c, i, v), c, j) == if i == j then Chunk(b, c, j) | (v & Mask(c)) else Chunk(b, c, j)
  {
    hide Offset;
    if c == 1 {
      AddedBit(b, i, j, v);
    } else if c == 2 {
      AddedPair(b, i, j, v);
    } else if c == 4 {
      assert (i == 0 || i == 1) && (j == 0 || j == 1);
    }
  }

  lemma AddedBit(b: bv8, i: nat, j: nat, v: bv8)
    requires i < 8 && j < 8
    ensures Chunk(Added(b, 1, i, v), 1, j) == if i == j then Chunk(b, 1, j) | (v & 1) else Chunk(b, 1, j)
  {
    hide Offset;
  }

  lemma AddedPair(b: bv8, i: nat, j: nat, v: bv8)
    requires i < 4 && j < 4
    ensures Chunk(Added(b, 2, i, v), 2, j) == if i == j then Chunk(b, 2, j) | (v & 3) else Chunk(b, 2, j)
  {
    hide Offset;
    assert i == 0 || i == 1 || i == 2 || i == 3;
    assert j == 0 || j == 1 || j == 2 || j == 3;
  }

  lemma ClearedChunk(b: bv8, c: nat, i: nat, j: nat)
    requires ChunkSize(c) && i < 8 / c && j < 8 / c
    ensures Chunk(Cleared(b, c, i), c, j) == if i == j then 0 else Chunk(b, c, j)
  {
    hide Offset;
    if c == 1 {
      ClearedBit(b, i, j);
    } else if c == 2 {
      assert i == 0 || i == 1 || i == 2 || i == 3;
      assert j == 0 || j == 1 || j == 2 || j == 3;
    } else if c == 4 {
      assert (i == 0 || i == 1) && (j == 0 || j == 1);
    }
  }

  lemma ClearedBit(b: bv8, i: nat, j: nat)
    requires i < 8 && j < 8
    ensures Chunk(Cleared(b, 1, i), 1, j) == if i == j then 0 else Chunk(b, 1, j)
  {
    hide Offset;
  }

  lemma EmptyByte(c: nat, i: nat)
    requires ChunkSize(c) && i < 8 / c
    ensures Chunk(0, c, i) == 0
  {
    hide Offset;
  }

  lemma Slots(c: nat, x: nat, size: nat)
    requires ChunkSize(c) && x < size
    ensures x % (8 / c) < 8 / c && x / (8 / c) < size / (8 / c) + 1
  {
  }

  class Bmap {
    const size: nat
    const chunkSize: nat
    const perByte: nat
    const bytes: array<bv8>

    ghost predicate Valid()
      reads this
    {
      ChunkSize(chunkSize) && perByte == 8 / chunkSize && bytes.Length == size / perByte + 1
    }

    /** The chunk of block x. */
    ghost function At(x: nat): bv8
      requires Valid() && x < size
      reads this, bytes
    {
      Slots(chunkSize, x, size);
      Chunk(bytes[x / perByte], chunkSize, x % perByte)
    }

    constructor (size: nat, chunkSize: nat)
      requires ChunkSize(chunkSize)
      ensures Valid() && fresh(bytes) && this.size == size && this.chunkSize == chunkSize
      ensures forall x :: 0 <= x < size ==> At(x) == 0
    {
      this.size, this.chunkSize, perByte := size, chunkSize, 8 / chunkSize;
      bytes := new bv8[size / (8 / chunkSize) + 1](_ => 0);
      new;
      forall x | 0 <= x < size ensures At(x) == 0 {
        Slots(chunkSize, x, size);
        EmptyByte(chunkSize, x % perByte);
      }
    }

    /** bitmap_create: odd sizes above one and sizes above eight are refused; zero dies in a division. */
    static method Create(size: nat, chunkSize: nat) returns (died: bool, status: int, b: Bmap?)
      requires chunkSize < 256
      ensures died <==> chunkSize == 0
      ensures status == 0 <==> ChunkSize(chunkSize)
      ensures status == 0 ==> b != null && fresh(b) && b.Valid() && fresh(b.bytes) && b.size == size && b.chunkSize == chunkSize
      ensures status == 0 ==> forall x :: 0 <= x < size ==> b.At(x) == 0
    {
      died := false;
      if (chunkSize / 2) * 2 != chunkSize && chunkSize != 1 { return false, -1, null; }
      if chunkSize > 8 { return false, -1, null; }
      if chunkSize == 0 { return true, -1, null; }
      b := new Bmap(size, chunkSize);
      status := 0;
    }

    /** Others keep their chunks when one byte is rewritten in one chunk only. */
    twostate lemma OthersKeep(x: nat)
      requires Valid() && x < size && old(Valid())
      requires forall i :: 0 <= i < bytes.Length && i != x / perByte ==> bytes[i] == old(bytes[i])
      requires x / perByte < bytes.Length
      requires forall j :: 0 <= j < perByte && j != x % perByte ==>
                 Chunk(bytes[x / perByte], chunkSize, j) == Chunk(old(bytes[x / perByte]), chunkSize, j)
      ensures forall y :: 0 <= y < size && y != x ==> At(y) == old(At(y))
    {
      forall y | 0 <= y < size && y != x ensures At(y) == old(At(y)) {
        Slots(chunkSize, y, size);
        if y / perByte == x / perByte { Apart(x, y, perByte); }
      }
    }

    static lemma Apart(x: nat, y: nat, n: nat)
      requires n > 0 && x != y && x / n == y / n
      ensures x % n != y % n
    {
      assert x == n * (x / n) + x % n && y == n * (y / n) + y % n;
    }

    /** A chunk is added to, not replaced. */
    method Set(x: nat, val: bv8) returns (status: int)
      requires Valid()
      modifies bytes
      ensures status == if x < size then 0 else -1
      ensures x < size ==> At(x) == old(At(x)) | (val & Mask(chunkSize))
      ensures forall y :: 0 <= y < size && y != x ==> At(y) == old(At(y))
    {
      if x >= size { return -1; }
      hide Chunk, Added, Mask;
      Slots(chunkSize, x, size);
      var i, j := x / perByte, x % perByte;
      bytes[i] := Added(bytes[i], chunkSize, j, val);
      AddedChunk(old(bytes[i]), chunkSize, j, j, val);
      forall k | 0 <= k < perByte && k != j ensures Chunk(bytes[i], chunkSize, k) == Chunk(old(bytes[i]), chunkSize, k) {
        AddedChunk(old(bytes[i]), chunkSize, j, k, val);
      }
      OthersKeep(x);
      return 0;
    }

    method Get(x: nat) returns (status: int, val: bv8)
      requires Valid()
      ensures status == if x < size then 0 else -1
      ensures val == if x < size then At(x) else 0
    {
      if x >= size { return -1, 0; }
      Slots(chunkSize, x, size);
      return 0, Chunk(bytes[x / perByte], chunkSize, x % perByte);
    }

    method Clear(x: nat) returns (status: int)
      requires Valid()
      modifies bytes
      ensures status == if x < size then 0 else -1
      ensures x < size ==> At(x) == 0
      ensures forall y :: 0 <= y < size && y != x ==> At(y) == old(At(y))
    {
      if x >= size { return -1; }
      hide Chunk, Cleared;
      Slots(chunkSize, x, size);
      var i, j := x / perByte, x % perByte;
      bytes[i] := Cleared(bytes[i], chunkSize, j);
      ClearedChunk(old(bytes[i]), chunkSize, j, j);
      forall k | 0 <= k < perByte && k != j ensures Chunk(bytes[i], chunkSize, k) == Chunk(old(bytes[i]), chunkSize, k) {
        ClearedChunk(old(bytes[i]), chunkSize, j, k);
      }
      OthersKeep(x);
      return 0;
    }
  }
}

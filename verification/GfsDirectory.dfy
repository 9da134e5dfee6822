/**
  Walking the hash table of an extendible-hash directory (gfs/gfs_debug/util.c:84-128):
  the table is read one buffer at a time and each leaf is visited for the run of
  table slots its depth gives it.
 */
module GfsDirectory {
  import opened Basics
  import opened GfsHeights
  import opened GfsTree
  import opened GfsBytes
  import opened GfsMap
  import opened GfsRead
  import opened HashRuns

  function Pow2(k: nat): (r: nat)
    ensures r > 0
  {
    if k == 0 then 1 else 2 * Pow2(k - 1)
  }

  lemma {:induction false} Pow2Splits(a: nat, b: nat)
    ensures Pow2(a + b) == Pow2(a) * Pow2(b)
  {
    if b > 0 { Pow2Splits(a, b - 1); }
  }

  lemma {:induction false} Pow2Grows(a: nat, b: nat)
    requires a <= b
    ensures Pow2(a) <= Pow2(b)
  {
    if a < b { Pow2Grows(a, b - 1); }
  }

  /** A directory file; the buffer is half a block, and the table size is a 32-bit shift. */
  predicate Directory(v: Volume, ip: Inode, depth: nat)
  {
    FileInode(v, ip) && v.bsize % 16 == 0 && depth < 31
  }

  function HashPtrs(v: Volume): nat
  {
    v.bsize / 2 / PTR_SIZE
  }

  /** The pointer in slot i of the hash table. */
  function Slot(v: Volume, ip: Inode, i: nat): nat
    requires FileInode(v, ip) && PTR_SIZE * i + PTR_SIZE <= ip.size
  {
    BigEndian(FileBytes(v, ip, PTR_SIZE * i, PTR_SIZE))
  }

  function Slots(v: Volume, ip: Inode, n: nat): (s: seq<nat>)
    requires FileInode(v, ip) && PTR_SIZE * n <= ip.size
    ensures |s| == n && forall i :: 0 <= i < n ==> s[i] == Slot(v, ip, i)
  {
    if n == 0 then [] else Slots(v, ip, n - 1) + [Slot(v, ip, n - 1)]
  }

  /** The depth a leaf block records, after its metadata header. */
  function LeafDepth(v: Volume, leaf: nat): nat
    requires Mounted(v) && leaf in v.disk
  {
    BigEndian(v.disk[leaf][META_HEADER..META_HEADER + 2])
  }

  /** The slots a leaf claims in a table of the given depth. */
  function Run(v: Volume, depth: nat, leaf: nat): (len: nat)
    requires Mounted(v)
    ensures len > 0
  {
    if leaf in v.disk && LeafDepth(v, leaf) <= depth then Pow2(depth - LeafDepth(v, leaf)) else 1
  }

  function Runs(v: Volume, depth: nat, slots: seq<nat>): (lens: seq<nat>)
    requires Mounted(v)
    ensures |lens| == |slots| && forall i :: 0 <= i < |slots| ==> lens[i] == Run(v, depth, slots[i])
  {
    if slots == [] then [] else Runs(v, depth, slots[..|slots| - 1]) + [Run(v, depth, slots[|slots| - 1])]
  }

  /** No leaf is deeper than its directory: the source shifts by the difference. */
  predicate Shallow(v: Volume, depth: nat, slots: seq<nat>)
    requires Mounted(v)
  {
    forall i :: 0 <= i < |slots| && slots[i] in v.disk ==> LeafDepth(v, slots[i]) <= depth
  }

  // ---------- the buffer

  lemma {:induction false} BytesSlice(v: Volume, ip: Inode, offset: nat, n: nat, a: nat, k: nat)
    requires FileInode(v, ip) && offset + n <= ip.size && a + k <= n
    ensures FileBytes(v, ip, offset, n)[a..a + k] == FileBytes(v, ip, offset + a, k)
    decreases k
  {
    hide FileByte;
    if k > 0 {
      var s, t := FileBytes(v, ip, offset, n), FileBytes(v, ip, offset + a, k - 1);
      BytesSlice(v, ip, offset, n, a, k - 1);
      BytesAt(v, ip, offset, n, a + k - 1);
      assert FileBytes(v, ip, offset + a, k) == t + [s[a + k - 1]];
      assert s[a..a + k] == s[a..a + k - 1] + [s[a + k - 1]];
    }
  }

  lemma {:induction false} BytesAt(v: Volume, ip: Inode, offset: nat, n: nat, i: nat)
    requires FileInode(v, ip) && offset + n <= ip.size && i < n
    ensures FileBytes(v, ip, offset, n)[i] == FileByte(v, ip, offset + i)
  {
    hide FileByte, FileInode;
    if i < n - 1 { BytesAt(v, ip, offset, n - 1, i); }
  }

  /** The buffer holds the part of the table that starts at slot cur. */
  predicate Buffered(v: Volume, ip: Inode, lp: seq<byte>, cur: int)
    requires FileInode(v, ip)
  {
    cur >= 0 ==>
      && |lp| == PTR_SIZE * HashPtrs(v)
      && PTR_SIZE * cur + PTR_SIZE * HashPtrs(v) <= ip.size
      && lp == FileBytes(v, ip, PTR_SIZE * cur, PTR_SIZE * HashPtrs(v))
  }

  lemma NoBuffer(v: Volume, ip: Inode, lp: seq<byte>)
    requires FileInode(v, ip)
    ensures Buffered(v, ip, lp, -1)
  {
  }

  lemma BufferedSlot(v: Volume, ip: Inode, lp: seq<byte>, cur: nat, k: nat)
    requires FileInode(v, ip) && Buffered(v, ip, lp, cur) && k < HashPtrs(v)
    ensures BigEndian(lp[PTR_SIZE * k..PTR_SIZE * k + PTR_SIZE]) == Slot(v, ip, cur + k)
  {
    BytesSlice(v, ip, PTR_SIZE * cur, PTR_SIZE * HashPtrs(v), PTR_SIZE * k, PTR_SIZE);
  }

  lemma BufferStart(index: nat, n: nat, total: nat)
    requires n > 0
    ensures 0 <= index % n < n && index - index % n >= 0
    ensures total % n == 0 && index < total ==> index - index % n + n <= total
  {
    Split(index, n);
    if total % n == 0 && index < total {
      DivModUnique(index / n, n, 0);
      MultiplesApart(index - index % n, total, n);
    }
  }

  /** Read the buffer again unless it already starts where it should. */
  method Load(v: Volume, ip: Inode, lp: array<byte>, cur: int, start: nat) returns (ok: bool)
    requires FileInode(v, ip) && Tables(v) && v.bsize % 16 == 0 && lp.Length == PTR_SIZE * HashPtrs(v)
    requires Buffered(v, ip, lp[..], cur) && start < 0x8000_0000
    modifies lp
    ensures ok ==> Buffered(v, ip, lp[..], start)
    ensures Sound(v, ip) && PTR_SIZE * start + PTR_SIZE * HashPtrs(v) <= ip.size ==> ok
  {
    hide FileBytes, Sound, Tables;
    if cur == start { return true; }
    var size := v.bsize / 2;
    var r := GfsReadi(v, ip, lp, PTR_SIZE * start, size);
    ok := r == size;
    assert lp[..][..size] == lp[..];
  }

  /** The pointer in slot index, read through the buffer; the buffered pointer is the table's. */
  method ReadSlot(v: Volume, ip: Inode, lp: array<byte>, cur: int, index: nat) returns (ok: bool, leaf: nat, cur': int)
    requires FileInode(v, ip) && Tables(v) && v.bsize % 16 == 0 && lp.Length == PTR_SIZE * HashPtrs(v)
    requires Buffered(v, ip, lp[..], cur) && index < 0x8000_0000 && PTR_SIZE * index + PTR_SIZE <= ip.size
    modifies lp
    ensures ok ==> Buffered(v, ip, lp[..], cur') && leaf == Slot(v, ip, index)
    ensures Sound(v, ip) && ip.size % PTR_SIZE == 0 && (ip.size / PTR_SIZE) % HashPtrs(v) == 0 ==> ok
  {
    var n := HashPtrs(v);
    BufferStart(index, n, ip.size / PTR_SIZE);
    var k := index % n;
    leaf, cur' := 0, index - k;
    ok := Load(v, ip, lp, cur, cur');
    if ok {
      BufferedSlot(v, ip, lp[..], cur', k);
      leaf := BigEndian(lp[..][PTR_SIZE * k..PTR_SIZE * k + PTR_SIZE]);
    }
  }

  // ---------- the walk

  /** The table has the size its depth gives, every read succeeds, and its runs are those of extendible hashing. */
  ghost predicate WellFormed(v: Volume, ip: Inode, depth: nat)
    requires Directory(v, ip, depth)
  {
    && Pow2(depth) * PTR_SIZE == ip.size
    && Pow2(depth) % HashPtrs(v) == 0
    && Sound(v, ip)
    && var slots := Slots(v, ip, Pow2(depth));
       && (forall i :: 0 <= i < |slots| ==> slots[i] != 0 && slots[i] in v.disk)
       && Extendible(slots, Runs(v, depth, slots))
  }

  /** What a completed walk shows, whatever the table looks like. */
  ghost predicate Walked(v: Volume, ip: Inode, depth: nat, visits: seq<Visit>, upto: nat)
    requires Directory(v, ip, depth) && Pow2(depth) * PTR_SIZE == ip.size
  {
    var slots := Slots(v, ip, Pow2(depth));
    Tiles(visits, upto) && Genuine(slots, Runs(v, depth, slots), visits)
  }

  /** The leaf in slot index and the run it claims. */
  method NextLeaf(v: Volume, ip: Inode, depth: nat, lp: array<byte>, cur: int, index: nat)
    returns (ok: bool, leaf: nat, len: nat, cur': int)
    requires Directory(v, ip, depth) && Tables(v) && Pow2(depth) * PTR_SIZE == ip.size
    requires Shallow(v, depth, Slots(v, ip, Pow2(depth)))
    requires lp.Length == PTR_SIZE * HashPtrs(v) && Buffered(v, ip, lp[..], cur) && index < Pow2(depth)
    modifies lp
    ensures ok ==> Buffered(v, ip, lp[..], cur')
    ensures ok ==> leaf == Slots(v, ip, Pow2(depth))[index] && leaf != 0 && leaf in v.disk && len == Run(v, depth, leaf)
    ensures WellFormed(v, ip, depth) ==> ok
  {
    hide FileBytes, LeafDepth;
    len := 1;
    Pow2Grows(depth, 30);
    Thirty();
    assert ip.size / PTR_SIZE == Pow2(depth) && ip.size % PTR_SIZE == 0;
    ok, leaf, cur' := ReadSlot(v, ip, lp, cur, index);
    if !ok || leaf == 0 || leaf !in v.disk { return false, leaf, len, cur'; }
    len := Pow2(depth - LeafDepth(v, leaf));
  }

  method ForeachLeaf(v: Volume, ip: Inode, depth: nat) returns (died: bool, visits: seq<Visit>)
    requires Directory(v, ip, depth) && Tables(v)
    requires Pow2(depth) * PTR_SIZE == ip.size ==> Shallow(v, depth, Slots(v, ip, Pow2(depth)))
    ensures !died ==> Pow2(depth) * PTR_SIZE == ip.size && Walked(v, ip, depth, visits, Pow2(depth))
    ensures WellFormed(v, ip, depth) ==> !died && OncePerLeaf(Slots(v, ip, Pow2(depth)), visits)
  {
    hide FileBytes, LeafDepth, Sound, Buffered, Extendible, OncePerLeaf, Tiles, Genuine, Aligned, Shallow, Table;
    visits := [];
    var hsize := Pow2(depth);
    if hsize * PTR_SIZE != ip.size { return true, visits; }
    ghost var slots := Slots(v, ip, hsize);
    ghost var lens := Runs(v, depth, slots);
    var lp := new byte[PTR_SIZE * HashPtrs(v)](_ => 0);
    var cur, index := -1, 0;
    NoBuffer(v, ip, lp[..]);
    NoVisits(slots, lens);
    while index < hsize
      invariant Tiles(visits, index) && Genuine(slots, lens, visits)
      invariant Buffered(v, ip, lp[..], cur)
      invariant WellFormed(v, ip, depth) ==> Aligned(visits, index) && index <= hsize
      decreases hsize - index
    {
      var ok, leaf, len;
      ok, leaf, len, cur := NextLeaf(v, ip, depth, lp, cur, index);
      if !ok { return true, visits; }
      AddVisit(slots, lens, visits, index);
      if WellFormed(v, ip, depth) { NextRun(slots, lens, visits, index); }
      visits := visits + [Visit(index, len, leaf)];
      index := index + len;
    }
    died := index != hsize;
    if WellFormed(v, ip, depth) { AllOnce(slots, lens, visits); }
  }

  lemma Thirty()
    ensures Pow2(30) == 0x4000_0000
  {
    assert Pow2(7) == 128 && Pow2(8) == 256;
    Pow2Splits(8, 7);
    Pow2Splits(15, 15);
  }

  // ---------- which bytes these are

  lemma {:induction false} FileBytesAt(v: Volume, ip: Inode, offset: nat, n: nat, k: nat)
    requires FileInode(v, ip) && offset + n <= ip.size && k < n
    ensures FileBytes(v, ip, offset, n)[k] == FileByte(v, ip, offset + k)
  {
    hide FileByte, FileInode;
    if k < n - 1 { FileBytesAt(v, ip, offset, n - 1, k); }
  }

  /** A slot of the hash table is spelled by eight bytes of the directory file. */
  lemma SlotSpelled(v: Volume, ip: Inode, i: nat, s: seq<byte>)
    requires FileInode(v, ip) && 8 * i + 8 <= ip.size
    requires |s| == 8 && forall k :: 0 <= k < 8 ==> s[k] == FileByte(v, ip, 8 * i + k)
    ensures Spells(s, Slot(v, ip, i))
  {
    hide Spells, BigEndian, FileByte, FileInode, FileBytes;
    forall k | 0 <= k < 8 ensures FileBytes(v, ip, 8 * i, 8)[k] == s[k] { FileBytesAt(v, ip, 8 * i, 8, k); }
    assert FileBytes(v, ip, 8 * i, 8) == s;
    EightSpell(s);
  }

  /** A leaf's depth is the two bytes behind its metadata header. */
  lemma LeafDepthBytes(v: Volume, leaf: nat)
    requires Mounted(v) && leaf in v.disk
    ensures LeafDepth(v, leaf) == (v.disk[leaf][24] as int) * 256 + v.disk[leaf][25] as int
  {
    var s := v.disk[leaf][24..26];
    assert s[..1] == [v.disk[leaf][24]] && s[1] == v.disk[leaf][25];
    assert s[..1][..0] == [];
    assert BigEndian(s[..1]) == v.disk[leaf][24];
  }
}

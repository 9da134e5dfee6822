/**
  Reading a file: readi of gfs_fsck, which maps whole extents and walks along
  them (gfs/gfs_fsck/file.c:17-101), and gfs_readi of gfs_debug, which maps every
  block (gfs/gfs_debug/util.c:250-333).  Both are proved to return the bytes the
  metadata tree gives the file, holes read as zeros, cut at the file's size.
 */
module GfsRead {
  import opened Basics
  import opened GfsHeights
  import opened GfsTree
  import opened GfsMap

  /** Data kept in the dinode itself fits there, the height is one the tables cover, and sizes are signed 64-bit. */
  predicate FileInode(v: Volume, ip: Inode)
  {
    && Mounted(v)
    && ip.height < MaxHeight(v, ip.jdata)
    && ip.size < 0x8000_0000_0000_0000
    && ip.addr != 0
    && (ip.height == 0 ==> ip.size <= v.bsize - DINODE)
  }

  /** Where file data starts in a data block. */
  function Header(jdata: bool): nat
  {
    if jdata then META_HEADER else 0
  }

  /** The content of the file at position i. */
  function FileByte(v: Volume, ip: Inode, i: nat): byte
    requires FileInode(v, ip) && i < ip.size
  {
    if ip.height == 0 then
      if ip.addr in v.disk then v.disk[ip.addr][DINODE + i] else 0
    else
      var unit := Unit(v.bsize, ip.jdata);
      Split(i, unit);
      match MapBlock(v, ip, i / unit)
      case Unreadable => 0
      case At(b) => if b != 0 && b in v.disk then v.disk[b][Header(ip.jdata) + i % unit] else 0
  }

  function FileBytes(v: Volume, ip: Inode, offset: nat, n: nat): (s: seq<byte>)
    requires FileInode(v, ip) && offset + n <= ip.size
    ensures |s| == n
  {
    if n == 0 then [] else FileBytes(v, ip, offset, n - 1) + [FileByte(v, ip, offset + n - 1)]
  }

  /** How much of a request lies within the file. */
  function Available(ip: Inode, offset: nat, size: nat): nat
  {
    if offset >= ip.size then 0 else if offset + size > ip.size then ip.size - offset else size
  }

  /** The block can be mapped, and read if it is not a hole. */
  predicate BlockOk(v: Volume, ip: Inode, lb: nat)
    requires FileInode(v, ip)
  {
    if ip.height == 0 then ip.addr in v.disk
    else var m := MapBlock(v, ip, lb); m.At? && (m.block == 0 || m.block in v.disk)
  }

  /** No pointer the file needs leads off the device. */
  ghost predicate Sound(v: Volume, ip: Inode)
    requires FileInode(v, ip)
  {
    forall lb: nat :: lb * Unit(v.bsize, ip.jdata) < ip.size ==> BlockOk(v, ip, lb)
  }

  // ---------- one block at a time

  /** File position x is byte o of logical block lb. */
  predicate Position(v: Volume, ip: Inode, x: nat, lb: nat, o: nat)
    requires FileInode(v, ip)
  {
    if ip.height == 0 then lb == 0 && o == DINODE + x
    else Header(ip.jdata) <= o < v.bsize && x == lb * Unit(v.bsize, ip.jdata) + (o - Header(ip.jdata))
  }

  /**
    Every file position is one byte of one block, and every byte behind the header of every block is
    one file position: the blocks hold the file without gap or overlap.
   */
  lemma PositionExactly(v: Volume, ip: Inode, x: nat, lb: nat, o: nat)
    requires FileInode(v, ip) && ip.height > 0
    ensures var unit := Unit(v.bsize, ip.jdata);
            Position(v, ip, x, lb, o) <==>
            lb == x / unit && v.bsize - unit <= o && o - (v.bsize - unit) == x % unit
  {
    var unit := Unit(v.bsize, ip.jdata);
    Split(x, unit);
    if Position(v, ip, x, lb, o) { DivModUnique(lb, unit, o - Header(ip.jdata)); }
  }

  /** The bytes the map gives for amount bytes from byte o of block lb. */
  predicate Supplies(v: Volume, ip: Inode, lb: nat, o: nat, amount: nat, data: seq<byte>)
    requires FileInode(v, ip)
  {
    && |data| == amount
    && BlockOk(v, ip, lb)
    && o + amount <= v.bsize
    && var b := if ip.height == 0 then ip.addr else MapBlock(v, ip, lb).block;
       data == if b == 0 then Zeros(amount) else v.disk[b][o..o + amount]
  }

  function Zeros(n: nat): (s: seq<byte>)
    ensures |s| == n && forall i :: 0 <= i < n ==> s[i] == 0
  {
    seq(n, _ => 0)
  }

  lemma ByteAt(v: Volume, ip: Inode, x: nat, lb: nat, o: nat, amount: nat, data: seq<byte>, i: nat)
    requires FileInode(v, ip) && Position(v, ip, x, lb, o) && Supplies(v, ip, lb, o, amount, data)
    requires i < amount && x + amount <= ip.size
    ensures data[i] == FileByte(v, ip, x + i)
  {
    hide MapBlock;
    if ip.height > 0 {
      var unit := Unit(v.bsize, ip.jdata);
      DivModUnique(lb, unit, o - Header(ip.jdata) + i);
      assert x + i == lb * unit + (o - Header(ip.jdata) + i);
    }
  }

  lemma {:induction false} Extends(v: Volume, ip: Inode, offset: nat, copied: nat, data: seq<byte>, k: nat)
    requires FileInode(v, ip) && offset + copied + |data| <= ip.size && k <= |data|
    requires forall i :: 0 <= i < |data| ==> data[i] == FileByte(v, ip, offset + copied + i)
    ensures FileBytes(v, ip, offset, copied + k) == FileBytes(v, ip, offset, copied) + data[..k]
  {
    hide FileByte, FileInode;
    if k > 0 {
      Extends(v, ip, offset, copied, data, k - 1);
      assert data[..k] == data[..k - 1] + [data[k - 1]];
    }
  }

  /** A block's bytes continue the file's bytes. */
  lemma Continues(v: Volume, ip: Inode, offset: nat, copied: nat, lb: nat, o: nat, amount: nat, data: seq<byte>)
    requires FileInode(v, ip) && Position(v, ip, offset + copied, lb, o) && Supplies(v, ip, lb, o, amount, data)
    requires offset + copied + amount <= ip.size
    ensures FileBytes(v, ip, offset, copied + amount) == FileBytes(v, ip, offset, copied) + data
  {
    hide FileByte, FileBytes, Position, MapBlock, BlockOk;
    forall i | 0 <= i < amount ensures data[i] == FileByte(v, ip, offset + copied + i) {
      ByteAt(v, ip, offset + copied, lb, o, amount, data, i);
    }
    Extends(v, ip, offset, copied, data, amount);
    assert data[..amount] == data;
  }

  /** Mapping a block of the file stays within 64 bits. */
  lemma InRange(v: Volume, ip: Inode, x: nat, lb: nat, o: nat)
    requires FileInode(v, ip) && Position(v, ip, x, lb, o) && x < ip.size
    ensures (lb + 1) * Unit(v.bsize, ip.jdata) < TWO_64
    ensures lb * Unit(v.bsize, ip.jdata) < ip.size
  {
    var unit := Unit(v.bsize, ip.jdata);
    assert (lb + 1) * unit == lb * unit + unit;
  }

  /** Where a read starts. */
  lemma StartPosition(v: Volume, ip: Inode, offset: nat)
    requires FileInode(v, ip) && offset < ip.size
    ensures var unit := Unit(v.bsize, ip.jdata);
            var o := offset % unit + (if ip.height == 0 then DINODE else Header(ip.jdata));
            offset / unit >= 0 && offset % unit >= 0 && Position(v, ip, offset, offset / unit, o) && o < v.bsize
  {
    var unit := Unit(v.bsize, ip.jdata);
    Split(offset, unit);
    if ip.height == 0 { DivModUnique(0, unit, offset); }
  }

  /** A chunk that does not finish the read ends its block. */
  lemma NextPosition(v: Volume, ip: Inode, x: nat, lb: nat, o: nat)
    requires FileInode(v, ip) && ip.height > 0 && Position(v, ip, x, lb, o)
    ensures Position(v, ip, x + (v.bsize - o), lb + 1, Header(ip.jdata))
  {
    var unit := Unit(v.bsize, ip.jdata);
    assert (lb + 1) * unit == lb * unit + unit;
  }

  // ---------- buffers

  method CopyTo(buf: array<byte>, at: nat, data: seq<byte>)
    requires at + |data| <= buf.Length
    modifies buf
    ensures buf[..at] == old(buf[..at]) && buf[at..at + |data|] == data
    ensures buf[at + |data|..] == old(buf[at + |data|..])
  {
    forall i | 0 <= i < |data| { buf[at + i] := data[i]; }
  }

  /** The bytes of one chunk: from the block, or zeros for a hole. */
  function Chunk(v: Volume, b: nat, o: nat, amount: nat): (data: seq<byte>)
    requires Mounted(v) && (b == 0 || b in v.disk) && o + amount <= v.bsize
    ensures |data| == amount
  {
    if b == 0 then Zeros(amount) else v.disk[b][o..o + amount]
  }

  function Min(a: nat, b: nat): nat
  {
    if a <= b then a else b
  }

  /** Store a chunk after what has been read so far. */
  method Store(v: Volume, ip: Inode, buf: array<byte>, ghost offset: nat, copied: nat, ghost lb: nat,
               o: nat, amount: nat, b: nat)
    requires FileInode(v, ip) && copied + amount <= buf.Length && offset + copied + amount <= ip.size
    requires buf[..copied] == FileBytes(v, ip, offset, copied)
    requires Position(v, ip, offset + copied, lb, o) && o + amount <= v.bsize && BlockOk(v, ip, lb)
    requires b == if ip.height == 0 then ip.addr else MapBlock(v, ip, lb).block
    modifies buf
    ensures buf[..copied + amount] == FileBytes(v, ip, offset, copied + amount)
    ensures buf[copied + amount..] == old(buf[copied + amount..])
  {
    var data := Chunk(v, b, o, amount);
    Continues(v, ip, offset, copied, lb, o, amount, data);
    CopyTo(buf, copied, data);
    assert buf[..copied + amount] == buf[..copied] + buf[copied..copied + amount];
  }

  // ---------- the state of a read

  /** Of n bytes from offset the first copied are in the buffer; the next is byte o of block lb. */
  ghost predicate Reading(v: Volume, ip: Inode, buf: seq<byte>, was: seq<byte>, offset: nat, n: nat,
                          copied: nat, lb: nat, o: nat)
    requires FileInode(v, ip)
  {
    && copied <= n <= |buf| == |was| && offset + n <= ip.size
    && buf[..copied] == FileBytes(v, ip, offset, copied)
    && buf[n..] == was[n..]
    && (copied < n ==> Position(v, ip, offset + copied, lb, o) && o < v.bsize && (ip.height == 0 ==> copied == 0))
  }

  /** Copy what block b supplies, up to the end of the request or of the block. */
  method Advance(v: Volume, ip: Inode, buf: array<byte>, ghost was: seq<byte>, ghost offset: nat, n: nat,
                 copied: nat, ghost lb: nat, o: nat, b: nat) returns (copied': nat)
    requires FileInode(v, ip) && copied < n && Reading(v, ip, buf[..], was, offset, n, copied, lb, o)
    requires BlockOk(v, ip, lb) && b == if ip.height == 0 then ip.addr else MapBlock(v, ip, lb).block
    modifies buf
    ensures copied < copied' && Reading(v, ip, buf[..], was, offset, n, copied', lb + 1, Header(ip.jdata))
  {
    var amount := Min(n - copied, v.bsize - o);
    ghost var before := buf[..];
    assert buf[..][..copied] == buf[..copied];
    Store(v, ip, buf, offset, copied, lb, o, amount, b);
    Beyond(before, buf[..], copied + amount, n);
    assert buf[..][..copied + amount] == buf[..copied + amount];
    if copied + amount < n {
      Unfinished(v, ip, offset, n, copied, lb, o);
    }
    copied' := copied + amount;
  }

  lemma Unfinished(v: Volume, ip: Inode, offset: nat, n: nat, copied: nat, lb: nat, o: nat)
    requires FileInode(v, ip) && offset + n <= ip.size && copied < n
    requires Position(v, ip, offset + copied, lb, o) && o < v.bsize && (ip.height == 0 ==> copied == 0)
    requires copied + (v.bsize - o) < n
    ensures ip.height > 0 && Position(v, ip, offset + copied + (v.bsize - o), lb + 1, Header(ip.jdata))
  {
    if ip.height > 0 { NextPosition(v, ip, offset + copied, lb, o); }
  }

  lemma Beyond(a: seq<byte>, b: seq<byte>, i: nat, n: nat)
    requires i <= n <= |a| == |b| && a[i..] == b[i..]
    ensures a[n..] == b[n..]
  {
    assert a[n..] == a[i..][n - i..] && b[n..] == b[i..][n - i..];
  }

  /** The request as cut at the end of the file; the sum of offset and size is a 64-bit one. */
  method Cut(ip: Inode, offset: nat, size: nat) returns (n: nat)
    requires offset < ip.size < 0x8000_0000_0000_0000 && size < 0x8000_0000
    ensures n == Available(ip, offset, size)
  {
    n := size;
    if (offset + n) % TWO_64 > ip.size { n := ip.size - offset; }
  }

  method Start(v: Volume, ip: Inode, buf: array<byte>, offset: nat, n: nat) returns (lb: nat, o: nat)
    requires FileInode(v, ip) && offset < ip.size && offset + n <= ip.size && n <= buf.Length
    ensures Reading(v, ip, buf[..], buf[..], offset, n, 0, lb, o)
  {
    var unit := Unit(v.bsize, ip.jdata);
    StartPosition(v, ip, offset);
    lb, o := offset / unit, offset % unit + (if ip.height == 0 then DINODE else Header(ip.jdata));
  }

  // ---------- gfs_debug: map every block

  method GfsReadi(v: Volume, ip: Inode, buf: array<byte>, offset: nat, size: nat) returns (r: int)
    requires FileInode(v, ip) && Tables(v) && offset < TWO_64 && size < 0x8000_0000 && size <= buf.Length
    modifies buf
    ensures -1 <= r <= Available(ip, offset, size)
    ensures r >= 0 && offset < ip.size ==> buf[..][..r] == FileBytes(v, ip, offset, r)
    ensures Sound(v, ip) ==> r == Available(ip, offset, size)
    ensures buf[..][Available(ip, offset, size)..] == old(buf[..])[Available(ip, offset, size)..]
  {
    if offset >= ip.size { return 0; }
    var n := Cut(ip, offset, size);
    if n == 0 { return 0; }
    var lb, o := Start(v, ip, buf, offset, n);
    var copied := 0;
    while copied < n
      invariant Reading(v, ip, buf[..], old(buf[..]), offset, n, copied, lb, o)
      decreases n - copied
    {
      InRange(v, ip, offset + copied, lb, o);
      var error, b := GfsBlockMap(v, ip, lb);
      if error || (b != 0 && b !in v.disk) {
        assert !BlockOk(v, ip, lb);
        return if copied > 0 then copied else -1;
      }
      copied := Advance(v, ip, buf, old(buf[..]), offset, n, copied, lb, o, b);
      lb := lb + 1;
      o := Header(ip.jdata);
    }
    return copied;
  }

  // ---------- gfs_fsck: walk along extents

  /** The extent still in hand covers block lb. */
  predicate InHand(v: Volume, ip: Inode, lb: nat, dblock: nat, extlen: nat)
    requires FileInode(v, ip)
  {
    extlen > 0 ==> ip.height > 0 && dblock != 0 && Extent(v, ip, lb, dblock, extlen)
  }

  /** Take the next block from the extent in hand, mapping a new extent if there is none. */
  method NextOfExtent(v: Volume, ip: Inode, lb: nat, dblock: nat, extlen: nat)
    returns (error: bool, b: nat, dblock': nat, extlen': nat)
    requires FileInode(v, ip) && Tables(v) && InHand(v, ip, lb, dblock, extlen)
    requires (lb + 1) * Unit(v.bsize, ip.jdata) < TWO_64
    ensures error <==> !BlockOk(v, ip, lb)
    ensures !error ==> b == if ip.height == 0 then ip.addr else MapBlock(v, ip, lb).block
    ensures !error ==> InHand(v, ip, lb + 1, dblock', extlen')
  {
    hide MapBlock;
    error, dblock', extlen' := false, dblock, extlen;
    if extlen == 0 {
      error, dblock', extlen' := FsBlockMap(v, ip, lb);
    }
    b := dblock';
    if !error && b != 0 {
      error := b !in v.disk;
      dblock' := dblock' + 1;
      extlen' := extlen' - 1;
    }
  }

  method Readi(v: Volume, ip: Inode, buf: array<byte>, offset: nat, size: nat) returns (r: int)
    requires FileInode(v, ip) && Tables(v) && offset < TWO_64 && size < 0x8000_0000 && size <= buf.Length
    modifies buf
    ensures r == -1 || r == Available(ip, offset, size)
    ensures r >= 0 && offset < ip.size ==> buf[..][..r] == FileBytes(v, ip, offset, r)
    ensures Sound(v, ip) ==> r == Available(ip, offset, size)
    ensures buf[..][Available(ip, offset, size)..] == old(buf[..])[Available(ip, offset, size)..]
  {
    if offset >= ip.size { return 0; }
    var n := Cut(ip, offset, size);
    if n == 0 { return 0; }
    var lb, o := Start(v, ip, buf, offset, n);
    var copied, dblock, extlen := 0, 0, 0;
    while copied < n
      invariant Reading(v, ip, buf[..], old(buf[..]), offset, n, copied, lb, o)
      invariant InHand(v, ip, lb, dblock, extlen)
      decreases n - copied
    {
      InRange(v, ip, offset + copied, lb, o);
      var error, b;
      error, b, dblock, extlen := NextOfExtent(v, ip, lb, dblock, extlen);
      if error { return -1; }
      copied := Advance(v, ip, buf, old(buf[..]), offset, n, copied, lb, o, b);
      lb := lb + 1;
      o := Header(ip.jdata);
    }
    return copied;
  }

  /** On a sound file the two programs read the same bytes, for every offset and size. */
  method ReadBoth(v: Volume, ip: Inode, a: array<byte>, b: array<byte>, offset: nat, size: nat) returns (r: int, s: int)
    requires FileInode(v, ip) && Tables(v) && offset < TWO_64 && size < 0x8000_0000
    requires a != b && size <= a.Length && size <= b.Length && Sound(v, ip)
    modifies a, b
    ensures r == s && 0 <= r <= size && a[..r] == b[..r]
  {
    hide FileBytes, Sound, Tables;
    r := Readi(v, ip, a, offset, size);
    s := GfsReadi(v, ip, b, offset, size);
    assert a[..r] == a[..][..r] && b[..r] == b[..][..r];
  }
}

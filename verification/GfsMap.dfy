/**
  Mapping a logical block, as the two programs do it: gfs_debug block by block
  (gfs/gfs_debug/util.c:130-248), gfs_fsck together with the extent that starts
  there (gfs/gfs_fsck/fs_bmap.c:154-176, 267-519).
 */
module GfsMap {
  import opened Basics
  import opened GfsHeights
  import opened GfsTree
  import opened GfsBytes

  // ---------- the height check

  /** Each entry of a table counts the bytes of the blocks a tree of that height holds. */
  lemma TableBytes(v: Volume, jdata: bool, h: nat)
    requires Mounted(v) && Tables(v) && 1 <= h < MaxHeight(v, jdata)
    ensures Heights(v, jdata)[h] == Unit(v.bsize, jdata) * Blocks(v, h)
  {
    FirstSmall(v.bsize, jdata);
    SizeScales(Unit(v.bsize, jdata), Diptrs(v.bsize), N(v), h);
  }

  lemma TableGrows(v: Volume, jdata: bool, i: nat, h: nat)
    requires Mounted(v) && Tables(v) && i <= h < MaxHeight(v, jdata)
    ensures Heights(v, jdata)[i] <= Heights(v, jdata)[h]
  {
    var first, n := First(v.bsize, jdata), Inptrs(v.bsize);
    if i > 0 {
      SizeGrows(first, n, i, h);
    } else if h > 0 {
      SizeGrows(first, n, 1, h);
      FirstSmall(v.bsize, jdata);
      MulMonotone(488, Unit(v.bsize, jdata), Diptrs(v.bsize), Diptrs(v.bsize));
    }
  }

  method CalcTreeHeight(v: Volume, ip: Inode, size: nat) returns (height: nat)
    requires Mounted(v) && Tables(v)
    ensures var arr, max, s := Heights(v, ip.jdata), MaxHeight(v, ip.jdata), if ip.size > size then ip.size else size;
            && height <= max
            && (height < max ==> arr[height] >= s)
            && forall k :: 0 <= k < height ==> arr[k] < s
  {
    var s := size;
    if ip.size > s { s := ip.size; }
    var arr, max := Heights(v, ip.jdata), MaxHeight(v, ip.jdata);
    height := 0;
    while height < max
      invariant height <= max
      invariant forall k :: 0 <= k < height ==> arr[k] < s
    {
      if arr[height] >= s { break; }
      height := height + 1;
    }
  }

  /** The height check passes exactly when the tree holds both the block and the whole file. */
  lemma HeightCheck(v: Volume, ip: Inode, lb: nat, height: nat)
    requires Mounted(v) && Tables(v) && TreeInode(v, ip)
    requires var arr, max, unit := Heights(v, ip.jdata), MaxHeight(v, ip.jdata), Unit(v.bsize, ip.jdata);
             var s := if ip.size > (lb + 1) * unit then ip.size else (lb + 1) * unit;
             height <= max && (height < max ==> arr[height] >= s) && forall k :: 0 <= k < height ==> arr[k] < s
    ensures ip.height < height <==>
            ip.size > Unit(v.bsize, ip.jdata) * Blocks(v, ip.height) || lb >= Blocks(v, ip.height)
  {
    var unit, blocks := Unit(v.bsize, ip.jdata), Blocks(v, ip.height);
    TableBytes(v, ip.jdata, ip.height);
    if height <= ip.height {
      TableGrows(v, ip.jdata, height, ip.height);
    }
    Exceeds(ip.size, lb, unit, blocks);
  }

  lemma Exceeds(size: nat, lb: nat, unit: nat, blocks: nat)
    requires unit > 0
    ensures (size > unit * blocks || (lb + 1) * unit > unit * blocks) <==> (size > unit * blocks || lb >= blocks)
  {
    if lb >= blocks {
      MulMonotone(unit, unit, blocks + 1, lb + 1);
    } else {
      MulMonotone(unit, unit, lb + 1, blocks);
    }
  }

  // ---------- the metapath

  method FindMetapath(b: nat, n: nat, h: nat) returns (mp: array<nat>)
    requires n > 0 && h <= MAX_META_HEIGHT
    ensures fresh(mp) && mp.Length == MAX_META_HEIGHT && mp[..h] == Path(b, n, h)
  {
    mp := new nat[MAX_META_HEIGHT](_ => 0);
    var block, i := b, h;
    while i > 0
      invariant 0 <= i <= h && block >= 0
      invariant Path(b, n, h) == Path(block, n, i) + mp[i..h]
    {
      Split(block, n);
      ghost var below := mp[i..h];
      mp[i - 1] := block % n;
      assert mp[i - 1..h] == [mp[i - 1]] + below;
      assert Path(block, n, i) + below == Path(block / n, n, i - 1) + ([block % n] + below);
      block := block / n;
      i := i - 1;
    }
    assert mp[0..h] == mp[..h];
  }

  // ---------- walking down

  /** Follow the path from the inode to the block that holds the data pointers. */
  method Descend(v: Volume, ip: Inode, mp: array<nat>) returns (at: Mapping, data: seq<byte>)
    requires Mounted(v) && TreeInode(v, ip)
    requires mp.Length == MAX_META_HEIGHT && InTree(v, mp[..ip.height])
    ensures var q := mp[..ip.height - 1];
            InTree(v, q) && at == Node(v, ip.addr, q)
    ensures at.At? && (ip.height == 1 || at.block != 0) ==> at.block in v.disk && data == v.disk[at.block]
  {
    data := [];
    ghost var p := mp[..ip.height];
    if ip.addr !in v.disk {
      NoRoot(v, ip.addr, mp[..ip.height - 1], p);
      return Unreadable, data;
    }
    var blk := ip.addr;
    data := v.disk[blk];
    var x := 0;
    assert mp[..0] == [];
    while x < ip.height - 1
      invariant 0 <= x <= ip.height - 1
      invariant Prefixed(v, p, mp[..x]) && Node(v, ip.addr, mp[..x]) == At(blk)
      invariant blk in v.disk && data == v.disk[blk] && (x > 0 ==> blk != 0)
    {
      FanoutDigit(v, p, x);
      assert mp[..x + 1][..x] == mp[..x];
      assert Prefixed(v, p, mp[..x + 1]);
      var next := Ptr(v, data, x, mp[x]);
      if next == 0 || next !in v.disk {
        var r := if next == 0 then At(0) else Unreadable;
        StuckBelow(v, ip.addr, mp[..x + 1], mp[..ip.height - 1], p);
        return r, [];
      }
      blk := next;
      data := v.disk[blk];
      x := x + 1;
    }
    at := At(blk);
  }

  /** A prefix of a path in the tree. */
  predicate Prefixed(v: Volume, p: seq<nat>, q: seq<nat>)
    requires Mounted(v)
    ensures Prefixed(v, p, q) && InTree(v, p) ==> InTree(v, q)
  {
    q <= p
  }

  lemma {:induction false} StuckBelow(v: Volume, addr: nat, q: seq<nat>, t: seq<nat>, p: seq<nat>)
    requires Mounted(v) && InTree(v, p) && q <= t <= p && q != []
    requires InTree(v, q) && InTree(v, t)
    requires Node(v, addr, q) == At(0) || Node(v, addr, q) == Unreadable
    ensures Node(v, addr, t) == Node(v, addr, q)
    decreases |t|
  {
    if |t| > |q| {
      var t1 := t[..|t| - 1];
      StuckBelow(v, addr, q, t1, p);
    } else {
      assert t == q;
    }
  }

  lemma {:induction false} NoRoot(v: Volume, addr: nat, t: seq<nat>, p: seq<nat>)
    requires Mounted(v) && InTree(v, p) && t <= p && addr !in v.disk
    ensures InTree(v, t) && Node(v, addr, t) == Unreadable
    decreases |t|
  {
    if t != [] { NoRoot(v, addr, t[..|t| - 1], p); }
  }

  // ---------- the common first half of both functions

  /** What the two block maps find before they look at the data pointer. */
  datatype Found = Failed | Hole | Pointers(mp: seq<nat>, data: seq<byte>)

  /** The metadata block b holds the data pointer of block lb, at the last digit of its path p. */
  predicate Holds(v: Volume, ip: Inode, lb: nat, p: seq<nat>, b: nat)
    requires Mounted(v) && TreeInode(v, ip)
  {
    && ip.size <= Unit(v.bsize, ip.jdata) * Blocks(v, ip.height) && lb < Blocks(v, ip.height)
    && p == Path(lb, N(v), ip.height) && InTree(v, p) && InTree(v, p[..ip.height - 1])
    && Node(v, ip.addr, p[..ip.height - 1]) == At(b)
    && b in v.disk && (ip.height > 1 ==> b != 0)
  }

  lemma HoldsMaps(v: Volume, ip: Inode, lb: nat, p: seq<nat>, b: nat)
    requires Mounted(v) && TreeInode(v, ip) && Holds(v, ip, lb, p, b)
    ensures p[ip.height - 1] < Fanout(v, ip.height - 1)
    ensures MapBlock(v, ip, lb) == At(Ptr(v, v.disk[b], ip.height - 1, p[ip.height - 1]))
  {
    FanoutDigit(v, p, ip.height - 1);
  }

  method Locate(v: Volume, ip: Inode, lb: nat) returns (r: Found, ghost b: nat)
    requires Mounted(v) && Tables(v) && TreeInode(v, ip)
    requires (lb + 1) * Unit(v.bsize, ip.jdata) < TWO_64
    ensures r.Failed? ==> MapBlock(v, ip, lb) == Unreadable
    ensures r.Hole? ==> MapBlock(v, ip, lb) == At(0)
    ensures r.Pointers? ==> Holds(v, ip, lb, r.mp, b) && r.data == v.disk[b]
  {
    var height := CalcTreeHeight(v, ip, (lb + 1) * Unit(v.bsize, ip.jdata));
    HeightCheck(v, ip, lb, height);
    if ip.height < height { return Hole, 0; }
    r, b := FollowPath(v, ip, lb);
  }

  method FollowPath(v: Volume, ip: Inode, lb: nat) returns (r: Found, ghost b: nat)
    requires Mounted(v) && TreeInode(v, ip)
    requires ip.size <= Unit(v.bsize, ip.jdata) * Blocks(v, ip.height) && lb < Blocks(v, ip.height)
    ensures r.Failed? ==> MapBlock(v, ip, lb) == Unreadable
    ensures r.Hole? ==> MapBlock(v, ip, lb) == At(0)
    ensures r.Pointers? ==> Holds(v, ip, lb, r.mp, b) && r.data == v.disk[b]
  {
    MetapathExactly(lb, N(v), ip.height, Fanout(v, 0));
    var mp := FindMetapath(lb, N(v), ip.height);
    var at, data := Descend(v, ip, mp);
    var p := mp[..ip.height];
    assert p[..ip.height - 1] == mp[..ip.height - 1];
    if at.Unreadable? { return Failed, 0; }
    if ip.height > 1 && at.block == 0 { return Hole, 0; }
    return Pointers(p, data), at.block;
  }

  // ---------- gfs_debug

  method GfsBlockMap(v: Volume, ip: Inode, lb: nat) returns (error: bool, dblock: nat)
    requires Mounted(v) && Tables(v) && ip.height < MaxHeight(v, ip.jdata)
    requires (lb + 1) * Unit(v.bsize, ip.jdata) < TWO_64
    ensures ip.height == 0 ==> !error && dblock == if lb == 0 then ip.addr else 0
    ensures ip.height > 0 ==> MapBlock(v, ip, lb) == if error then Unreadable else At(dblock)
    ensures ip.height > 0 && !error && dblock != 0 ==> Spelled(v, ip.addr, Path(lb, N(v), ip.height), dblock)
  {
    hide Spelled;
    if ip.height == 0 { return false, if lb == 0 then ip.addr else 0; }
    var r, b := Locate(v, ip, lb);
    match r
    case Failed => return true, 0;
    case Hole => return false, 0;
    case Pointers(mp, data) =>
      HoldsMaps(v, ip, lb, mp, b);
      dblock := Ptr(v, data, ip.height - 1, mp[ip.height - 1]);
      if dblock != 0 { MapSpelled(v, ip, lb); }
      return false, dblock;
  }

  // ---------- gfs_fsck

  /** A run of logical blocks that lie side by side on disk. */
  predicate Extent(v: Volume, ip: Inode, lb: nat, dblock: nat, extlen: nat)
    requires Mounted(v) && TreeInode(v, ip)
  {
    forall i :: lb <= i < lb + extlen ==> MapBlock(v, ip, i) == At(dblock + (i - lb))
  }

  method FsBlockMap(v: Volume, ip: Inode, lb: nat) returns (error: bool, dblock: nat, extlen: nat)
    requires Mounted(v) && Tables(v) && ip.height < MaxHeight(v, ip.jdata)
    requires (lb + 1) * Unit(v.bsize, ip.jdata) < TWO_64
    ensures ip.height == 0 ==> !error && dblock == ip.addr && extlen == 1
    ensures ip.height > 0 ==> MapBlock(v, ip, lb) == if error then Unreadable else At(dblock)
    ensures ip.height > 0 && !error ==> (extlen == 0 <==> dblock == 0) && Extent(v, ip, lb, dblock, extlen)
  {
    if ip.height == 0 { return false, ip.addr, 1; }
    var r, b := Locate(v, ip, lb);
    match r
    case Failed => return true, 0, 0;
    case Hole => return false, 0, 0;
    case Pointers(mp, data) =>
      HoldsMaps(v, ip, lb, mp, b);
      error, extlen := false, 0;
      dblock := Ptr(v, data, ip.height - 1, mp[ip.height - 1]);
      if dblock != 0 {
        extlen := GrowExtent(v, ip, lb, mp, data, dblock, b);
      }
  }

  /** Lengthen the extent while the next pointer of the same block continues it. */
  method GrowExtent(v: Volume, ip: Inode, lb: nat, mp: seq<nat>, data: seq<byte>, dblock: nat, ghost b: nat)
    returns (extlen: nat)
    requires Mounted(v) && TreeInode(v, ip)
    requires Holds(v, ip, lb, mp, b) && data == v.disk[b]
    requires MapBlock(v, ip, lb) == At(dblock)
    ensures extlen >= 1 && Extent(v, ip, lb, dblock, extlen)
    ensures var next := mp[ip.height - 1] + extlen;
            next == Fanout(v, ip.height - 1) ||
            (next < Fanout(v, ip.height - 1) && Ptr(v, data, ip.height - 1, next) != dblock + extlen)
  {
    hide MapBlock, Node, InTree, BigEndian;
    var end := ip.height - 1;
    var nptrs := Fanout(v, end);
    FanoutDigit(v, mp, end);
    var digit := mp[end] + 1;
    extlen := 1;
    while digit < nptrs
      invariant extlen >= 1 && digit == mp[end] + extlen <= nptrs
      invariant Extent(v, ip, lb, dblock, extlen)
    {
      var next := Ptr(v, data, end, digit);
      if dblock + extlen != next { break; }
      SideBySide(v, ip, lb, mp, b, extlen);
      extlen := extlen + 1;
      digit := digit + 1;
    }
  }

  /** The block k further on in the same metadata block. */
  lemma SideBySide(v: Volume, ip: Inode, lb: nat, p: seq<nat>, b: nat, k: nat)
    requires Mounted(v) && TreeInode(v, ip) && Holds(v, ip, lb, p, b)
    requires p[ip.height - 1] + k < Fanout(v, ip.height - 1)
    ensures MapBlock(v, ip, lb + k) == At(Ptr(v, v.disk[b], ip.height - 1, p[ip.height - 1] + k))
  {
    hide Path, Size, Node, BigEndian, MapBlock;
    var q := Path(lb + k, N(v), ip.height);
    NextBlock(lb, N(v), ip.height, Fanout(v, 0), k);
    assert Holds(v, ip, lb + k, q, b);
    HoldsMaps(v, ip, lb + k, q, b);
  }
}

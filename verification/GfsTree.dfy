/**
  The metadata tree of a GFS inode and the two functions that map a logical block
  through it: gfs_block_map (gfs/gfs_debug/util.c:130-248) and fs_block_map with
  extents (gfs/gfs_fsck/fs_bmap.c:154-176, 267-519, create off).
 */
module GfsTree {
  import opened Basics
  import opened GfsHeights

  type Disk = map<nat, seq<byte>>

  datatype Inode = Inode(addr: nat, size: nat, height: nat, jdata: bool)

  datatype Volume = Volume(bsize: nat, heights: seq<nat>, maxHeight: nat, jheights: seq<nat>, maxJheight: nat, disk: Disk)

  /** Where a logical block lives; address zero is a hole. */
  datatype Mapping = Unreadable | At(block: nat)

  // ---------- volumes

  /** Blocks have one size; up to 128 KiB, one block of pointers covers less than 4 GiB. */
  predicate Mounted(v: Volume)
  {
    && 512 <= v.bsize <= 0x2_0000
    && v.maxHeight <= MAX_META_HEIGHT && v.maxJheight <= MAX_META_HEIGHT
    && forall b :: b in v.disk ==> |v.disk[b]| == v.bsize
  }

  /** The height tables are those verify_gfs builds. */
  predicate Tables(v: Volume)
    requires Mounted(v)
  {
    && Table(v.heights, v.maxHeight, v.bsize, false)
    && Table(v.jheights, v.maxJheight, v.bsize, true)
  }

  function Heights(v: Volume, jdata: bool): seq<nat>
  {
    if jdata then v.jheights else v.heights
  }

  function MaxHeight(v: Volume, jdata: bool): nat
  {
    if jdata then v.maxJheight else v.maxHeight
  }

  function N(v: Volume): (n: nat)
    requires Mounted(v)
    ensures n >= 53
  {
    Inptrs(v.bsize)
  }

  /** Pointers in a metadata block: the dinode has the larger header. */
  function Fanout(v: Volume, level: nat): (f: nat)
    requires Mounted(v)
    ensures 0 < f <= N(v)
  {
    if level > 0 then Inptrs(v.bsize) else Diptrs(v.bsize)
  }

  function Head(level: nat): nat
  {
    if level > 0 then INDIRECT else DINODE
  }

  function BigEndian(s: seq<byte>): nat
  {
    if s == [] then 0 else BigEndian(s[..|s| - 1]) * 256 + s[|s| - 1]
  }

  /** The i-th pointer of a metadata block (lookup_block, metapointer). */
  function Ptr(v: Volume, data: seq<byte>, level: nat, i: nat): nat
    requires Mounted(v) && |data| == v.bsize && i < Fanout(v, level)
  {
    BigEndian(data[Head(level) + PTR_SIZE * i..Head(level) + PTR_SIZE * i + PTR_SIZE])
  }

  // ---------- metapaths

  /** The digits of a logical block, most significant first (find_metapath). */
  function Path(b: nat, n: nat, h: nat): (p: seq<nat>)
    requires n > 0
    ensures |p| == h
    decreases h
  {
    if h == 0 then [] else Path(b / n, n, h - 1) + [b % n]
  }

  function Recombine(p: seq<nat>, n: nat): nat
  {
    if p == [] then 0 else Recombine(p[..|p| - 1], n) * n + p[|p| - 1]
  }

  predicate Digits(p: seq<nat>, n: nat, top: nat)
  {
    forall i :: 0 <= i < |p| ==> p[i] < if i == 0 then top else n
  }

  lemma Split(b: nat, n: nat)
    requires n > 0
    ensures b == (b / n) * n + b % n && 0 <= b % n < n && b / n >= 0
  {
  }

  lemma DivLess(b: nat, m: nat, n: nat)
    requires n > 0 && b < m * n
    ensures b / n < m
  {
    Split(b, n);
    if b / n >= m { MulMonotone(m, b / n, n, n); }
  }

  lemma DivModUnique(q: nat, n: nat, r: nat)
    requires r < n
    ensures (q * n + r) / n == q && (q * n + r) % n == r
  {
    var x := q * n + r;
    Split(x, n);
    var d := x / n - q;
    assert d * n == r - x % n;
    assert d >= 1 ==> d * n >= n;
    assert d <= -1 ==> d * n <= -1 * n;
  }

  /** A logical block the tree can hold is recovered from its digits, and each digit indexes its block. */
  lemma {:induction false} MetapathExactly(b: nat, n: nat, h: nat, top: nat)
    requires h >= 1 && 0 < top <= n && b < Size(top, n, h)
    ensures Recombine(Path(b, n, h), n) == b && Digits(Path(b, n, h), n, top)
    decreases h
  {
    Split(b, n);
    var q, r, p := b / n, b % n, Path(b, n, h);
    assert p == Path(q, n, h - 1) + [r];
    assert p[..h - 1] == Path(q, n, h - 1);
    if h == 1 {
      DivModUnique(0, n, b);
    } else {
      DivLess(b, Size(top, n, h - 1), n);
      MetapathExactly(q, n, h - 1, top);
    }
  }

  /** Conversely only one digit string denotes a block. */
  lemma {:induction false} MetapathUnique(p: seq<nat>, n: nat)
    requires n > 0 && forall i :: 0 <= i < |p| ==> p[i] < n
    ensures Path(Recombine(p, n), n, |p|) == p
  {
    if p != [] {
      var q, d := p[..|p| - 1], p[|p| - 1];
      MetapathUnique(q, n);
      DivModUnique(Recombine(q, n), n, d);
      assert p == q + [d];
    }
  }

  lemma {:induction false} RecombineBound(p: seq<nat>, n: nat, top: nat)
    requires p != [] && Digits(p, n, top)
    ensures Recombine(p, n) < Size(top, n, |p|)
  {
    var q, d := p[..|p| - 1], p[|p| - 1];
    if q != [] {
      RecombineBound(q, n, top);
      StepBound(Recombine(q, n), n, d, Size(top, n, |q|));
    }
  }

  lemma StepBound(a: nat, n: nat, d: nat, m: nat)
    requires a < m && d < n
    ensures a * n + d < m * n
  {
    MulMonotone(a + 1, m, n, n);
    assert (a + 1) * n == a * n + n;
  }

  /** Stepping the last digit steps the block. */
  lemma NextBlock(b: nat, n: nat, h: nat, top: nat, k: nat)
    requires h >= 1 && 0 < top <= n && b < Size(top, n, h)
    requires Path(b, n, h)[h - 1] + k < (if h == 1 then top else n)
    ensures var p, q := Path(b, n, h), Path(b + k, n, h);
            b + k < Size(top, n, h) && Digits(q, n, top) && q[..h - 1] == p[..h - 1] && q[h - 1] == p[h - 1] + k
  {
    hide Path, Size;
    MetapathExactly(b, n, h, top);
    var p := Path(b, n, h);
    var q := p[h - 1 := p[h - 1] + k];
    assert q[..h - 1] == p[..h - 1];
    assert Recombine(q, n) == b + k;
    RecombineBound(q, n, top);
    MetapathUnique(q, n);
  }

  // ---------- the tree

  predicate InTree(v: Volume, p: seq<nat>)
    requires Mounted(v)
  {
    Digits(p, N(v), Fanout(v, 0))
  }

  lemma FanoutDigit(v: Volume, p: seq<nat>, i: nat)
    requires Mounted(v) && InTree(v, p) && i < |p|
    ensures p[i] < Fanout(v, i)
  {
  }

  /** The metadata block reached from the inode along the digits p. */
  function Node(v: Volume, addr: nat, p: seq<nat>): (r: Mapping)
    requires Mounted(v) && InTree(v, p)
    ensures r.At? && r.block != 0 ==> r.block in v.disk || (p == [] && r.block == addr)
    ensures p == [] && r.At? ==> r.block == addr && addr in v.disk
  {
    if p == [] then (if addr in v.disk then At(addr) else Unreadable)
    else
      var q := p[..|p| - 1];
      FanoutDigit(v, p, |p| - 1);
      match Node(v, addr, q)
      case Unreadable => Unreadable
      case At(b) =>
        if b !in v.disk || (q != [] && b == 0) then At(0)
        else
          var next := Ptr(v, v.disk[b], |q|, p[|q|]);
          if next == 0 then At(0) else if next in v.disk then At(next) else Unreadable
  }

  /** The data pointer the tree holds for the digits p. */
  function Entry(v: Volume, addr: nat, p: seq<nat>): Mapping
    requires Mounted(v) && InTree(v, p) && p != []
  {
    var q := p[..|p| - 1];
    FanoutDigit(v, p, |p| - 1);
    match Node(v, addr, q)
    case Unreadable => Unreadable
    case At(b) => if b !in v.disk || (q != [] && b == 0) then At(0) else At(Ptr(v, v.disk[b], |q|, p[|q|]))
  }

  /** Logical blocks a tree of height h can hold. */
  function Blocks(v: Volume, h: nat): nat
    requires Mounted(v) && h >= 1
  {
    Size(Fanout(v, 0), N(v), h)
  }

  /** An inode with a tree the tables cover. */
  predicate TreeInode(v: Volume, ip: Inode)
    requires Mounted(v)
  {
    1 <= ip.height < MaxHeight(v, ip.jdata)
  }

  /** The meaning of a logical block: what lies beyond the tree is a hole. */
  function MapBlock(v: Volume, ip: Inode, lb: nat): Mapping
    requires Mounted(v) && TreeInode(v, ip)
  {
    var unit := Unit(v.bsize, ip.jdata);
    if ip.size > unit * Blocks(v, ip.height) || lb >= Blocks(v, ip.height) then At(0)
    else
      MetapathExactly(lb, N(v), ip.height, Fanout(v, 0));
      Entry(v, ip.addr, Path(lb, N(v), ip.height))
  }

  // ---------- the same meaning, read from the root down

  lemma {:induction false} SizeScales(k: nat, first: nat, n: nat, h: nat)
    requires h >= 1
    ensures Size(k * first, n, h) == k * Size(first, n, h)
  {
    if h > 1 {
      SizeScales(k, first, n, h - 1);
      MulAssoc(k, Size(first, n, h - 1), n);
    }
  }

  lemma MulAssoc(a: nat, b: nat, c: nat)
    ensures a * (b * c) == (a * b) * c
  {
  }

  /** One pointer h levels above the leaves spans span blocks. */
  lemma SpanSplits(top: nat, n: nat, h: nat, lb: nat)
    requires h >= 1 && n > 0 && lb < Size(top, n, h)
    ensures var span := Size(1, n, h);
            && span > 0 && lb / span < top && lb % span < span
            && lb == (lb / span) * span + lb % span
            && (h > 1 ==> span == Size(n, n, h - 1))
  {
    var span := Size(1, n, h);
    SizeGrows(1, n, 1, h);
    SizeScales(top, 1, n, h);
    DivLess(lb, top, span);
    Split(lb, span);
    if h > 1 {
      SizeScales(n, 1, n, h - 1);
    }
  }

  /** Which pointer of a block leads to its lb-th leaf, and which leaf it is below that pointer. */
  function Turn(top: nat, n: nat, h: nat, lb: nat): (r: (nat, nat))
    requires h >= 1 && n > 0 && lb < Size(top, n, h)
    ensures r.0 < top && (h > 1 ==> r.1 < Size(n, n, h - 1))
  {
    SpanSplits(top, n, h, lb);
    (lb / Size(1, n, h), lb % Size(1, n, h))
  }

  /** The lb-th leaf below a block, h levels up. */
  function Leaf(v: Volume, blk: nat, level: nat, h: nat, lb: nat): Mapping
    requires Mounted(v) && h >= 1 && lb < Size(Fanout(v, level), N(v), h)
    decreases h
  {
    var turn := Turn(Fanout(v, level), N(v), h, lb);
    if blk !in v.disk then Unreadable
    else
      var p := Ptr(v, v.disk[blk], level, turn.0);
      if h == 1 || p == 0 then At(p) else Leaf(v, p, level + 1, h - 1, turn.1)
  }

  lemma {:induction false} RecombineTop(r: seq<nat>, n: nat)
    requires r != [] && n > 0 && Digits(r[1..], n, n)
    ensures Recombine(r, n) == r[0] * Size(1, n, |r|) + Recombine(r[1..], n)
    ensures Recombine(r[1..], n) < Size(1, n, |r|)
  {
    if |r| == 1 {
      assert r[..0] == [] && r[1..] == [];
    } else {
      var q, d := r[..|r| - 1], r[|r| - 1];
      var t := r[1..];
      assert q[1..] == t[..|t| - 1] && t[|t| - 1] == d;
      RecombineTop(q, n);
      Distribute(r[0], Size(1, n, |q|), Recombine(q[1..], n), n, d);
      TailBound(t, n);
    }
  }

  lemma TailBound(t: seq<nat>, n: nat)
    requires t != [] && Digits(t, n, n)
    ensures Recombine(t, n) < Size(1, n, |t| + 1)
  {
    RecombineBound(t, n, n);
    SizeScales(n, 1, n, |t|);
  }

  lemma Distribute(a: nat, s: nat, t: nat, n: nat, d: nat)
    ensures (a * s + t) * n + d == a * (s * n) + (t * n + d)
  {
    assert (a * s + t) * n == a * s * n + t * n;
    MulAssoc(a, s, n);
  }

  /** Below a hole, and below an unreadable block, everything is the same. */
  lemma {:induction false} DeadEnd(v: Volume, addr: nat, q: seq<nat>, r: seq<nat>)
    requires Mounted(v) && InTree(v, q + r) && InTree(v, q) && r != [] && q != []
    requires Node(v, addr, q) == At(0) || Node(v, addr, q) == Unreadable
    ensures Entry(v, addr, q + r) == Node(v, addr, q)
    decreases |r|
  {
    if |r| == 1 {
      assert (q + r)[..|q + r| - 1] == q;
    } else {
      var q1 := q + [r[0]];
      assert q1[..|q1| - 1] == q && q1 + r[1..] == q + r;
      assert InTree(v, q1) by { assert forall i :: 0 <= i < |q1| ==> q1[i] == (q + r)[i]; }
      DeadEnd(v, addr, q1, r[1..]);
    }
  }

  lemma {:induction false} LeafFollows(v: Volume, addr: nat, q: seq<nat>, b: nat, r: seq<nat>)
    requires Mounted(v) && InTree(v, q) && InTree(v, q + r) && r != []
    requires Node(v, addr, q) == At(b) && b in v.disk && (q == [] || b != 0)
    requires Recombine(r, N(v)) < Size(Fanout(v, |q|), N(v), |r|)
    ensures Leaf(v, b, |q|, |r|, Recombine(r, N(v))) == Entry(v, addr, q + r)
    decreases |r|
  {
    var n := N(v);
    var lb, span := Recombine(r, n), Size(1, n, |r|);
    assert Digits(r[1..], n, n) by {
      forall i | 0 <= i < |r| - 1 ensures r[1..][i] < n { assert r[1..][i] == (q + r)[|q| + 1 + i]; }
    }
    RecombineTop(r, n);
    DivModUnique(r[0], span, Recombine(r[1..], n));
    FanoutDigit(v, q + r, |q|);
    assert (q + r)[|q|] == r[0];
    if |r| == 1 {
      assert (q + r)[..|q + r| - 1] == q;
    } else {
      LeafDescends(v, addr, q, b, r);
    }
  }

  lemma {:induction false} LeafDescends(v: Volume, addr: nat, q: seq<nat>, b: nat, r: seq<nat>)
    requires Mounted(v) && InTree(v, q) && InTree(v, q + r) && |r| > 1
    requires Node(v, addr, q) == At(b) && b in v.disk && (q == [] || b != 0)
    requires Recombine(r, N(v)) < Size(Fanout(v, |q|), N(v), |r|)
    requires var span := Size(1, N(v), |r|);
             span > 0 && Recombine(r, N(v)) / span == r[0] && Recombine(r, N(v)) % span == Recombine(r[1..], N(v))
    requires r[0] < Fanout(v, |q|)
    ensures Leaf(v, b, |q|, |r|, Recombine(r, N(v))) == Entry(v, addr, q + r)
    decreases |r|, 0
  {
    var q1 := q + [r[0]];
    assert q1[..|q1| - 1] == q && q1 + r[1..] == q + r;
    assert InTree(v, q1) by { assert forall i :: 0 <= i < |q1| ==> q1[i] == (q + r)[i]; }
    var next := Ptr(v, v.disk[b], |q|, r[0]);
    SpanSplits(Fanout(v, |q|), N(v), |r|, Recombine(r, N(v)));
    assert Leaf(v, b, |q|, |r|, Recombine(r, N(v)))
        == if next == 0 then At(0) else Leaf(v, next, |q| + 1, |r| - 1, Recombine(r[1..], N(v)));
    if next == 0 || next !in v.disk {
      DeadEnd(v, addr, q1, r[1..]);
    } else {
      LeafFollows(v, addr, q1, next, r[1..]);
    }
  }

  /** Following the digits of a block reaches the leaf it has in the order of the tree. */
  lemma MapIsLeaf(v: Volume, ip: Inode, lb: nat)
    requires Mounted(v) && TreeInode(v, ip)
    requires ip.size <= Unit(v.bsize, ip.jdata) * Blocks(v, ip.height) && lb < Blocks(v, ip.height)
    ensures MapBlock(v, ip, lb) == Leaf(v, ip.addr, 0, ip.height, lb)
  {
    MetapathExactly(lb, N(v), ip.height, Fanout(v, 0));
    var p := Path(lb, N(v), ip.height);
    if ip.addr in v.disk {
      assert [] + p == p;
      LeafFollows(v, ip.addr, [], ip.addr, p);
    } else {
      UnreadableRoot(v, ip.addr, p);
    }
  }

  lemma {:induction false} UnreadableRoot(v: Volume, addr: nat, p: seq<nat>)
    requires Mounted(v) && InTree(v, p) && p != [] && addr !in v.disk
    ensures Entry(v, addr, p) == Unreadable
  {
    var p1 := p[..1];
    if |p| == 1 {
      assert p[..0] == [];
    } else {
      assert p1[..0] == [] && p1 + p[1..] == p;
      assert Node(v, addr, p1) == Unreadable;
      DeadEnd(v, addr, p1, p[1..]);
    }
  }
}

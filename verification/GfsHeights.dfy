/**
  The geometry of a GFS file system and its height tables
  (gfs/gfs_debug/basic.c:25-101, gfs/gfs_fsck/super.c:110-160).  Sizes are C
  unsigned ints (32 bits) and uint64_t, so every product is taken modulo its width.
 */
module GfsHeights {
  import opened Basics

  const MAX_META_HEIGHT: nat := 10

  const META_HEADER: nat := 24    // sizeof(struct gfs_meta_header)
  const DINODE: nat := 232        // sizeof(struct gfs_dinode)
  const INDIRECT: nat := 88       // sizeof(struct gfs_indirect)
  const PTR_SIZE: nat := 8         // sizeof(uint64_t)

  /** The block sizes verify_block_size accepts: powers of two from 512 that fit an unsigned int. */
  predicate BlockSize(b: nat)
  {
    b in {0x200, 0x400, 0x800, 0x1000, 0x2000, 0x4000, 0x8000, 0x1_0000, 0x2_0000, 0x4_0000, 0x8_0000, 0x10_0000,
          0x20_0000, 0x40_0000, 0x80_0000, 0x100_0000, 0x200_0000, 0x400_0000, 0x800_0000, 0x1000_0000,
          0x2000_0000, 0x4000_0000, 0x8000_0000}
  }

  function Diptrs(bsize: nat): nat
    requires bsize >= 512
  {
    (bsize - DINODE) / PTR_SIZE
  }

  function Inptrs(bsize: nat): nat
    requires bsize >= 512
  {
    (bsize - INDIRECT) / PTR_SIZE
  }

  /** Bytes of file data per block: a journaled data block starts with a metadata header. */
  function Unit(bsize: nat, jdata: bool): nat
    requires bsize >= 512
  {
    if jdata then bsize - META_HEADER else bsize
  }

  /** What a tree of height h >= 1 can hold when one block of pointers holds first. */
  function Size(first: nat, n: nat, h: nat): nat
    requires h >= 1
  {
    if h == 1 then first else Size(first, n, h - 1) * n
  }

  lemma {:induction false} SizeMonotone(f1: nat, n1: nat, f2: nat, n2: nat, h: nat)
    requires h >= 1 && f1 <= f2 && n1 <= n2
    ensures Size(f1, n1, h) <= Size(f2, n2, h)
  {
    if h > 1 {
      SizeMonotone(f1, n1, f2, n2, h - 1);
      MulMonotone(Size(f1, n1, h - 1), Size(f2, n2, h - 1), n1, n2);
    }
  }

  lemma MulMonotone(a: nat, b: nat, c: nat, d: nat)
    requires a <= b && c <= d
    ensures a * c <= b * d
  {
    assert a * c <= b * c;
    assert b * c <= b * d;
  }

  /** Dividing a 64-bit product back recovers the factor exactly when the product did not wrap. */
  lemma DivideBack(a: nat, n: nat)
    requires n > 0
    ensures var space := (a * n) % TWO_64;
            space / n == a && space % n == 0 <==> a * n < TWO_64
  {
    if a * n < TWO_64 {
      MulDivides(a, n);
    } else {
      DivMod((a * n) % TWO_64, n);
    }
  }

  lemma DivMod(x: nat, n: nat)
    requires n > 0
    ensures x == (x / n) * n + x % n
  {
  }

  lemma MulDivides(a: nat, n: nat)
    requires n > 0
    ensures (a * n) / n == a && (a * n) % n == 0
  {
    var q, r := (a * n) / n, (a * n) % n;
    DivMod(a * n, n);
    assert (a - q) * n == r;
    assert a - q >= 1 ==> (a - q) * n >= n;
    assert q - a >= 1 ==> (q - a) * n >= n;
  }

  lemma LimitSmall()
    ensures Size(17080, 53, 10) >= TWO_64
  {
    assert Size(17080, 53, 2) == 905240;
    assert Size(17080, 53, 3) == 47977720;
    assert Size(17080, 53, 4) == 2542819160;
    assert Size(17080, 53, 5) == 134769415480;
    assert Size(17080, 53, 6) == 7142779020440;
    assert Size(17080, 53, 7) == 378567288083320;
    assert Size(17080, 53, 8) == 20064066268415960;
    assert Size(17080, 53, 9) == 1063395512226045880;
  }

  lemma LimitLarge()
    ensures Size(696, 0x4000, 10) >= TWO_64
  {
    assert Size(696, 0x4000, 2) == 0xAE_0000;
    assert Size(696, 0x4000, 3) == 0x2B_8000_0000;
    assert Size(696, 0x4000, 4) == 0xA_E000_0000_0000;
    assert Size(696, 0x4000, 5) >= TWO_64;
    SizeGrows(696, 0x4000, 5, 10);
  }

  lemma {:induction false} SizeGrows(first: nat, n: nat, i: nat, h: nat)
    requires 1 <= i <= h && n >= 1
    ensures Size(first, n, i) <= Size(first, n, h)
    decreases h - i
  {
    if i < h {
      SizeGrows(first, n, i, h - 1);
      MulMonotone(Size(first, n, h - 1), Size(first, n, h - 1), 1, n);
    }
  }

  /** The first entry as stored: a product of two unsigned ints. */
  function First(bsize: nat, jdata: bool): nat
    requires bsize >= 512
  {
    (Unit(bsize, jdata) * Diptrs(bsize)) % TWO_32
  }

  lemma FirstSmall(bsize: nat, jdata: bool)
    requires 512 <= bsize <= 0x2_0000
    ensures First(bsize, jdata) == Unit(bsize, jdata) * Diptrs(bsize) >= 17080
  {
    MulMonotone(488, Unit(bsize, jdata), 35, Diptrs(bsize));
    MulMonotone(Unit(bsize, jdata), 0x2_0000, Diptrs(bsize), 16355);
  }

  lemma Wraps(x: int, k: int, y: nat)
    requires x == k * TWO_32 + y && y < TWO_32
    ensures x % TWO_32 == y
  {
  }

  lemma PlainProduct(s: nat)
    ensures (0x4_0000 * s) * (0x8000 * s - 29) == (2 * (s * s)) * TWO_32 - 0x4_0000 * (29 * s)
  {
    assert (0x4_0000 * s) * (0x8000 * s) == (2 * (s * s)) * TWO_32;
  }

  lemma JournaledProduct(s: nat)
    ensures (0x4_0000 * s - 24) * (0x8000 * s - 29) == (2 * (s * s)) * TWO_32 - 0x80_0000 * s + 696
  {
    PlainProduct(s);
  }

  lemma PlainRest(s: nat)
    requires s in {1, 2, 4, 8, 16, 32, 64, 128, 256, 512, 1024, 2048, 4096, 8192}
    ensures (0 - 29 * s) % 0x4000 >= 1
  {
  }

  /** From 256 KiB blocks on the first entry wraps; what is left of it never vanishes. */
  lemma FirstLarge(bsize: nat, jdata: bool, s: nat)
    requires bsize == 0x4_0000 * s && s in {1, 2, 4, 8, 16, 32, 64, 128, 256, 512, 1024, 2048, 4096, 8192}
    ensures First(bsize, jdata) >= 696
  {
    var p := s * s;
    assert Diptrs(bsize) == 0x8000 * s - 29;
    if jdata {
      JournaledProduct(s);
      var q, r := (0 - s) / 512, (0 - s) % 512;
      Wraps((bsize - 24) * (0x8000 * s - 29), 2 * p + q, 0x80_0000 * r + 696);
    } else {
      PlainProduct(s);
      PlainRest(s);
      var q, r := (0 - 29 * s) / 0x4000, (0 - 29 * s) % 0x4000;
      Wraps(bsize * (0x8000 * s - 29), 2 * p + q, 0x4_0000 * r);
    }
  }

  /** No accepted block size needs more than the ten entries the tables have. */
  lemma TenEntriesSuffice(bsize: nat, jdata: bool)
    requires BlockSize(bsize)
    ensures First(bsize, jdata) > 0 && Inptrs(bsize) >= 53
    ensures Size(First(bsize, jdata), Inptrs(bsize), 10) >= TWO_64
  {
    if bsize >= 0x4_0000 {
      FirstLarge(bsize, jdata, bsize / 0x4_0000);
      LimitLarge();
      SizeMonotone(696, 0x4000, First(bsize, jdata), Inptrs(bsize), 10);
    } else {
      FirstSmall(bsize, jdata);
      LimitSmall();
      SizeMonotone(17080, 53, First(bsize, jdata), Inptrs(bsize), 10);
    }
  }

  /** The entries of a table, all of them: the last height is the last one that fits 64 bits. */
  predicate Table(heights: seq<nat>, max: nat, bsize: nat, jdata: bool)
    requires bsize >= 512
  {
    && 2 <= max <= |heights|
    && heights[0] == bsize - DINODE
    && (forall h :: 1 <= h < max ==> heights[h] == Size(First(bsize, jdata), Inptrs(bsize), h) && heights[h] < TWO_64)
    && Size(First(bsize, jdata), Inptrs(bsize), max) >= TWO_64
  }

  /** The next entry of a table, and whether dividing it back shows that it did not wrap. */
  method NextEntry(prev: nat, n: nat) returns (fits: bool, space: nat)
    requires 0 < n < TWO_32
    ensures fits <==> prev * n < TWO_64
    ensures fits ==> space == prev * n
  {
    space := (prev * n) % TWO_64;
    var d := space / n;
    var m := (space % n) % TWO_32;
    DivideBack(prev, n);
    fits := d == prev && m == 0;
  }

  /** One of the two loops of verify_gfs; it never writes past the table. */
  method BuildHeights(bsize: nat, jdata: bool, heights: array<nat>) returns (max: nat)
    requires BlockSize(bsize) && heights.Length == MAX_META_HEIGHT
    modifies heights
    ensures Table(heights[..], max, bsize, jdata)
  {
    var n, first := Inptrs(bsize), (Unit(bsize, jdata) * Diptrs(bsize)) % TWO_32;
    assert n < TWO_32;
    TenEntriesSuffice(bsize, jdata);
    heights[0], heights[1] := bsize - DINODE, first;
    max := Extend(first, n, heights);
    assert heights[0] == bsize - DINODE;
  }

  method Extend(first: nat, n: nat, heights: array<nat>) returns (max: nat)
    requires 0 < n < TWO_32 && first < TWO_64 && Size(first, n, MAX_META_HEIGHT) >= TWO_64
    requires heights.Length == MAX_META_HEIGHT && heights[1] == first
    modifies heights
    ensures 2 <= max <= MAX_META_HEIGHT && heights[0] == old(heights[0])
    ensures forall h :: 1 <= h < max ==> heights[h] == Size(first, n, h) && heights[h] < TWO_64
    ensures Size(first, n, max) >= TWO_64
  {
    max := 2;
    while true
      invariant 2 <= max <= MAX_META_HEIGHT && heights[0] == old(heights[0])
      invariant forall h :: 1 <= h < max ==> heights[h] == Size(first, n, h) && heights[h] < TWO_64
      decreases MAX_META_HEIGHT - max
    {
      var fits, space := NextEntry(heights[max - 1], n);
      assert Size(first, n, max) == heights[max - 1] * n;
      if !fits { return; }
      heights[max] := space;
      max := max + 1;
    }
  }

  /** The table holds true byte counts exactly when one block of pointers covers less than 4 GiB. */
  lemma TableExactly(heights: seq<nat>, max: nat, bsize: nat, jdata: bool)
    requires BlockSize(bsize) && Table(heights, max, bsize, jdata)
    ensures (forall h :: 1 <= h < max ==> heights[h] == Size(Unit(bsize, jdata) * Diptrs(bsize), Inptrs(bsize), h))
            <==> Unit(bsize, jdata) * Diptrs(bsize) < TWO_32
  {
    assert heights[1] == First(bsize, jdata);
  }

  /** An accepted block size of 256 KiB whose every table is wrong from its first entry on. */
  lemma TableWraps(heights: seq<nat>, max: nat)
    requires Table(heights, max, 0x4_0000, false)
    ensures BlockSize(0x4_0000) && max >= 2
    ensures heights[1] == Unit(0x4_0000, false) * Diptrs(0x4_0000) - TWO_32
  {
  }
}

/**
  What the pointers of a GFS volume are, byte by byte (gfs/gfs_debug/util.c:179-193,
  gfs/gfs_fsck/ondisk.h:609-615): eight bytes, the most significant first, behind the header of
  their metadata block.
 */
module GfsBytes {
  import opened Basics
  import opened GfsHeights
  import opened GfsTree

  function Pow256(w: nat): (p: nat)
    ensures p > 0
  {
    if w == 0 then 1 else 256 * Pow256(w - 1)
  }

  /** The digit of x that weighs 256 to the power w. */
  function Digit(x: nat, w: nat): nat
  {
    x / Pow256(w) % 256
  }

  lemma DivTwice(x: nat, a: nat, b: nat)
    requires a > 0 && b > 0
    ensures a * b > 0 && x / (a * b) == x / a / b
  {
    var q, r := x / a, x % a;
    var q1, r1 := q / b, q % b;
    Split(x, a);
    Split(q, b);
    Regroup(x, a, b, q, r, q1, r1);
    var ab, rest := a * b, r1 * a + r;
    assert x == q1 * ab + rest;
    Below(r1, a, b, r);
    DivModUnique(q1, ab, rest);
  }

  lemma Regroup(x: nat, a: nat, b: nat, q: nat, r: nat, q1: nat, r1: nat)
    requires x == q * a + r && q == q1 * b + r1
    ensures x == q1 * (a * b) + (r1 * a + r)
  {
    assert q * a == (q1 * b + r1) * a == q1 * b * a + r1 * a;
    assert q1 * b * a == q1 * (a * b);
  }

  lemma Below(r1: nat, a: nat, b: nat, r: nat)
    requires r1 < b && r < a
    ensures r1 * a + r < a * b && a * b > 0
  {
    MulMonotone(r1 + 1, b, a, a);
    assert (r1 + 1) * a == r1 * a + a;
  }

  /** A number read from bytes has those bytes as its digits, most significant first, and no others. */
  lemma {:induction false} BigEndianExactly(s: seq<byte>, i: nat)
    requires i < |s|
    ensures Digit(BigEndian(s), |s| - 1 - i) == s[i]
    ensures BigEndian(s) < Pow256(|s|)
  {
    var n := |s| - 1;
    var t, last, x := s[..n], s[n], BigEndian(s);
    var y := BigEndian(t);
    assert x == y * 256 + last;
    DivModUnique(y, 256, last);
    if n > 0 { BigEndianExactly(t, if i < n then i else 0); }
    assert y < Pow256(n);
    if i < n {
      var w := n - 1 - i;
      assert Pow256(w + 1) == 256 * Pow256(w);
      DivTwice(x, 256, Pow256(w));
      assert Digit(x, w + 1) == Digit(y, w);
      assert t[i] == s[i];
    } else {
      assert Pow256(0) == 1;
    }
  }

  /** The number that eight bytes spell. */
  ghost predicate Spells(bytes: seq<byte>, x: nat)
  {
    |bytes| == 8 && x < Pow256(8) && forall k :: 0 <= k < 8 ==> Digit(x, 7 - k) == bytes[k]
  }

  lemma EightSpell(s: seq<byte>)
    requires |s| == 8
    ensures Spells(s, BigEndian(s))
  {
    hide BigEndian, Digit, Pow256;
    forall k | 0 <= k < 8 ensures Digit(BigEndian(s), 7 - k) == s[k] { BigEndianExactly(s, k); }
    BigEndianExactly(s, 0);
  }

  /** A pointer's bytes: the dinode's pointers start at byte 232 of it, an indirect block's at byte 88. */
  lemma PtrBytes(v: Volume, data: seq<byte>, level: nat, i: nat)
    requires Mounted(v) && |data| == v.bsize && i < Fanout(v, level)
    ensures var at := (if level == 0 then 232 else 88) + 8 * i;
            at + 8 <= v.bsize && Spells(data[at..at + 8], Ptr(v, data, level, i))
  {
    hide BigEndian, Spells;
    var at := (if level == 0 then 232 else 88) + 8 * i;
    EightSpell(data[at..at + 8]);
  }

  /** The eight bytes in which a tree holds its pointer for the digits p, if their metadata block can be reached. */
  ghost function PointerBytes(v: Volume, addr: nat, p: seq<nat>): Option<seq<byte>>
    requires Mounted(v) && p != []
  {
    var q, level := p[..|p| - 1], |p| - 1;
    if !InTree(v, p) || !InTree(v, q) || Node(v, addr, q).Unreadable? || Node(v, addr, q).block !in v.disk then None
    else
      FanoutDigit(v, p, level);
      var data, at := v.disk[Node(v, addr, q).block], (if level == 0 then 232 else 88) + 8 * p[level];
      PtrBytes(v, data, level, p[level]);
      Some(data[at..at + 8])
  }

  /** The pointer is spelled by its bytes. */
  ghost predicate Spelled(v: Volume, addr: nat, p: seq<nat>, x: nat)
    requires Mounted(v) && p != []
  {
    PointerBytes(v, addr, p).Some? && Spells(PointerBytes(v, addr, p).value, x)
  }

  /** Each metadata block on the way is spelled in the one before it. */
  lemma NodeSpelled(v: Volume, addr: nat, p: seq<nat>)
    requires Mounted(v) && InTree(v, p) && p != []
    requires var r := Node(v, addr, p); r.At? && r.block != 0
    ensures Spelled(v, addr, p, Node(v, addr, p).block)
  {
    hide Ptr, Spells;
    var q := p[..|p| - 1];
    FanoutDigit(v, p, |p| - 1);
    PtrBytes(v, v.disk[Node(v, addr, q).block], |q|, p[|q|]);
  }

  lemma EntrySpelled(v: Volume, addr: nat, p: seq<nat>)
    requires Mounted(v) && InTree(v, p) && p != []
    requires var r := Entry(v, addr, p); r.At? && r.block != 0
    ensures Spelled(v, addr, p, Entry(v, addr, p).block)
  {
    hide Ptr, Spells, Node;
    var q := p[..|p| - 1];
    FanoutDigit(v, p, |p| - 1);
    PtrBytes(v, v.disk[Node(v, addr, q).block], |q|, p[|q|]);
  }

  /**
    The block a file's tree gives a logical block is a hole, or the number written, most
    significant byte first, at the last digit of its path in the last metadata block of that path.
   */
  lemma MapSpelled(v: Volume, ip: Inode, lb: nat)
    requires Mounted(v) && TreeInode(v, ip) && MapBlock(v, ip, lb).At? && MapBlock(v, ip, lb).block != 0
    ensures Spelled(v, ip.addr, Path(lb, N(v), ip.height), MapBlock(v, ip, lb).block)
  {
    hide Entry, Spelled, Path, Size;
    MetapathExactly(lb, N(v), ip.height, Fanout(v, 0));
    EntrySpelled(v, ip.addr, Path(lb, N(v), ip.height));
  }
}

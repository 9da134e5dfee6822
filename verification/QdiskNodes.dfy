/**
  How a quorum-disk daemon tracks the other nodes (cman/qdisk/main.c:102-422):
  each cycle it reads every node's status block and moves its opinion of each node
  through a machine of six cases.
 */
module QdiskNodes {
  import opened Basics

  // disk_node_state_t; a block may hold any byte
  const S_NONE: nat := 0
  const S_EVICT: nat := 1
  const S_INIT: nat := 2
  const S_RUN: nat := 5
  const S_MASTER: nat := 6

  const MAX_NODES_DISK: nat := 16
  const MASK_BITS: nat := 64      // bits in a memb_mask_t

  /** A status block on the shared disk. */
  datatype Block = Block(nodeid: int, updatenode: int, timestamp: int, state: nat, incarnation: nat,
                         msg: nat, seqno: nat, arg: int)

  /** What we think of a node. */
  datatype Info = Info(incarnation: nat, evil: nat, lastSeen: int, misses: nat, seen: nat, state: nat, block: Block)

  datatype Params = Params(myId: int, tko: nat, tkoUp: nat)

  predicate Running(state: nat)
  {
    state >= S_INIT
  }

  function InitialInfo(x: nat, now: int): Info
  {
    Info(0, 0, now, 0, 0, S_NONE, Block(x + 1, 0, now, S_NONE, 0, 0, 0, 0))
  }

  // ---------- reading the blocks

  /** Another daemon has written our block: it told us to die. */
  predicate Condemned(p: Params, b: Block)
  {
    b.nodeid == p.myId && b.updatenode != 0 && b.updatenode != p.myId
  }

  /** One block read, or an I/O error. */
  function Refresh(p: Params, n: Info, read: Option<Block>): Info
  {
    if read.None? then n
    else
      var b := read.value;
      var n1 := n.(block := b);
      if b.nodeid == p.myId || !Running(b.state) then n1
      else if b.timestamp == n.lastSeen then n1.(misses := n.misses + 1)
      else n1.(misses := 0, seen := n.seen + 1, lastSeen := b.timestamp)
  }

  /** The blocks of the first k that could not be read. */
  function Unread(disk: seq<Option<Block>>, k: nat): nat
    requires k <= |disk|
  {
    if k == 0 then 0 else Unread(disk, k - 1) + (if disk[k - 1].None? then 1 else 0)
  }

  method ReadNodeBlocks(p: Params, ni: array<Info>, disk: seq<Option<Block>>) returns (halted: bool, errors: nat)
    requires ni.Length == |disk|
    modifies ni
    ensures halted <==> exists x :: 0 <= x < |disk| && disk[x].Some? && Condemned(p, disk[x].value)
    ensures !halted ==> errors == Unread(disk, |disk|)
    ensures !halted ==> forall x :: 0 <= x < |disk| ==> ni[x] == Refresh(p, old(ni[x]), disk[x])
  {
    halted, errors := false, 0;
    var x := 0;
    while x < ni.Length
      invariant 0 <= x <= ni.Length && errors == Unread(disk, x)
      invariant forall i :: 0 <= i < x ==> !(disk[i].Some? && Condemned(p, disk[i].value))
      invariant forall i :: 0 <= i < x ==> ni[i] == Refresh(p, old(ni[i]), disk[i])
      invariant forall i :: x <= i < ni.Length ==> ni[i] == old(ni[i])
    {
      if disk[x].None? {
        errors := errors + 1;
      } else {
        var b := disk[x].value;
        ni[x] := ni[x].(block := b);
        if b.nodeid == p.myId {
          if b.updatenode != 0 && b.updatenode != p.myId { return true, errors; }
        } else if Running(b.state) {
          if b.timestamp == ni[x].lastSeen {
            ni[x] := ni[x].(misses := ni[x].misses + 1);
          } else {
            ni[x] := ni[x].(misses := 0, seen := ni[x].seen + 1, lastSeen := b.timestamp);
          }
        }
      }
      x := x + 1;
    }
  }

  // ---------- the six cases

  /** The number of the case that applies: 7 is "believe the block", 0 is none. */
  function Case(p: Params, n: Info): nat
  {
    if (n.state >= S_EVICT && n.block.state <= S_EVICT) ||
       (n.incarnation != 0 && n.incarnation != n.block.incarnation) then 1
    else if n.misses > p.tko && Running(n.block.state) then 2
    else if n.evil != 0 && n.evil == n.block.incarnation && n.block.updatenode == n.block.nodeid then 3
    else if n.seen > p.tkoUp && !Running(n.state) then 4
    else if n.state == S_RUN && n.block.state == S_MASTER then 5
    else if Running(n.state) && n.incarnation != n.block.incarnation then 6
    else if Running(n.state) then 7
    else 0
  }

  function Transition(p: Params, n: Info): Info
  {
    match Case(p, n)
    case 1 => n.(evil := if n.block.state == S_EVICT then n.evil else 0,
                 incarnation := 0, seen := 0, misses := 0, state := S_NONE)
    case 2 => n.(seen := if n.block.state >= S_RUN then 0 else n.seen,
                 state := S_EVICT, block := n.block.(state := S_EVICT), evil := n.incarnation)
    case 3 => n.(block := n.block.(state := S_EVICT))
    case 4 => n.(state := S_RUN, incarnation := n.block.incarnation, evil := 0)
    case 5 => n.(state := S_MASTER)
    case 6 => n.(incarnation := n.block.incarnation, evil := 0)
    case 7 => n.(state := n.block.state)
    case _ => n
  }

  /** Whether the case sets the node's bit in the mask. */
  predicate Marks(p: Params, n: Info)
  {
    Case(p, n) == 4 || Case(p, n) == 5 || Case(p, n) == 7
  }

  predicate Clears(p: Params, n: Info)
  {
    Case(p, n) == 1 || Case(p, n) == 2
  }

  function MarkBit(p: Params, n: Info, mask: set<int>): set<int>
  {
    var bit := n.block.nodeid - 1;
    if Marks(p, n) && 0 <= bit < MASK_BITS then mask + {bit}
    else if Clears(p, n) then mask - {bit}
    else mask
  }

  /** The mask after the first k nodes of a pass. */
  function MaskOf(p: Params, ni: seq<Info>, k: nat): set<int>
    requires k <= |ni|
  {
    if k == 0 then {} else MarkBit(p, ni[k - 1], MaskOf(p, ni, k - 1))
  }

  /** The eviction notices of the first k nodes, in slot order. */
  function Notices(p: Params, master: bool, ni: seq<Info>, k: nat): seq<int>
    requires k <= |ni|
  {
    if k == 0 then []
    else
      var n := ni[k - 1];
      Notices(p, master, ni, k - 1) +
      (if (Case(p, n) == 2 && master) || Case(p, n) == 3 then [n.block.nodeid] else [])
  }

  /** One node of the pass: the first case that applies moves it. */
  method Judge(p: Params, master: bool, node: Info, mask: set<int>) returns (n: Info, marked: set<int>, evict: bool)
    ensures n == Transition(p, node)
    ensures marked == MarkBit(p, node, mask)
    ensures evict <==> (Case(p, node) == 2 && master) || Case(p, node) == 3
  {
    n, marked, evict := node, mask, false;
    var bit := n.block.nodeid - 1;
    if (n.state >= S_EVICT && n.block.state <= S_EVICT) ||
       (n.incarnation != 0 && n.incarnation != n.block.incarnation) {
      if n.block.state != S_EVICT { n := n.(evil := 0); }
      n := n.(incarnation := 0, seen := 0, misses := 0, state := S_NONE);
      marked := marked - {bit};
    } else if n.misses > p.tko && Running(n.block.state) {
      if n.block.state >= S_RUN && n.seen != 0 { n := n.(seen := 0); }
      n := n.(state := S_EVICT, block := n.block.(state := S_EVICT), evil := n.incarnation);
      evict := master;
      marked := marked - {bit};
    } else if n.evil != 0 && n.evil == n.block.incarnation && n.block.updatenode == n.block.nodeid {
      evict := true;
      n := n.(block := n.block.(state := S_EVICT));
    } else if n.seen > p.tkoUp && !Running(n.state) {
      n := n.(state := S_RUN, incarnation := n.block.incarnation, evil := 0);
      if 0 <= bit < MASK_BITS { marked := marked + {bit}; }
    } else if n.state == S_RUN && n.block.state == S_MASTER {
      n := n.(state := S_MASTER);
      if 0 <= bit < MASK_BITS { marked := marked + {bit}; }
    } else if Running(n.state) && n.incarnation != n.block.incarnation {
      n := n.(incarnation := n.block.incarnation, evil := 0);
    } else if Running(n.state) {
      n := n.(state := n.block.state);
      if 0 <= bit < MASK_BITS { marked := marked + {bit}; }
    }
  }

  /** One pass; a master evicts what timed out, and everybody evicts what came back from the dead. */
  method CheckTransitions(p: Params, master: bool, ni: array<Info>) returns (mask: set<int>, evicted: seq<int>)
    modifies ni
    ensures forall x :: 0 <= x < ni.Length ==> ni[x] == Transition(p, old(ni[x]))
    ensures mask == MaskOf(p, old(ni[..]), ni.Length)
    ensures evicted == Notices(p, master, old(ni[..]), ni.Length)
  {
    hide Transition, MarkBit, Case;
    mask, evicted := {}, [];
    var x := 0;
    while x < ni.Length
      invariant 0 <= x <= ni.Length
      invariant forall i :: 0 <= i < x ==> ni[i] == Transition(p, old(ni[i]))
      invariant forall i :: x <= i < ni.Length ==> ni[i] == old(ni[i])
      invariant mask == MaskOf(p, old(ni[..]), x)
      invariant evicted == Notices(p, master, old(ni[..]), x)
    {
      var id, evict := ni[x].block.nodeid, false;
      ni[x], mask, evict := Judge(p, master, ni[x], mask);
      if evict { evicted := evicted + [id]; }
      x := x + 1;
    }
  }

  // ---------- runs

  /** What one cycle does to our opinion of a node. */
  function Pass(p: Params, n: Info, read: Option<Block>): Info
  {
    Transition(p, Refresh(p, n, read))
  }

  /** Our opinion of the node in slot x after the given looks of its block. */
  function After(p: Params, x: nat, now: int, looks: seq<Option<Block>>): Info
  {
    if looks == [] then InitialInfo(x, now)
    else Pass(p, After(p, x, now, looks[..|looks| - 1]), looks[|looks| - 1])
  }

  /** The block of slot x is the block of node x + 1: every daemon writes it so. */
  predicate Placed(x: nat, looks: seq<Option<Block>>)
  {
    forall i :: 0 <= i < |looks| && looks[i].Some? ==> looks[i].value.nodeid == x + 1
  }

  predicate RanBy(looks: seq<Option<Block>>, i: int)
  {
    exists j :: 0 <= j <= i && j < |looks| && looks[j].Some? && Running(looks[j].value.state)
  }

  /** Once the block has shown a running node it carries an incarnation. */
  predicate Incarnate(looks: seq<Option<Block>>)
  {
    forall i :: 0 <= i < |looks| && looks[i].Some? && RanBy(looks, i) ==> looks[i].value.incarnation != 0
  }

  /** What we may believe of a node after a pass. */
  predicate Believed(n: Info)
  {
    Running(n.state) ==> n.incarnation != 0 && n.incarnation == n.block.incarnation && n.evil == 0
  }

  /** A node that has been seen has an incarnation on disk. */
  predicate SeenIncarnate(n: Info)
  {
    n.seen > 0 ==> n.block.incarnation != 0
  }

  lemma {:induction false} SeenRan(p: Params, x: nat, now: int, looks: seq<Option<Block>>)
    requires Incarnate(looks)
    ensures var n := After(p, x, now, looks); SeenIncarnate(n) && (n.seen > 0 ==> RanBy(looks, |looks| - 1))
  {
    if looks != [] {
      var k := |looks| - 1;
      var before := looks[..k];
      PrefixIncarnate(looks, k);
      SeenRan(p, x, now, before);
      var n, m := After(p, x, now, before), Refresh(p, After(p, x, now, before), looks[k]);
      if m.seen > 0 {
        if n.seen > 0 {
          var j :| 0 <= j <= k - 1 && before[j].Some? && Running(before[j].value.state);
          assert looks[j] == before[j];
        } else {
          assert looks[k].Some? && Running(looks[k].value.state);
        }
        assert RanBy(looks, k);
      }
      assert SeenIncarnate(m);
    }
  }

  lemma PrefixIncarnate(looks: seq<Option<Block>>, k: nat)
    requires Incarnate(looks) && k <= |looks|
    ensures Incarnate(looks[..k])
  {
    forall i | 0 <= i < k && looks[..k][i].Some? && RanBy(looks[..k], i)
      ensures looks[..k][i].value.incarnation != 0
    {
      var j :| 0 <= j <= i && j < k && looks[..k][j].Some? && Running(looks[..k][j].value.state);
      assert looks[j] == looks[..k][j];
      assert RanBy(looks, i);
    }
  }

  /** The one way a pass can go wrong: believing a node whose block carries no incarnation. */
  lemma TransitionExactly(p: Params, n: Info, read: Option<Block>)
    requires Believed(n)
    ensures Case(p, Refresh(p, n, read)) != 6
    ensures Believed(Pass(p, n, read))
            <==> !(Case(p, Refresh(p, n, read)) == 4 && Refresh(p, n, read).block.incarnation == 0)
    ensures Marks(p, Refresh(p, n, read)) <==> Running(Pass(p, n, read).state)
  {
  }

  /**
    After every pass of every run, a node believed running has a recorded incarnation
    that is the one on disk and is not held to be dead, and case 6 never applies.
   */
  lemma {:induction false} OnlyLiveBelieved(p: Params, x: nat, now: int, looks: seq<Option<Block>>)
    requires Incarnate(looks)
    ensures Believed(After(p, x, now, looks))
    ensures looks != [] ==>
              var m := Refresh(p, After(p, x, now, looks[..|looks| - 1]), looks[|looks| - 1]);
              Case(p, m) != 6 && (Marks(p, m) <==> Running(After(p, x, now, looks).state))
  {
    if looks != [] {
      var k := |looks| - 1;
      PrefixIncarnate(looks, k);
      OnlyLiveBelieved(p, x, now, looks[..k]);
      var n := After(p, x, now, looks[..k]);
      TransitionExactly(p, n, looks[k]);
      RefreshSeen(p, x, now, looks);
    }
  }

  /** A slot's record names the slot's node. */
  lemma {:induction false} OwnNumber(p: Params, x: nat, now: int, looks: seq<Option<Block>>)
    requires Placed(x, looks)
    ensures After(p, x, now, looks).block.nodeid == x + 1
  {
    if looks != [] {
      assert Placed(x, looks[..|looks| - 1]);
      OwnNumber(p, x, now, looks[..|looks| - 1]);
    }
  }

  lemma RefreshSeen(p: Params, x: nat, now: int, looks: seq<Option<Block>>)
    requires looks != [] && Incarnate(looks)
    ensures SeenIncarnate(Refresh(p, After(p, x, now, looks[..|looks| - 1]), looks[|looks| - 1]))
  {
    var k := |looks| - 1;
    PrefixIncarnate(looks, k);
    SeenRan(p, x, now, looks[..k]);
    var n := After(p, x, now, looks[..k]);
    var m := Refresh(p, n, looks[k]);
    if m.seen > 0 && looks[k].Some? {
      if n.seen > 0 {
        var j :| 0 <= j <= k - 1 && looks[..k][j].Some? && Running(looks[..k][j].value.state);
        assert looks[j] == looks[..k][j];
      }
      assert RanBy(looks, k);
    }
  }

  /** A block without incarnation that is believed leads straight to case 6. */
  lemma NoIncarnationBreaksIt() returns (p: Params, looks: seq<Option<Block>>)
    ensures Placed(0, looks) && !Incarnate(looks)
    ensures exists k :: 0 <= k < |looks| && Case(p, Refresh(p, After(p, 0, 0, looks[..k]), looks[k])) == 6
  {
    p := Params(9, 10, 0);
    var r0 := Some(Block(1, 1, 1, S_RUN, 0, 0, 0, 0));
    var r1 := Some(Block(1, 1, 2, S_RUN, 7, 0, 0, 0));
    looks := [r0, r1];
    var first: seq<Option<Block>> := [r0];
    assert first[..0] == [] && first[0] == r0;
    assert After(p, 0, 0, first[..0]) == InitialInfo(0, 0);
    assert After(p, 0, 0, first) == Pass(p, InitialInfo(0, 0), r0);
    assert looks[..1] == first;
    assert Case(p, Refresh(p, After(p, 0, 0, looks[..1]), looks[1])) == 6;
    assert looks[0].Some? && Running(looks[0].value.state);
    assert RanBy(looks, 0);
  }

  // ---------- the mask

  lemma {:induction false} MaskExactly(p: Params, ni: seq<Info>, k: nat)
    requires k <= |ni| <= MASK_BITS
    requires forall x :: 0 <= x < |ni| ==> ni[x].block.nodeid == x + 1
    ensures MaskOf(p, ni, k) == set x: int | 0 <= x < k && Marks(p, ni[x])
  {
    if k > 0 { MaskExactly(p, ni, k - 1); }
  }

  /** Everybody's opinion after the same number of cycles. */
  function AllAfter(p: Params, now: int, looks: seq<seq<Option<Block>>>): seq<Info>
  {
    seq(|looks|, x requires 0 <= x < |looks| => After(p, x, now, looks[x]))
  }

  /** What CheckTransitions finds: last cycle's opinions, refreshed with this cycle's blocks. */
  function Refreshed(p: Params, now: int, looks: seq<seq<Option<Block>>>, k: nat): seq<Info>
    requires forall x :: 0 <= x < |looks| ==> |looks[x]| == k + 1
  {
    seq(|looks|, x requires 0 <= x < |looks| => Refresh(p, After(p, x, now, looks[x][..k]), looks[x][k]))
  }

  /** After every pass the mask holds exactly the nodes believed running. */
  lemma MaskIsBelieved(p: Params, now: int, looks: seq<seq<Option<Block>>>, k: nat)
    requires |looks| <= MAX_NODES_DISK
    requires forall x :: 0 <= x < |looks| ==> |looks[x]| == k + 1 && Placed(x, looks[x]) && Incarnate(looks[x])
    ensures var after := AllAfter(p, now, looks);
            MaskOf(p, Refreshed(p, now, looks, k), |looks|)
            == set x: int | 0 <= x < |looks| && Running(after[x].state)
  {
    var ni := Refreshed(p, now, looks, k);
    forall x | 0 <= x < |looks|
      ensures ni[x].block.nodeid == x + 1 && (Marks(p, ni[x]) <==> Running(After(p, x, now, looks[x]).state))
    {
      OnlyLiveBelieved(p, x, now, looks[x]);
      assert Placed(x, looks[x][..k]);
      OwnNumber(p, x, now, looks[x][..k]);
    }
    MaskExactly(p, ni, |looks|);
  }

  /** We never count ourselves: our own slot is never believed running. */
  lemma {:induction false} OwnSlotIdle(p: Params, now: int, looks: seq<Option<Block>>)
    requires p.myId >= 1 && Placed(p.myId - 1, looks)
    ensures var n := After(p, p.myId - 1, now, looks);
            n.state == S_NONE && n.seen == 0 && n.misses == 0 && n.incarnation == 0 && n.evil == 0
  {
    if looks != [] {
      var k := |looks| - 1;
      assert Placed(p.myId - 1, looks[..k]);
      OwnSlotIdle(p, now, looks[..k]);
    }
  }
}

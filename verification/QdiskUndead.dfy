/**
  Nodes that come back from the dead (cman/qdisk/main.c:221-351): an incarnation that was given up
  for silence and goes on writing gets an eviction notice at every look. The program means it never
  to be believed again; that fails, in a way that is stated exactly.
 */
module QdiskUndead {
  import opened Basics
  import opened QdiskNodes
  import opened QdiskSilence

  /** Given up as incarnation i, and not believed since. */
  predicate Undead(n: Info, i: nat)
  {
    && i != 0 && n.evil == i && !Running(n.state) && n.block.state == S_EVICT
    && (n.incarnation == 0 || (n.incarnation == i && n.state == S_EVICT))
  }

  /** The incarnation is alive: it has written its block itself, with a new timestamp. */
  predicate Alive(p: Params, n: Info, b: Block, i: nat)
  {
    b.nodeid != p.myId && b.updatenode == b.nodeid && Running(b.state) && b.incarnation == i && b.timestamp != n.lastSeen
  }

  /** Somebody else's eviction notice is in the block. */
  predicate Noticed(p: Params, b: Block)
  {
    b.nodeid != p.myId && b.updatenode != b.nodeid && b.state == S_EVICT
  }

  /** Giving a believed node up makes its incarnation undead. */
  lemma GivenUpIsUndead(p: Params, n: Info, b: Block)
    requires Running(n.state) && Believed(n) && Pass(p, n, Some(b)).state == S_EVICT
    ensures Undead(Pass(p, n, Some(b)), n.incarnation)
  {
  }

  /** A live undead node is sent a notice by everybody, stays undead, and counts as seen once more. */
  lemma AliveGetsNotice(p: Params, n: Info, b: Block, i: nat)
    requires Undead(n, i) && Alive(p, n, b, i)
    ensures Case(p, Refresh(p, n, Some(b))) == 3
    ensures var t := Pass(p, n, Some(b));
            Undead(t, i) && t.state == n.state && t.seen == n.seen + 1 && t.lastSeen == b.timestamp
  {
  }

  /** The first notice read puts the node off line and forgets how often it was seen, but not that it is evil. */
  lemma NoticeIsRead(p: Params, n: Info, b: Block, i: nat)
    requires Undead(n, i) && Noticed(p, b) && n.state == S_EVICT
    ensures var t := Pass(p, n, Some(b)); Undead(t, i) && t.state == S_NONE && t.seen == 0 && t.misses == 0
  {
  }

  /** A block that shows neither an eviction nor a running node is a clean shutdown: then the evil is forgotten. */
  lemma ShutdownForgives(p: Params, n: Info, b: Block, i: nat)
    requires Undead(n, i) && b.nodeid != p.myId && b.state == S_NONE && n.state == S_EVICT
    ensures Blank(Pass(p, n, Some(b)))
  {
  }

  /** Every look shows the incarnation alive, each with another timestamp. */
  predicate AllAlive(p: Params, n: Info, looks: seq<Option<Block>>, i: nat)
  {
    looks != [] ==>
      var before, look := looks[..|looks| - 1], looks[|looks| - 1];
      AllAlive(p, n, before, i) && look.Some? && Alive(p, AfterFrom(p, n, before), look.value, i)
  }

  /** However long it goes on, an undead node that keeps writing gets a notice at every look and is never believed. */
  lemma {:induction false} StaysUndead(p: Params, n: Info, looks: seq<Option<Block>>, i: nat)
    requires Undead(n, i) && AllAlive(p, n, looks, i)
    ensures var t := AfterFrom(p, n, looks); Undead(t, i) && t.state == n.state && t.seen == n.seen + |looks|
    ensures looks != [] ==> Case(p, Refresh(p, AfterFrom(p, n, looks[..|looks| - 1]), looks[|looks| - 1])) == 3
    decreases |looks|
  {
    if looks != [] {
      var before, look := looks[..|looks| - 1], looks[|looks| - 1];
      StaysUndead(p, n, before, i);
      hide Case, Refresh, Pass, Undead, Alive;
      AliveGetsNotice(p, AfterFrom(p, n, before), look.value, i);
    }
  }

  lemma ReadAfter(p: Params, n: Info, looks: seq<Option<Block>>, b: Block)
    ensures AfterFrom(p, n, looks + [Some(b)]) == Pass(p, AfterFrom(p, n, looks), Some(b))
  {
    hide Pass;
    assert (looks + [Some(b)])[..|looks|] == looks;
  }

  /**
    An incarnation given up for silence that keeps writing until somebody's notice is read again is
    then believed running if and only if one notice has been read before, and it has been seen more
    than tkoUp times since that.
   */
  lemma UndeadReturnsExactly(p: Params, n: Info, looks: seq<Option<Block>>, b: Block, i: nat)
    requires Undead(n, i) && AllAlive(p, n, looks, i) && Noticed(p, b)
    ensures Running(AfterFrom(p, n, looks + [Some(b)]).state) <==> n.state == S_NONE && n.seen + |looks| > p.tkoUp
  {
    hide AfterFrom, AllAlive;
    StaysUndead(p, n, looks, i);
    ReadAfter(p, n, looks, b);
  }

  // ---------- such a run

  /** What an undead node shows at its next k looks. */
  function Beats(id: int, last: int, i: nat, k: nat): (looks: seq<Option<Block>>)
    ensures |looks| == k
  {
    if k == 0 then [] else Beats(id, last, i, k - 1) + [Some(Block(id, id, last + k, S_RUN, i, 0, 0, 0))]
  }

  lemma {:induction false} BeatsAlive(p: Params, n: Info, id: int, i: nat, k: nat)
    requires id != p.myId && Undead(n, i)
    ensures AllAlive(p, n, Beats(id, n.lastSeen, i, k), i)
    ensures AfterFrom(p, n, Beats(id, n.lastSeen, i, k)).lastSeen == n.lastSeen + k
  {
    if k > 0 {
      var before, b := Beats(id, n.lastSeen, i, k - 1), Block(id, id, n.lastSeen + k, S_RUN, i, 0, 0, 0);
      BeatsAlive(p, n, id, i, k - 1);
      StaysUndead(p, n, before, i);
      assert (before + [Some(b)])[..k - 1] == before;
      hide AfterFrom, Pass, Undead;
      AliveGetsNotice(p, AfterFrom(p, n, before), b, i);
      ReadAfter(p, n, before, b);
    }
  }

  /** Whatever tkoUp is, an undead node can get itself believed. */
  lemma UndeadIsBelieved(p: Params, n: Info, id: int, i: nat)
    requires id != p.myId && Undead(n, i) && n.state == S_NONE
    ensures exists looks: seq<Option<Block>>, b ::
              AllAlive(p, n, looks, i) && Noticed(p, b) && Running(AfterFrom(p, n, looks + [Some(b)]).state)
  {
    hide AfterFrom, AllAlive;
    var looks, b := Beats(id, n.lastSeen, i, p.tkoUp + 1), Block(id, id + 1, 0, S_EVICT, i, 0, 0, 0);
    BeatsAlive(p, n, id, i, p.tkoUp + 1);
    UndeadReturnsExactly(p, n, looks, b, i);
    assert Noticed(p, b);
  }
}

/**
  The bid for master of a quorum-disk daemon (cman/qdisk/main.c:429-489, 574-678,
  928-1143): the lowest node bids, the others acknowledge, and a bidder that every
  node it believes running has acknowledged becomes master.
 */
module QdiskElection {
  import opened Basics
  import opened QdiskNodes

  const M_NONE: nat := 0
  const M_BID: nat := 1
  const M_ACK: nat := 2
  const M_NACK: nat := 3

  /** disk_msg_t: what we write into our own block. */
  datatype Msg = Msg(kind: nat, arg: int, seqno: nat)

  datatype Settings = Settings(myId: int, upgradeWait: nat, masterWait: nat)

  // ---------- looking for a master

  /** Another node we believe running claims to be master. */
  predicate LiveMaster(my: int, n: Info)
  {
    n.state >= S_RUN && n.block.state == S_MASTER && n.block.nodeid != my
  }

  predicate Claims(my: int, n: Info)
  {
    LiveMaster(my, n) || (n.block.nodeid == my && n.block.state == S_MASTER)
  }

  function CountMasters(my: int, ni: seq<Info>): nat
  {
    if ni == [] then 0 else CountMasters(my, ni[..|ni| - 1]) + (if Claims(my, ni[|ni| - 1]) then 1 else 0)
  }

  /** The id of the first claim with a non-zero id, or 0. */
  function FirstMaster(my: int, ni: seq<Info>): int
  {
    if ni == [] then 0
    else
      var m := FirstMaster(my, ni[..|ni| - 1]);
      if m != 0 then m else if Claims(my, ni[|ni| - 1]) then ni[|ni| - 1].block.nodeid else 0
  }

  /** A node believed running that does not claim to be master. */
  predicate Candidate(my: int, n: Info)
  {
    !Claims(my, n) && n.state >= S_RUN
  }

  function LowestId(my: int, ni: seq<Info>): int
  {
    if ni == [] then my
    else
      var low := LowestId(my, ni[..|ni| - 1]);
      if Candidate(my, ni[|ni| - 1]) && ni[|ni| - 1].block.nodeid < low then ni[|ni| - 1].block.nodeid else low
  }

  /** What a master search finds: a claim if there is one, and nobody below the lowest id. */
  lemma {:induction false} SearchMeaning(my: int, ni: seq<Info>)
    ensures FirstMaster(my, ni) == 0 <==> forall x :: 0 <= x < |ni| && Claims(my, ni[x]) ==> ni[x].block.nodeid == 0
    ensures FirstMaster(my, ni) != 0 ==>
              exists x :: 0 <= x < |ni| && Claims(my, ni[x]) && ni[x].block.nodeid == FirstMaster(my, ni)
    ensures LowestId(my, ni) <= my
    ensures LowestId(my, ni) < my ==>
              exists x :: 0 <= x < |ni| && Candidate(my, ni[x]) && ni[x].block.nodeid == LowestId(my, ni)
    ensures forall x :: 0 <= x < |ni| && Candidate(my, ni[x]) ==> LowestId(my, ni) <= ni[x].block.nodeid
    ensures CountMasters(my, ni) == 0 <==> forall x :: 0 <= x < |ni| ==> !Claims(my, ni[x])
  {
    if ni != [] {
      var init := ni[..|ni| - 1];
      SearchMeaning(my, init);
      assert forall x :: 0 <= x < |init| ==> init[x] == ni[x];
    }
  }

  method MasterExists(my: int, ni: seq<Info>) returns (master: int, low: int, count: nat)
    ensures master == FirstMaster(my, ni) && low == LowestId(my, ni) && count == CountMasters(my, ni)
  {
    master, low, count := 0, my, 0;
    var x := 0;
    while x < |ni|
      invariant 0 <= x <= |ni|
      invariant master == FirstMaster(my, ni[..x]) && low == LowestId(my, ni[..x]) && count == CountMasters(my, ni[..x])
    {
      var n := ni[x];
      assert ni[..x + 1][..x] == ni[..x];
      if n.state >= S_RUN && n.block.state == S_MASTER && n.block.nodeid != my {
        if master == 0 { master := n.block.nodeid; }
        count := count + 1;
      } else if n.block.nodeid == my && n.block.state == S_MASTER {
        if master == 0 { master := my; }
        count := count + 1;
      } else if n.state >= S_RUN && n.block.nodeid < low {
        low := n.block.nodeid;
      }
      x := x + 1;
    }
    assert ni[..x] == ni;
  }

  // ---------- votes

  predicate BidsBelow(n: Info, id: int)
  {
    n.block.msg == M_BID && n.block.nodeid < id
  }

  function AckOf(n: Info): Msg
  {
    Msg(M_ACK, n.block.nodeid, n.block.seqno)
  }

  /** The vote for the first running bidder below us. */
  function FirstVote(my: int, ni: seq<Info>, msg: Msg): Msg
  {
    if ni == [] then msg
    else if ni[0].state == S_RUN && BidsBelow(ni[0], my) then AckOf(ni[0])
    else FirstVote(my, ni[1..], msg)
  }

  /** On a disk whose slots hold their own ids, that bidder is the lowest. */
  lemma {:induction false} VoteIsLowest(my: int, ni: seq<Info>, msg: Msg)
    requires forall x, y :: 0 <= x < y < |ni| ==> ni[x].block.nodeid < ni[y].block.nodeid
    ensures FirstVote(my, ni, msg) == msg ||
            exists x :: 0 <= x < |ni| && ni[x].state == S_RUN && BidsBelow(ni[x], my) && FirstVote(my, ni, msg) == AckOf(ni[x])
    ensures forall x :: 0 <= x < |ni| && ni[x].state == S_RUN && BidsBelow(ni[x], my) ==>
              FirstVote(my, ni, msg).kind == M_ACK && FirstVote(my, ni, msg).arg <= ni[x].block.nodeid
  {
    if ni != [] && !(ni[0].state == S_RUN && BidsBelow(ni[0], my)) {
      var rest := ni[1..];
      VoteIsLowest(my, rest, msg);
      assert forall x :: 0 < x < |ni| ==> ni[x] == rest[x - 1];
    }
  }

  method DoVote(my: int, ni: seq<Info>, msg: Msg) returns (r: Msg)
    ensures r == FirstVote(my, ni, msg)
  {
    r := msg;
    var x := 0;
    while x < |ni|
      invariant 0 <= x <= |ni| && r == msg
      invariant FirstVote(my, ni, msg) == FirstVote(my, ni[x..], msg)
    {
      assert ni[x..][1..] == ni[x + 1..];
      if ni[x].state == S_RUN && ni[x].block.msg == M_BID && ni[x].block.nodeid < my {
        r := AckOf(ni[x]);
        return;
      }
      x := x + 1;
    }
  }

  predicate Acks(n: Info, id: int)
  {
    n.block.msg == M_ACK && n.block.arg == id
  }

  predicate Nacks(n: Info, id: int)
  {
    n.block.msg == M_NACK && n.block.arg == id
  }

  /** Every node believed running acknowledges us. */
  predicate AllAck(my: int, ni: seq<Info>)
  {
    forall x :: 0 <= x < |ni| && Running(ni[x].state) ==> Acks(ni[x], my)
  }

  predicate SomeNack(my: int, ni: seq<Info>)
  {
    exists x :: 0 <= x < |ni| && Running(ni[x].state) && Nacks(ni[x], my)
  }

  predicate SomeLowerBid(my: int, ni: seq<Info>)
  {
    exists x :: 0 <= x < |ni| && Running(ni[x].state) && BidsBelow(ni[x], my)
  }

  function Verdict(my: int, ni: seq<Info>): nat
  {
    if AllAck(my, ni) then 3 else if SomeNack(my, ni) then 2 else if SomeLowerBid(my, ni) then 1 else 0
  }

  /** The lowest id below ours that bids, and the message left by the scan. */
  function LowestVote(my: int, ni: seq<Info>, msg: Msg): (int, Msg)
  {
    if ni == [] then (my, msg)
    else
      var (low, m) := LowestVote(my, ni[..|ni| - 1], msg);
      var n := ni[|ni| - 1];
      if Running(n.state) && BidsBelow(n, low) then (n.block.nodeid, AckOf(n)) else (low, m)
  }

  /** The message is touched exactly when a lower node bids, and then it is a vote for the lowest. */
  lemma {:induction false} LowestVoteMeaning(my: int, ni: seq<Info>, msg: Msg)
    ensures var (low, m) := LowestVote(my, ni, msg);
            && low <= my
            && (low < my <==> SomeLowerBid(my, ni))
            && (low == my ==> m == msg)
            && (low < my ==> m.kind == M_ACK && m.arg == low &&
                             exists x :: 0 <= x < |ni| && Running(ni[x].state) && BidsBelow(ni[x], my) && m == AckOf(ni[x]))
            && forall x :: 0 <= x < |ni| && Running(ni[x].state) && BidsBelow(ni[x], my) ==> low <= ni[x].block.nodeid
  {
    if ni != [] {
      var init := ni[..|ni| - 1];
      LowestVoteMeaning(my, init, msg);
      assert forall x :: 0 <= x < |init| ==> init[x] == ni[x];
    }
  }

  method CheckVotes(my: int, ni: seq<Info>, msg: Msg) returns (verdict: nat, r: Msg)
    ensures verdict == Verdict(my, ni)
    ensures r == LowestVote(my, ni, msg).1
  {
    var running, acks, nacks, low, x := 0, 0, 0, my, 0;
    r := msg;
    while x < |ni|
      invariant 0 <= x <= |ni| && 0 <= acks <= running && 0 <= nacks
      invariant acks == running <==> AllAck(my, ni[..x])
      invariant nacks > 0 <==> SomeNack(my, ni[..x])
      invariant (low, r) == LowestVote(my, ni[..x], msg)
    {
      assert ni[..x + 1][..x] == ni[..x];
      OneMore(my, ni, x);
      if Running(ni[x].state) {
        running := running + 1;
        if ni[x].block.msg == M_ACK && ni[x].block.arg == my { acks := acks + 1; }
        if ni[x].block.msg == M_NACK && ni[x].block.arg == my { nacks := nacks + 1; }
        if ni[x].block.msg == M_BID && ni[x].block.nodeid < low {
          low := ni[x].block.nodeid;
          r := AckOf(ni[x]);
        }
      }
      x := x + 1;
    }
    assert ni[..x] == ni;
    LowestVoteMeaning(my, ni, msg);
    verdict := if acks == running then 3 else if nacks > 0 then 2 else if low != my then 1 else 0;
  }

  lemma OneMore(my: int, ni: seq<Info>, x: nat)
    requires x < |ni|
    ensures AllAck(my, ni[..x + 1]) <==> AllAck(my, ni[..x]) && (Running(ni[x].state) ==> Acks(ni[x], my))
    ensures SomeNack(my, ni[..x + 1]) <==> SomeNack(my, ni[..x]) || (Running(ni[x].state) && Nacks(ni[x], my))
  {
    var a, b := ni[..x], ni[..x + 1];
    assert b[x] == ni[x] && forall i :: 0 <= i < x ==> b[i] == a[i];
    if i :| 0 <= i < |a| && Running(a[i].state) && Nacks(a[i], my) { assert b[i] == a[i]; }
    if i :| 0 <= i < |b| && Running(b[i].state) && Nacks(b[i], my) { if i < x { assert a[i] == b[i]; } }
  }

  // ---------- the loop

  /** What a daemon carries from cycle to cycle; it writes status and message into its block. */
  datatype State = State(status: nat, msg: Msg, bidPending: nat, upgrade: nat, master: int)

  /** What one cycle sees: the nodes after check_transitions, and whether the score suffices. */
  datatype Look = Look(ni: seq<Info>, enough: bool)

  const INITIAL := State(S_NONE, Msg(M_NONE, 0, 0), 0, 0, 0)

  function Withdrawn(s: State, status: nat): State
  {
    s.(status := status, bidPending := 0, msg := Msg(M_NONE, s.msg.arg, (s.msg.seqno + 1) % 0x1_0000))
  }

  /** Losing the score drops us out; gaining it lets us back in, but not to bid at once. */
  function Scored(cfg: Settings, s: State, enough: bool): State
  {
    if !enough then (if s.status > S_NONE then Withdrawn(s, S_NONE) else s)
    else if s.status == S_NONE then Withdrawn(s, S_RUN).(upgrade := cfg.upgradeWait)
    else s
  }

  /** A bidder that sees no master counts the votes. */
  function Tallied(cfg: Settings, s: State, ni: seq<Info>): State
  {
    var s1 := s.(bidPending := s.bidPending + 1, msg := LowestVote(cfg.myId, ni, s.msg).1);
    match Verdict(cfg.myId, ni)
    case 3 =>
      if s1.bidPending < cfg.masterWait then s1
      else s1.(status := S_MASTER, msg := s1.msg.(kind := M_NONE), bidPending := 0)
    case 2 => s1.(msg := s1.msg.(kind := M_NONE), bidPending := 0)
    case 1 => s1.(bidPending := 0)
    case _ => s1
  }

  function Next(cfg: Settings, s: State, look: Look): State
  {
    var s1 := Scored(cfg, s.(upgrade := if s.upgrade > 0 then s.upgrade - 1 else 0), look.enough);
    var s2 := s1.(master := FirstMaster(cfg.myId, look.ni));
    var s3 := if CountMasters(cfg.myId, look.ni) >= 1 && s2.status == S_MASTER && s2.master != cfg.myId
              then Withdrawn(s2, S_RUN).(upgrade := cfg.upgradeWait) else s2;
    if s3.master != 0 then s3
    else if LowestId(cfg.myId, look.ni) == cfg.myId && s3.status == S_RUN && s3.bidPending == 0 && s3.upgrade == 0 then
      s3.(msg := Msg(M_BID, s3.msg.arg, (s3.msg.seqno + 1) % 0x1_0000), bidPending := 1)
    else if s3.bidPending == 0 then s3.(msg := FirstVote(cfg.myId, look.ni, s3.msg))
    else Tallied(cfg, s3, look.ni)
  }

  function Cycles(cfg: Settings, looks: seq<Look>): State
  {
    if looks == [] then INITIAL else Next(cfg, Cycles(cfg, looks[..|looks| - 1]), looks[|looks| - 1])
  }

  class Loop {
    const cfg: Settings
    var status: nat
    var msg: Msg
    var bidPending: nat
    var upgrade: nat
    var master: int

    ghost function View(): State
      reads this
    {
      State(status, msg, bidPending, upgrade, master)
    }

    constructor (cfg: Settings)
      ensures this.cfg == cfg && View() == INITIAL
    {
      this.cfg := cfg;
      status, msg, bidPending, upgrade, master := S_NONE, Msg(M_NONE, 0, 0), 0, 0, 0;
    }

    method Withdraw(newStatus: nat)
      modifies this`status, this`msg, this`bidPending
      ensures View() == Withdrawn(old(View()), newStatus)
    {
      status, bidPending := newStatus, 0;
      msg := Msg(M_NONE, msg.arg, (msg.seqno + 1) % 0x1_0000);
    }

    method Tally(ni: seq<Info>)
      modifies this`status, this`msg, this`bidPending
      ensures View() == Tallied(cfg, old(View()), ni)
    {
      bidPending := bidPending + 1;
      var verdict;
      verdict, msg := CheckVotes(cfg.myId, ni, msg);
      if verdict == 3 && bidPending < cfg.masterWait { return; }
      if verdict == 3 { status := S_MASTER; }
      if verdict >= 2 { msg := msg.(kind := M_NONE); }
      if verdict >= 1 { bidPending := 0; }
    }

    method Score(enough: bool)
      modifies this
      ensures View() == Scored(cfg, old(View()).(upgrade := if old(upgrade) > 0 then old(upgrade) - 1 else 0), enough)
    {
      if upgrade > 0 { upgrade := upgrade - 1; }
      if !enough {
        if status > S_NONE { Withdraw(S_NONE); }
      } else if status == S_NONE {
        Withdraw(S_RUN);
        upgrade := cfg.upgradeWait;
      }
    }

    method Cycle(look: Look)
      modifies this
      ensures View() == Next(cfg, old(View()), look)
    {
      hide Scored, Tallied, FirstMaster, LowestId, CountMasters, FirstVote;
      Score(look.enough);
      var low, count;
      master, low, count := MasterExists(cfg.myId, look.ni);
      if count >= 1 && status == S_MASTER && master != cfg.myId {
        Withdraw(S_RUN);
        upgrade := cfg.upgradeWait;
      }
      if master == 0 && low == cfg.myId && status == S_RUN && bidPending == 0 && upgrade == 0 {
        msg := Msg(M_BID, msg.arg, (msg.seqno + 1) % 0x1_0000);
        bidPending := 1;
      } else if master == 0 && bidPending == 0 {
        msg := DoVote(cfg.myId, look.ni, msg);
      } else if master == 0 {
        Tally(look.ni);
      }
    }
  }

  /** A pending bid is what stands in our block, and only a running non-master bids. */
  predicate Standing(s: State)
  {
    && (s.status == S_NONE || s.status == S_RUN || s.status == S_MASTER)
    && (s.bidPending > 0 ==> s.msg.kind == M_BID && s.status == S_RUN)
  }

  lemma NextStanding(cfg: Settings, s: State, look: Look)
    requires Standing(s)
    ensures Standing(Next(cfg, s, look))
  {
    LowestVoteMeaning(cfg.myId, look.ni, s.msg);
  }

  /** After every run of cycles, a pending bid has its message in the block to be written. */
  lemma {:induction false} BidStands(cfg: Settings, looks: seq<Look>)
    ensures Standing(Cycles(cfg, looks))
  {
    if looks != [] {
      BidStands(cfg, looks[..|looks| - 1]);
      NextStanding(cfg, Cycles(cfg, looks[..|looks| - 1]), looks[|looks| - 1]);
    }
  }

  lemma NextMasterExactly(cfg: Settings, s: State, look: Look)
    requires Standing(s) && s.status != S_MASTER
    ensures Next(cfg, s, look).status == S_MASTER <==>
            && s.bidPending > 0 && s.bidPending + 1 >= cfg.masterWait
            && look.enough && FirstMaster(cfg.myId, look.ni) == 0 && AllAck(cfg.myId, look.ni)
  {
    hide FirstMaster, CountMasters, LowestId, FirstVote, LowestVote, AllAck, SomeNack, SomeLowerBid;
  }

  /**
    Exactly how a daemon becomes master: it held a bid of at least masterWait cycles, kept its
    score, saw no master, and every node it believes running acknowledges it.
   */
  lemma BecomesMasterExactly(cfg: Settings, looks: seq<Look>)
    requires looks != []
    ensures var s, t, look := Cycles(cfg, looks[..|looks| - 1]), Cycles(cfg, looks), looks[|looks| - 1];
            s.status != S_MASTER ==>
            (t.status == S_MASTER <==>
             && s.bidPending > 0 && s.bidPending + 1 >= cfg.masterWait && s.msg.kind == M_BID
             && look.enough && AllAck(cfg.myId, look.ni)
             && (forall x :: 0 <= x < |look.ni| && Claims(cfg.myId, look.ni[x]) ==> look.ni[x].block.nodeid == 0))
  {
    hide Next, AllAck, FirstMaster, Claims;
    BidStands(cfg, looks[..|looks| - 1]);
    var s, look := Cycles(cfg, looks[..|looks| - 1]), looks[|looks| - 1];
    SearchMeaning(cfg.myId, look.ni);
    if s.status != S_MASTER { NextMasterExactly(cfg, s, look); }
  }

  // ---------- two bidders on one snapshot of the disk

  /** The array after a cycle over the disk: what a pass makes of each record and the block just read. */
  predicate Cycled(p: Params, was: seq<Info>, blocks: seq<Block>, ni: seq<Info>)
  {
    |was| == |blocks| == |ni| && forall x :: 0 <= x < |ni| ==> ni[x] == Pass(p, was[x], Some(blocks[x]))
  }

  /** The nodes a daemon believes running. */
  function ViewOf(ni: seq<Info>): set<nat>
  {
    set x: nat | 0 <= x < |ni| && Running(ni[x].state)
  }

  /** Views that share no node and contain neither bidder. */
  predicate Apart(viewA: set<nat>, viewB: set<nat>, a: nat, b: nat)
  {
    viewA !! viewB && a !in viewB && b !in viewA && a !in viewA && b !in viewB
  }

  /** A pass may mark its copy of a block as evicted, but leaves the message alone. */
  lemma PassKeepsMessage(p: Params, n: Info, b: Block)
    ensures var m := Pass(p, n, Some(b)).block; m.msg == b.msg && m.arg == b.arg
  {
  }

  /** Whoever a bidder with all acknowledgements believes running has acknowledged it on the disk. */
  lemma AcksOnDisk(p: Params, was: seq<Info>, blocks: seq<Block>, ni: seq<Info>, me: int, x: nat)
    requires Cycled(p, was, blocks, ni) && AllAck(me, ni) && x in ViewOf(ni)
    ensures x < |blocks| && blocks[x].msg == M_ACK && blocks[x].arg == me
  {
    hide Pass;
    PassKeepsMessage(p, was[x], blocks[x]);
    assert Acks(ni[x], me);
  }

  /**
    Two bidders that both get all acknowledgements in a cycle over the same blocks believe no
    node running in common, and neither believes the other running, whatever each held of every
    node before and whomever it timed out or found undead in that cycle.
   */
  lemma ElectionSafe(p: Params, q: Params, wasA: seq<Info>, wasB: seq<Info>, blocks: seq<Block>,
                     ni: seq<Info>, nj: seq<Info>, a: nat, b: nat)
    requires a != b && a < |blocks| && b < |blocks|
    requires Cycled(p, wasA, blocks, ni) && Cycled(q, wasB, blocks, nj)
    requires blocks[a].msg == M_BID && blocks[b].msg == M_BID
    requires Verdict(a + 1, ni) == 3 && Verdict(b + 1, nj) == 3
    ensures Apart(ViewOf(ni), ViewOf(nj), a, b)
  {
    hide Cycled, AllAck;
    forall x | x in ViewOf(ni) ensures x < |blocks| && blocks[x].msg == M_ACK && blocks[x].arg == a + 1 {
      AcksOnDisk(p, wasA, blocks, ni, a + 1, x);
    }
    forall x | x in ViewOf(nj) ensures x < |blocks| && blocks[x].msg == M_ACK && blocks[x].arg == b + 1 {
      AcksOnDisk(q, wasB, blocks, nj, b + 1, x);
    }
  }

  /** A daemon's own block holds the message it wrote last, and in this cycle it makes itself master. */
  ghost predicate Promoted(cfg: Settings, looks: seq<Look>, blocks: seq<Block>, me: nat)
  {
    && looks != [] && me < |blocks| && cfg.myId == me + 1
    && var before := Cycles(cfg, looks[..|looks| - 1]);
    && blocks[me].msg == before.msg.kind
    && before.status != S_MASTER && Cycles(cfg, looks).status == S_MASTER
  }

  /**
    Two daemons that, after any runs, make themselves master in a cycle over the same blocks do
    not believe each other running, nor anybody in common.
   */
  lemma MastersApart(cfgA: Settings, looksA: seq<Look>, p: Params, wasA: seq<Info>, a: nat,
                     cfgB: Settings, looksB: seq<Look>, q: Params, wasB: seq<Info>, b: nat, blocks: seq<Block>)
    requires a != b && Promoted(cfgA, looksA, blocks, a) && Promoted(cfgB, looksB, blocks, b)
    requires Cycled(p, wasA, blocks, looksA[|looksA| - 1].ni)
    requires Cycled(q, wasB, blocks, looksB[|looksB| - 1].ni)
    ensures Apart(ViewOf(looksA[|looksA| - 1].ni), ViewOf(looksB[|looksB| - 1].ni), a, b)
  {
    hide Cycled, AllAck, ViewOf, Apart, Cycles;
    BecomesMasterExactly(cfgA, looksA);
    BecomesMasterExactly(cfgB, looksB);
    ElectionSafe(p, q, wasA, wasB, blocks, looksA[|looksA| - 1].ni, looksB[|looksB| - 1].ni, a, b);
  }

  // ---------- exactly when there can be two winners

  /** A daemon's whole history of reading the disk, the last time as it is in this snapshot. */
  ghost predicate Reached(looks: seq<seq<Option<Block>>>, blocks: seq<Block>)
  {
    && |looks| == |blocks|
    && forall x :: 0 <= x < |looks| ==>
         looks[x] != [] && looks[x][|looks[x]| - 1] == Some(blocks[x]) && Placed(x, looks[x]) && Incarnate(looks[x])
  }

  /** With this history the daemon in slot me bids and gets all acknowledgements, with exactly this view. */
  ghost predicate Wins(p: Params, now: int, looks: seq<seq<Option<Block>>>, blocks: seq<Block>, view: set<nat>, me: nat)
  {
    && Reached(looks, blocks) && p.myId == me + 1 && me < |blocks| && blocks[me].msg == M_BID
    && ViewOf(AllAfter(p, now, looks)) == view && Verdict(me + 1, AllAfter(p, now, looks)) == 3
  }

  /** Some snapshot of n blocks, reached by two daemons, makes both of them winners. */
  ghost predicate BothWin(n: nat, viewA: set<nat>, viewB: set<nat>, a: nat, b: nat)
  {
    exists blocks: seq<Block>, p: Params, now: int, looks: seq<seq<Option<Block>>>,
           q: Params, now': int, looks': seq<seq<Option<Block>>> ::
      |blocks| == n && Wins(p, now, looks, blocks, viewA, a) && Wins(q, now', looks', blocks, viewB, b)
  }

  /** Everything before the last look. */
  function Earlier(p: Params, now: int, looks: seq<seq<Option<Block>>>): (was: seq<Info>)
    requires forall x :: 0 <= x < |looks| ==> looks[x] != []
    ensures |was| == |looks|
    ensures forall x :: 0 <= x < |looks| ==> was[x] == After(p, x, now, looks[x][..|looks[x]| - 1])
  {
    seq(|looks|, x requires 0 <= x < |looks| => After(p, x, now, looks[x][..|looks[x]| - 1]))
  }

  lemma ReachedByCycle(p: Params, now: int, looks: seq<seq<Option<Block>>>, blocks: seq<Block>)
    requires Reached(looks, blocks)
    ensures Cycled(p, Earlier(p, now, looks), blocks, AllAfter(p, now, looks))
  {
    hide Pass;
  }

  /** Each view's nodes acknowledge its bidder. */
  function SplitVote(n: nat, viewA: set<nat>, a: nat, b: nat): (blocks: seq<Block>)
    ensures |blocks| == n
    ensures forall x :: 0 <= x < n ==>
              blocks[x] == Block(x + 1, x + 1, 0, S_RUN, 1,
                                 if x == a || x == b then M_BID else M_ACK, 0,
                                 if x in viewA then a + 1 else b + 1)
  {
    seq(n, x requires 0 <= x < n =>
        Block(x + 1, x + 1, 0, S_RUN, 1, if x == a || x == b then M_BID else M_ACK, 0, if x in viewA then a + 1 else b + 1))
  }

  /** Two looks at a block: only a node of the view is seen to write in between. */
  function TwoLooks(b: Block, viewed: bool): (r: seq<Option<Block>>)
    ensures |r| == 2 && r[1] == Some(b) && r[0] == (if viewed then Some(b.(timestamp := 1)) else None)
  {
    [if viewed then Some(b.(timestamp := 1)) else None, Some(b)]
  }

  lemma TwoLooksShow(p: Params, x: nat, b: Block, viewed: bool)
    requires p.tkoUp == 0 && p.tko > 0 && b.nodeid == x + 1 && (viewed ==> b.nodeid != p.myId)
    requires b.timestamp == 0 && b.state == S_RUN && b.incarnation == 1
    ensures var n := After(p, x, 0, TwoLooks(b, viewed));
            n.block == b && (Running(n.state) <==> viewed)
  {
    var r := TwoLooks(b, viewed);
    var first := r[..1];
    assert first[..0] == [] && first[0] == r[0];
    assert After(p, x, 0, first[..0]) == InitialInfo(x, 0);
    assert After(p, x, 0, first) == Pass(p, InitialInfo(x, 0), r[0]);
    assert r[..|r| - 1] == first;
  }

  function AllLooks(blocks: seq<Block>, view: set<nat>): (looks: seq<seq<Option<Block>>>)
    ensures |looks| == |blocks| && forall x :: 0 <= x < |looks| ==> looks[x] == TwoLooks(blocks[x], x in view)
  {
    seq(|blocks|, x requires 0 <= x < |blocks| => TwoLooks(blocks[x], x in view))
  }

  lemma TwoLooksProper(b: Block, viewed: bool, x: nat)
    requires b.nodeid == x + 1 && b.incarnation == 1
    ensures Placed(x, TwoLooks(b, viewed)) && Incarnate(TwoLooks(b, viewed))
  {
    hide RanBy;
  }

  lemma LooksReach(blocks: seq<Block>, view: set<nat>)
    requires forall x :: 0 <= x < |blocks| ==> blocks[x].nodeid == x + 1 && blocks[x].incarnation == 1
    ensures Reached(AllLooks(blocks, view), blocks)
  {
    hide Placed, Incarnate;
    forall x | 0 <= x < |blocks|
      ensures Placed(x, TwoLooks(blocks[x], x in view)) && Incarnate(TwoLooks(blocks[x], x in view))
    {
      TwoLooksProper(blocks[x], x in view, x);
    }
  }

  /** A disk of running nodes that were all written at the same time. */
  predicate Uniform(blocks: seq<Block>)
  {
    forall x :: 0 <= x < |blocks| ==>
      blocks[x].nodeid == x + 1 && blocks[x].timestamp == 0 && blocks[x].state == S_RUN && blocks[x].incarnation == 1
  }

  lemma LooksShow(blocks: seq<Block>, view: set<nat>, me: nat)
    requires Uniform(blocks) && me !in view
    ensures var ni := AllAfter(Params(me + 1, 1, 0), 0, AllLooks(blocks, view));
            |ni| == |blocks| &&
            forall x :: 0 <= x < |ni| ==> ni[x].block == blocks[x] && (Running(ni[x].state) <==> x in view)
  {
    hide After, TwoLooks, Running;
    var p := Params(me + 1, 1, 0);
    forall x | 0 <= x < |blocks|
      ensures var n := After(p, x, 0, TwoLooks(blocks[x], x in view));
              n.block == blocks[x] && (Running(n.state) <==> x in view)
    {
      TwoLooksShow(p, x, blocks[x], x in view);
    }
  }

  lemma Acknowledged(ni: seq<Info>, blocks: seq<Block>, view: set<nat>, me: nat)
    requires |ni| == |blocks| && forall x :: 0 <= x < |ni| ==> ni[x].block == blocks[x] && (Running(ni[x].state) <==> x in view)
    requires forall x :: x in view ==> x < |blocks| && blocks[x].msg == M_ACK && blocks[x].arg == me + 1
    ensures ViewOf(ni) == view && Verdict(me + 1, ni) == 3
  {
    hide Running, SomeNack, SomeLowerBid;
    assert AllAck(me + 1, ni);
  }

  /** A bidder whose view acknowledges it wins with that view. */
  lemma WinsWith(blocks: seq<Block>, view: set<nat>, me: nat)
    requires Uniform(blocks) && me < |blocks| && me !in view && blocks[me].msg == M_BID
    requires forall x :: x in view ==> x < |blocks| && blocks[x].msg == M_ACK && blocks[x].arg == me + 1
    ensures Wins(Params(me + 1, 1, 0), 0, AllLooks(blocks, view), blocks, view, me)
  {
    hide AllAfter, Reached, ViewOf, Verdict, Running;
    LooksShow(blocks, view, me);
    Acknowledged(AllAfter(Params(me + 1, 1, 0), 0, AllLooks(blocks, view)), blocks, view, me);
    LooksReach(blocks, view);
  }

  /**
    Some snapshot that two daemons can reach makes both bidders winners, with given views, if and
    only if the views share nothing and contain neither bidder.
   */
  lemma TwoWinnersExactly(n: nat, viewA: set<nat>, viewB: set<nat>, a: nat, b: nat)
    requires a != b && a < n && b < n
    requires forall x :: x in viewA || x in viewB ==> x < n
    ensures BothWin(n, viewA, viewB, a, b) <==> Apart(viewA, viewB, a, b)
  {
    hide AllAfter, ViewOf, Cycled, Reached, AllAck, SomeNack, SomeLowerBid;
    if BothWin(n, viewA, viewB, a, b) {
      var blocks: seq<Block>, p: Params, now: int, looks: seq<seq<Option<Block>>>,
          q: Params, now': int, looks': seq<seq<Option<Block>>> :|
        |blocks| == n && Wins(p, now, looks, blocks, viewA, a) && Wins(q, now', looks', blocks, viewB, b);
      WinnersApart(blocks, p, now, looks, viewA, a, q, now', looks', viewB, b);
    }
    if Apart(viewA, viewB, a, b) {
      var blocks := SplitVote(n, viewA, a, b);
      WinsWith(blocks, viewA, a);
      WinsWith(blocks, viewB, b);
    }
  }

  lemma WinnersApart(blocks: seq<Block>, p: Params, now: int, looks: seq<seq<Option<Block>>>, viewA: set<nat>, a: nat,
                     q: Params, now': int, looks': seq<seq<Option<Block>>>, viewB: set<nat>, b: nat)
    requires a != b && Wins(p, now, looks, blocks, viewA, a) && Wins(q, now', looks', blocks, viewB, b)
    ensures Apart(viewA, viewB, a, b)
  {
    hide Cycled, Verdict, ViewOf, AllAfter;
    ReachedByCycle(p, now, looks, blocks);
    ReachedByCycle(q, now', looks', blocks);
    ElectionSafe(p, q, Earlier(p, now, looks), Earlier(q, now', looks'), blocks,
                 AllAfter(p, now, looks), AllAfter(q, now', looks'), a, b);
  }
}

/**
  What a quorum-disk daemon must do in each cycle (cman/qdisk/main.c:975-1091): when it bids, when
  it keeps or gives up a bid, and when a master stays master.
 */
module QdiskDuty {
  import opened Basics
  import opened QdiskNodes
  import opened QdiskElection

  /** Nobody claims to be master, or the first that does is us. */
  predicate Unchallenged(my: int, ni: seq<Info>)
  {
    (forall x :: 0 <= x < |ni| ==> !Claims(my, ni[x])) || FirstMaster(my, ni) == my
  }

  lemma NextStaysMaster(cfg: Settings, s: State, look: Look)
    requires s.status == S_MASTER && s.bidPending == 0
    ensures var t := Next(cfg, s, look);
            && (t.status == S_MASTER <==> look.enough && Unchallenged(cfg.myId, look.ni))
            && (!look.enough ==> t.status == S_NONE && t.bidPending == 0)
            && (look.enough && !Unchallenged(cfg.myId, look.ni) ==> t.status == S_RUN && t.upgrade == cfg.upgradeWait)
            && (look.enough && !Unchallenged(cfg.myId, look.ni) && FirstMaster(cfg.myId, look.ni) != 0 ==>
                  t.msg == Msg(M_NONE, s.msg.arg, (s.msg.seqno + 1) % 0x1_0000) && t.bidPending == 0)
  {
    SearchMeaning(cfg.myId, look.ni);
    hide FirstMaster, CountMasters, LowestId, FirstVote, LowestVote, AllAck, Claims;
  }

  /**
    In every run of cycles: a master stays master if and only if its score suffices and nobody it
    believes running claims to be master before it; challenged, it steps back and waits as after
    a start; without the score it is out.
   */
  lemma StaysMasterExactly(cfg: Settings, looks: seq<Look>)
    requires looks != [] && Cycles(cfg, looks[..|looks| - 1]).status == S_MASTER
    ensures var t, look := Cycles(cfg, looks), looks[|looks| - 1];
            && (t.status == S_MASTER <==> look.enough && Unchallenged(cfg.myId, look.ni))
            && (look.enough && !Unchallenged(cfg.myId, look.ni) ==> t.status == S_RUN && t.upgrade == cfg.upgradeWait)
            && (!look.enough ==> t.status == S_NONE)
  {
    hide Next, Unchallenged;
    BidStands(cfg, looks[..|looks| - 1]);
    NextStaysMaster(cfg, Cycles(cfg, looks[..|looks| - 1]), looks[|looks| - 1]);
  }

  /** A running daemon without a bid bids exactly when it must: no master, nobody lower, and the wait is over. */
  lemma NextBids(cfg: Settings, s: State, look: Look)
    requires s.status == S_RUN && s.bidPending == 0
    ensures var t := Next(cfg, s, look);
            && (t.bidPending > 0 <==>
                look.enough && FirstMaster(cfg.myId, look.ni) == 0 && LowestId(cfg.myId, look.ni) == cfg.myId && s.upgrade <= 1)
            && (t.bidPending > 0 ==> t.bidPending == 1 && t.msg == Msg(M_BID, s.msg.arg, (s.msg.seqno + 1) % 0x1_0000))
  {
    hide FirstMaster, CountMasters, LowestId, FirstVote, LowestVote, AllAck, SomeNack, SomeLowerBid;
  }

  /**
    In every run: such a daemon has a bid after the cycle if and only if its score suffices, nobody
    claims to be master, no running node has a lower id, and its wait has run out.
   */
  lemma BidsExactly(cfg: Settings, looks: seq<Look>)
    requires looks != []
    requires var s := Cycles(cfg, looks[..|looks| - 1]); s.status == S_RUN && s.bidPending == 0
    ensures var s, t, look := Cycles(cfg, looks[..|looks| - 1]), Cycles(cfg, looks), looks[|looks| - 1];
            && (t.bidPending > 0 <==>
                && look.enough && s.upgrade <= 1
                && (forall x :: 0 <= x < |look.ni| && Claims(cfg.myId, look.ni[x]) ==> look.ni[x].block.nodeid == 0)
                && (forall x :: 0 <= x < |look.ni| && Candidate(cfg.myId, look.ni[x]) ==> cfg.myId <= look.ni[x].block.nodeid))
            && (t.bidPending > 0 ==> t.msg.kind == M_BID)
  {
    hide Next, FirstMaster, LowestId, Claims, Candidate;
    var s, look := Cycles(cfg, looks[..|looks| - 1]), looks[|looks| - 1];
    NextBids(cfg, s, look);
    SearchMeaning(cfg.myId, look.ni);
  }

  lemma NextKeepsBid(cfg: Settings, s: State, look: Look)
    requires Standing(s) && s.bidPending > 0
    ensures var t, v := Next(cfg, s, look), Verdict(cfg.myId, look.ni);
            var led := FirstMaster(cfg.myId, look.ni) != 0;
            && (t.bidPending > 0 <==>
                look.enough && (led || v == 0 || (v == 3 && s.bidPending + 1 < cfg.masterWait)))
            && (t.bidPending > 0 && !led ==> t.bidPending == s.bidPending + 1)
            && (look.enough && !led && v == 1 ==> t.status == S_RUN && t.msg == LowestVote(cfg.myId, look.ni, s.msg).1)
            && (look.enough && !led && v == 2 ==> t.status == S_RUN && t.msg.kind == M_NONE)
  {
    hide FirstMaster, CountMasters, LowestId, FirstVote, LowestVote, AllAck, SomeNack, SomeLowerBid;
  }

  /**
    In every run: a bidder that sees no master keeps its bid exactly while the votes are incomplete,
    or complete too soon; a refusal withdraws it; and a lower bidder it believes running turns it
    into a vote for the lowest one.
   */
  lemma KeepsBidExactly(cfg: Settings, looks: seq<Look>)
    requires looks != [] && Cycles(cfg, looks[..|looks| - 1]).bidPending > 0
    requires looks[|looks| - 1].enough && FirstMaster(cfg.myId, looks[|looks| - 1].ni) == 0
    ensures var s, t, ni := Cycles(cfg, looks[..|looks| - 1]), Cycles(cfg, looks), looks[|looks| - 1].ni;
            && (t.bidPending > 0 <==>
                if AllAck(cfg.myId, ni) then s.bidPending + 1 < cfg.masterWait
                else !SomeNack(cfg.myId, ni) && !SomeLowerBid(cfg.myId, ni))
            && (!AllAck(cfg.myId, ni) && !SomeNack(cfg.myId, ni) && SomeLowerBid(cfg.myId, ni) ==>
                  t.msg.kind == M_ACK && t.msg.arg < cfg.myId &&
                  forall x :: 0 <= x < |ni| && Running(ni[x].state) && BidsBelow(ni[x], cfg.myId) ==> t.msg.arg <= ni[x].block.nodeid)
            && (!AllAck(cfg.myId, ni) && SomeNack(cfg.myId, ni) ==> t.msg.kind == M_NONE)
  {
    hide Next, FirstMaster, AllAck, SomeNack, SomeLowerBid, BidsBelow, LowestVote;
    var s, look := Cycles(cfg, looks[..|looks| - 1]), looks[|looks| - 1];
    BidStands(cfg, looks[..|looks| - 1]);
    NextKeepsBid(cfg, s, look);
    LowestVoteMeaning(cfg.myId, look.ni, s.msg);
  }

  // ---------- what a daemon sees

  /** A master is seen if and only if a block says so, ours or that of a node believed to be more than starting. */
  lemma MasterSeen(my: int, ni: seq<Info>)
    ensures FirstMaster(my, ni) != 0 <==>
            exists x :: 0 <= x < |ni| && ni[x].block.state == S_MASTER && ni[x].block.nodeid != 0 &&
                        (ni[x].block.nodeid == my || ni[x].state >= S_RUN)
  {
    hide FirstMaster;
    SearchMeaning(my, ni);
    if x :| 0 <= x < |ni| && ni[x].block.state == S_MASTER && ni[x].block.nodeid != 0 &&
            (ni[x].block.nodeid == my || ni[x].state >= S_RUN) {
      assert Claims(my, ni[x]);
    }
  }

  /** Our id is the lowest if and only if no node believed to be more than starting, and no claim, has a lower one. */
  lemma LowestSeen(my: int, ni: seq<Info>)
    ensures LowestId(my, ni) == my <==>
            forall x :: 0 <= x < |ni| && ni[x].state >= S_RUN && ni[x].block.state != S_MASTER ==> my <= ni[x].block.nodeid
  {
    hide LowestId;
    SearchMeaning(my, ni);
  }

  // ---------- votes

  /** The node bids and we would vote for it. */
  predicate Electable(my: int, n: Info)
  {
    n.state == S_RUN && n.block.msg == M_BID && n.block.nodeid < my
  }

  /** A vote names the first bidder in slot order and the number of its bid; without one nothing is said anew. */
  lemma {:induction false} VoteExactly(my: int, ni: seq<Info>, msg: Msg)
    ensures forall x :: 0 <= x < |ni| && Electable(my, ni[x]) && (forall y :: 0 <= y < x ==> !Electable(my, ni[y])) ==>
              FirstVote(my, ni, msg) == Msg(M_ACK, ni[x].block.nodeid, ni[x].block.seqno)
    ensures (forall x :: 0 <= x < |ni| ==> !Electable(my, ni[x])) ==> FirstVote(my, ni, msg) == msg
  {
    if ni != [] && !Electable(my, ni[0]) {
      var rest := ni[1..];
      VoteExactly(my, rest, msg);
      assert forall x :: 0 < x < |ni| ==> ni[x] == rest[x - 1];
      forall x | 0 <= x < |ni| && Electable(my, ni[x]) && (forall y :: 0 <= y < x ==> !Electable(my, ni[y]))
        ensures FirstVote(my, ni, msg) == Msg(M_ACK, ni[x].block.nodeid, ni[x].block.seqno)
      {
        assert forall y :: 0 <= y < x - 1 ==> rest[y] == ni[y + 1];
      }
    }
  }

  lemma NextVotes(cfg: Settings, s: State, look: Look)
    requires s.status == S_RUN && s.bidPending == 0 && look.enough && FirstMaster(cfg.myId, look.ni) == 0
    requires Next(cfg, s, look).bidPending == 0
    ensures Next(cfg, s, look).msg == FirstVote(cfg.myId, look.ni, s.msg)
  {
    hide FirstMaster, CountMasters, LowestId, FirstVote, LowestVote, AllAck, SomeNack, SomeLowerBid;
  }

  /**
    In every run: a running daemon that sees no master and does not bid itself votes for the first
    bidder below it, answering that very bid, and says nothing new when there is none.
   */
  lemma VotesExactly(cfg: Settings, looks: seq<Look>)
    requires looks != [] && Cycles(cfg, looks).bidPending == 0
    requires var s := Cycles(cfg, looks[..|looks| - 1]); s.status == S_RUN && s.bidPending == 0
    requires looks[|looks| - 1].enough && FirstMaster(cfg.myId, looks[|looks| - 1].ni) == 0
    ensures var s, t, ni := Cycles(cfg, looks[..|looks| - 1]), Cycles(cfg, looks), looks[|looks| - 1].ni;
            && (forall x :: 0 <= x < |ni| && Electable(cfg.myId, ni[x]) && (forall y :: 0 <= y < x ==> !Electable(cfg.myId, ni[y])) ==>
                  t.msg == Msg(M_ACK, ni[x].block.nodeid, ni[x].block.seqno))
            && ((forall x :: 0 <= x < |ni| ==> !Electable(cfg.myId, ni[x])) ==> t.msg == s.msg)
  {
    hide Next, FirstMaster, FirstVote, Electable;
    var s, look := Cycles(cfg, looks[..|looks| - 1]), looks[|looks| - 1];
    NextVotes(cfg, s, look);
    VoteExactly(cfg.myId, look.ni, s.msg);
  }

  // ---------- the wait before a bid

  lemma NextWaits(cfg: Settings, s: State, look: Look)
    requires Standing(s)
    ensures var t := Next(cfg, s, look);
            && (t.status == S_RUN && s.status != S_RUN ==> t.upgrade == cfg.upgradeWait && (t.upgrade > 0 ==> t.bidPending == 0))
            && (t.status == S_RUN && s.status == S_RUN ==>
                  && t.upgrade == (if s.upgrade > 0 then s.upgrade - 1 else 0)
                  && (s.bidPending == 0 && s.upgrade > 1 ==> t.bidPending == 0))
  {
    hide FirstMaster, CountMasters, LowestId, FirstVote, LowestVote, AllAck, SomeNack, SomeLowerBid;
  }

  /** The daemon has run since its j-th cycle, in which it came to run. */
  predicate RunsSince(cfg: Settings, looks: seq<Look>, j: nat)
  {
    && 0 < j <= |looks| && Cycles(cfg, looks).status == S_RUN
    && var before := looks[..|looks| - 1];
       if |looks| == j then Cycles(cfg, before).status != S_RUN else RunsSince(cfg, before, j)
  }

  /**
    In every run: a daemon that came to run, by gaining its score or by stepping back as master, has
    no bid in any of the next upgradeWait cycles through which it keeps running.
   */
  lemma {:induction false} NoEarlyBid(cfg: Settings, looks: seq<Look>, j: nat)
    requires RunsSince(cfg, looks, j) && |looks| < j + cfg.upgradeWait
    ensures var t := Cycles(cfg, looks); t.bidPending == 0 && t.upgrade == cfg.upgradeWait - (|looks| - j)
    decreases |looks|
  {
    var before, look := looks[..|looks| - 1], looks[|looks| - 1];
    BidStands(cfg, before);
    hide Next, Standing;
    NextWaits(cfg, Cycles(cfg, before), look);
    if |looks| > j {
      NoEarlyBid(cfg, before, j);
      RanBefore(cfg, before, j);
    }
  }

  lemma RanBefore(cfg: Settings, looks: seq<Look>, j: nat)
    requires RunsSince(cfg, looks, j)
    ensures Cycles(cfg, looks).status == S_RUN
  {
  }
}

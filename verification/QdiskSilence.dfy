/**
  When a quorum-disk daemon gives a node up and when it believes one (cman/qdisk/main.c:162-422),
  in terms of what it has read: the timestamps that the node's readable, running blocks have shown.
 */
module QdiskSilence {
  import opened Basics
  import opened QdiskNodes

  // ---------- what the looks have shown

  /** A look that tells something about another node's heartbeat. */
  predicate Counts(p: Params, look: Option<Block>)
  {
    look.Some? && look.value.nodeid != p.myId && Running(look.value.state)
  }

  /** The timestamps shown, after the one at which we started. */
  function Stamps(p: Params, start: int, looks: seq<Option<Block>>): (s: seq<int>)
    ensures |s| > 0
  {
    if looks == [] then [start]
    else
      var s, look := Stamps(p, start, looks[..|looks| - 1]), looks[|looks| - 1];
      if Counts(p, look) then s + [look.value.timestamp] else s
  }

  /** The last timestamp has been shown again more than m times in a row. */
  predicate SilentFor(s: seq<int>, m: nat)
  {
    |s| >= m + 2 && forall i :: |s| - m - 2 <= i < |s| ==> s[i] == s[|s| - 1]
  }

  /** How many of the timestamps differ from the one before. */
  function Changes(s: seq<int>): nat
  {
    if |s| <= 1 then 0 else Changes(s[..|s| - 1]) + (if s[|s| - 1] != s[|s| - 2] then 1 else 0)
  }

  /** How often the last timestamp was repeated. */
  function Again(s: seq<int>): nat
  {
    if |s| > 1 && s[|s| - 1] == s[|s| - 2] then Again(s[..|s| - 1]) + 1 else 0
  }

  lemma {:induction false} AgainExactly(s: seq<int>, m: nat)
    requires s != []
    ensures Again(s) > m <==> SilentFor(s, m)
    decreases |s|
  {
    var n := |s|;
    if n > 1 && s[n - 1] == s[n - 2] {
      var t := s[..n - 1];
      if m > 0 {
        AgainExactly(t, m - 1);
        assert forall i :: 0 <= i < n - 1 ==> t[i] == s[i];
      }
    }
  }

  // ---------- runs from any record

  function AfterFrom(p: Params, n: Info, looks: seq<Option<Block>>): Info
  {
    if looks == [] then n else Pass(p, AfterFrom(p, n, looks[..|looks| - 1]), looks[|looks| - 1])
  }

  lemma {:induction false} AfterIsFrom(p: Params, x: nat, now: int, looks: seq<Option<Block>>)
    ensures After(p, x, now, looks) == AfterFrom(p, InitialInfo(x, now), looks)
  {
    if looks != [] { AfterIsFrom(p, x, now, looks[..|looks| - 1]); }
  }

  /** The record follows the timestamps: always the last one, and its repetitions as long as the node is of interest. */
  predicate Follows(n: Info, s: seq<int>)
    requires s != []
  {
    n.lastSeen == s[|s| - 1] && (n.seen > 0 || Running(n.state) ==> n.misses == Again(s))
  }

  lemma RefreshFollows(p: Params, n: Info, s: seq<int>, look: Option<Block>)
    requires s != [] && Follows(n, s)
    ensures Follows(Refresh(p, n, look), if Counts(p, look) then s + [look.value.timestamp] else s)
  {
    if Counts(p, look) {
      var t := s + [look.value.timestamp];
      assert t[..|t| - 1] == s;
    }
  }

  lemma TransitionFollows(p: Params, n: Info, s: seq<int>)
    requires s != [] && Follows(n, s)
    ensures Follows(Transition(p, n), s)
  {
  }

  lemma {:induction false} AlwaysFollows(p: Params, x: nat, now: int, looks: seq<Option<Block>>)
    ensures Follows(After(p, x, now, looks), Stamps(p, now, looks))
  {
    if looks != [] {
      var k := |looks| - 1;
      AlwaysFollows(p, x, now, looks[..k]);
      hide Follows, Refresh, Transition;
      var n, s := After(p, x, now, looks[..k]), Stamps(p, now, looks[..k]);
      RefreshFollows(p, n, s, looks[k]);
      TransitionFollows(p, Refresh(p, n, looks[k]), Stamps(p, now, looks));
    }
  }

  /** The incarnation in the block that was read last. */
  function LastIncarnation(looks: seq<Option<Block>>): nat
  {
    if looks == [] then 0
    else if looks[|looks| - 1].Some? then looks[|looks| - 1].value.incarnation
    else LastIncarnation(looks[..|looks| - 1])
  }

  lemma {:induction false} BlockIncarnation(p: Params, x: nat, now: int, looks: seq<Option<Block>>)
    ensures After(p, x, now, looks).block.incarnation == LastIncarnation(looks)
  {
    if looks != [] { BlockIncarnation(p, x, now, looks[..|looks| - 1]); }
  }

  // ---------- giving a believed node up

  /** The node's block still shows it running in the incarnation it had. */
  predicate SameLife(before: seq<Option<Block>>, b: Block)
  {
    Running(b.state) && b.incarnation == LastIncarnation(before)
  }

  /** A record that says nothing yet: at start, or after a clean shutdown. */
  predicate Blank(n: Info)
  {
    n.state == S_NONE && n.seen == 0 && n.misses == 0 && n.incarnation == 0 && n.evil == 0
  }

  /** The record of a node just given up: its incarnation is remembered as evil, and a node past its start must be seen anew. */
  predicate GivenUp(t: Info, incarnation: nat, seen: nat, b: Block)
  {
    && t.state == S_EVICT && t.block == b.(state := S_EVICT) && t.evil == t.incarnation == incarnation
    && (b.state >= S_RUN ==> t.seen == 0) && (b.state < S_RUN ==> t.seen >= seen)
  }

  lemma JudgedExactly(p: Params, n: Info, b: Block)
    requires Running(n.state) && Believed(n)
    ensures var m := Refresh(p, n, Some(b));
            var same := Running(b.state) && b.incarnation == n.block.incarnation;
            && (Case(p, m) == 2 <==> same && m.misses > p.tko) && Case(p, m) != 3
            && (Pass(p, n, Some(b)).state == S_EVICT <==> same && m.misses > p.tko)
            && (Running(Pass(p, n, Some(b)).state) <==> same && m.misses <= p.tko)
            && (Pass(p, n, Some(b)).state == S_NONE <==> !same)
            && (!same ==> Blank(Pass(p, n, Some(b))))
            && (Running(Pass(p, n, Some(b)).state) ==> Pass(p, n, Some(b)).state == b.state)
            && (same && m.misses > p.tko ==> GivenUp(Pass(p, n, Some(b)), n.incarnation, n.seen, b))
  {
  }

  /**
    A node believed running whose block can be read: it is given up for silence if and only if its
    block still shows the same running node and has repeated its timestamp more than tko times in a
    row; it stays believed, in the state its block shows, if and only if the timestamp was repeated
    less often; and it is off line, with a blank record, if and only if the block shows no such node.
   */
  lemma SilenceExactly(p: Params, x: nat, now: int, looks: seq<Option<Block>>)
    requires looks != [] && Incarnate(looks) && looks[|looks| - 1].Some?
    requires Running(After(p, x, now, looks[..|looks| - 1]).state)
    ensures var before, b := looks[..|looks| - 1], looks[|looks| - 1].value;
            var silent := SilentFor(Stamps(p, now, looks), p.tko);
            var t := After(p, x, now, looks);
            && (t.state == S_EVICT <==> SameLife(before, b) && silent)
            && (Running(t.state) <==> SameLife(before, b) && !silent)
            && (t.state == S_NONE <==> !SameLife(before, b))
            && (!SameLife(before, b) ==> Blank(t))
            && (Running(t.state) ==> t.state == b.state)
            && var m := Refresh(p, After(p, x, now, before), Some(b));
               (Case(p, m) == 2 <==> SameLife(before, b) && silent) && Case(p, m) != 3
  {
    hide Follows, Refresh, Transition, Case, Pass, SilentFor;
    var k := |looks| - 1;
    var before, b := looks[..k], looks[k].value;
    var n := After(p, x, now, before);
    PrefixIncarnate(looks, k);
    OnlyLiveBelieved(p, x, now, before);
    BlockIncarnation(p, x, now, before);
    JudgedExactly(p, n, b);
    AlwaysFollows(p, x, now, before);
    RefreshFollows(p, n, Stamps(p, now, before), looks[k]);
    StillRuns(p, n, b);
    FollowsMisses(Refresh(p, n, Some(b)), Stamps(p, now, looks));
    AgainExactly(Stamps(p, now, looks), p.tko);
  }

  lemma StillRuns(p: Params, n: Info, b: Block)
    ensures Refresh(p, n, Some(b)).state == n.state
  {
  }

  lemma FollowsMisses(n: Info, s: seq<int>)
    requires s != [] && Follows(n, s) && Running(n.state)
    ensures n.misses == Again(s)
  {
  }

  /** A block that cannot be read gives nobody up for silence. */
  lemma UnreadableKeeps(p: Params, x: nat, now: int, looks: seq<Option<Block>>)
    requires |looks| > 1 && looks[|looks| - 1].None? && Running(After(p, x, now, looks[..|looks| - 1]).state)
    ensures After(p, x, now, looks).state != S_EVICT
  {
    var before := looks[..|looks| - 1];
    var m := Refresh(p, After(p, x, now, before[..|before| - 1]), before[|before| - 1]);
    AfterCase(p, m);
  }

  lemma AfterCase(p: Params, m: Info)
    requires Running(Transition(p, m).state)
    ensures Transition(p, Transition(p, m)).state != S_EVICT
  {
  }

  // ---------- coming to believe a node

  /** While nothing is decided the record counts every change and every repetition. */
  predicate Counting(n: Info, s: seq<int>)
    requires s != []
  {
    && n.state == S_NONE && n.incarnation == 0 && n.evil == 0
    && n.lastSeen == s[|s| - 1] && n.misses == Again(s) && n.seen == Changes(s)
  }

  lemma RefreshCounting(p: Params, n: Info, s: seq<int>, look: Option<Block>)
    requires s != [] && Counting(n, s)
    ensures Counting(Refresh(p, n, look), if Counts(p, look) then s + [look.value.timestamp] else s)
  {
    if Counts(p, look) {
      var t := s + [look.value.timestamp];
      assert t[..|t| - 1] == s;
    }
  }

  lemma DecideExactly(p: Params, m: Info, s: seq<int>)
    requires s != [] && Counting(m, s)
    ensures var t := Transition(p, m);
            && (t.state == S_EVICT <==> Again(s) > p.tko && Running(m.block.state))
            && (Running(t.state) <==> !(Again(s) > p.tko && Running(m.block.state)) && Changes(s) > p.tkoUp)
            && (t.state == S_NONE ==> Counting(t, s))
  {
  }

  lemma {:induction false} StaysCounting(p: Params, n: Info, looks: seq<Option<Block>>)
    requires Blank(n)
    requires forall k :: 0 <= k <= |looks| ==> AfterFrom(p, n, looks[..k]).state == S_NONE
    ensures Counting(AfterFrom(p, n, looks), Stamps(p, n.lastSeen, looks))
  {
    if looks != [] {
      var k := |looks| - 1;
      var before := looks[..k];
      forall i | 0 <= i <= |before| ensures AfterFrom(p, n, before[..i]).state == S_NONE {
        assert before[..i] == looks[..i];
      }
      StaysCounting(p, n, before);
      hide Counting, Refresh, Transition;
      var m := AfterFrom(p, n, before);
      RefreshCounting(p, m, Stamps(p, n.lastSeen, before), looks[k]);
      DecideExactly(p, Refresh(p, m, looks[k]), Stamps(p, n.lastSeen, looks));
      assert looks[..|looks|] == looks;
    }
  }

  /**
    A node about which nothing has been decided since its record was blank: reading its block makes
    it believed if and only if it has shown more than tkoUp changed timestamps, and has not been
    silent for too long, and that is the first thing decided about it.
   */
  lemma BelievedExactly(p: Params, n: Info, looks: seq<Option<Block>>)
    requires Blank(n) && looks != [] && looks[|looks| - 1].Some?
    requires forall k :: 0 <= k < |looks| ==> AfterFrom(p, n, looks[..k]).state == S_NONE
    ensures var s, b := Stamps(p, n.lastSeen, looks), looks[|looks| - 1].value;
            var t := AfterFrom(p, n, looks);
            && (t.state == S_EVICT <==> SilentFor(s, p.tko) && Running(b.state))
            && (Running(t.state) <==> !(SilentFor(s, p.tko) && Running(b.state)) && Changes(s) > p.tkoUp)
  {
    var k := |looks| - 1;
    var before := looks[..k];
    forall i | 0 <= i <= |before| ensures AfterFrom(p, n, before[..i]).state == S_NONE {
      assert before[..i] == looks[..i];
    }
    StaysCounting(p, n, before);
    hide Counting, Transition, SilentFor, AfterFrom;
    var m := AfterFrom(p, n, before);
    RefreshCounting(p, m, Stamps(p, n.lastSeen, before), looks[k]);
    DecideExactly(p, Refresh(p, m, looks[k]), Stamps(p, n.lastSeen, looks));
    AgainExactly(Stamps(p, n.lastSeen, looks), p.tko);
    LastPass(p, n, looks);
  }

  lemma LastPass(p: Params, n: Info, looks: seq<Option<Block>>)
    requires looks != [] && looks[|looks| - 1].Some?
    ensures var m := Refresh(p, AfterFrom(p, n, looks[..|looks| - 1]), looks[|looks| - 1]);
            AfterFrom(p, n, looks) == Transition(p, m) && m.block == looks[|looks| - 1].value
  {
    hide Transition;
  }

  lemma StartIsBlank(x: nat, now: int)
    ensures Blank(InitialInfo(x, now)) && InitialInfo(x, now).lastSeen == now
  {
  }

  // ---------- who gets a notice

  lemma {:induction false} NoticesExactly(p: Params, master: bool, ni: seq<Info>, k: nat, x: nat)
    requires k <= |ni| && x < |ni| && forall y :: 0 <= y < |ni| ==> ni[y].block.nodeid == y + 1
    ensures x + 1 in Notices(p, master, ni, k) <==>
            x < k && ((Case(p, ni[x]) == 2 && master) || Case(p, ni[x]) == 3)
  {
    hide Case;
    if k > 0 { NoticesExactly(p, master, ni, k - 1, x); }
  }

  /**
    After any number of cycles, a node believed running so far whose block can be read is sent an
    eviction notice if and only if we are master and it has fallen silent.
   */
  lemma NoticeForSilence(p: Params, now: int, looks: seq<seq<Option<Block>>>, k: nat, master: bool, x: nat)
    requires x < |looks|
    requires forall y :: 0 <= y < |looks| ==> |looks[y]| == k + 1 && Placed(y, looks[y])
    requires Incarnate(looks[x]) && looks[x][k].Some? && Running(After(p, x, now, looks[x][..k]).state)
    ensures x + 1 in Notices(p, master, Refreshed(p, now, looks, k), |looks|) <==>
            master && SameLife(looks[x][..k], looks[x][k].value) && SilentFor(Stamps(p, now, looks[x]), p.tko)
  {
    hide SilentFor, Case, Notices, After, Stamps;
    var ni := Refreshed(p, now, looks, k);
    forall y | 0 <= y < |looks| ensures ni[y].block.nodeid == y + 1 {
      assert Placed(y, looks[y][..k]);
      OwnNumber(p, y, now, looks[y][..k]);
    }
    NoticesExactly(p, master, ni, |looks|, x);
    SilenceExactly(p, x, now, looks[x]);
  }

  /**
    A node given up for silence that writes its block again, itself and in the same incarnation, is
    undead: it gets a notice from everybody, master or not, and is not believed.
   */
  lemma UndeadExactly(p: Params, n: Info, b: Block)
    requires Running(n.state) && Believed(n) && Pass(p, n, Some(b)).state == S_EVICT
    ensures var t := Pass(p, n, Some(b));
            forall c: Block :: c.nodeid != p.myId && Running(c.state) && c.incarnation == b.incarnation ==>
              var m := Refresh(p, t, Some(c));
              && (Case(p, m) == 3 <==> c.timestamp != t.lastSeen && c.updatenode == c.nodeid)
              && (Case(p, m) == 2 <==> c.timestamp == t.lastSeen)
  {
  }
}

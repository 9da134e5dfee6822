/**
  Replies to a client of the cluster manager (cman/daemon/daemon.c:62-107, 137-166): a reply goes
  out at once when nothing is queued, and what the socket does not take waits in a queue.
 */
module ReplyQueue {
  import opened Basics

  /** A queued reply and how much of it has gone out. */
  datatype Reply = Reply(buf: seq<byte>, offset: nat)

  /** What a non-blocking send does: it takes some bytes, would block, or fails. */
  datatype Outcome = Took(n: nat) | WouldBlock | Failed

  /**
    One connection: its queue, the counter kept beside it, everything the socket has taken, the
    replies that were accepted so far, and whether the client is still connected.
   */
  datatype Conn = Conn(queue: seq<Reply>, count: nat, sent: seq<byte>, accepted: seq<seq<byte>>, open: bool)

  const NEW := Conn([], 0, [], [], true)

  /** No socket takes more than it is offered. */
  function Taken(o: Outcome, offered: nat): int
  {
    if o.Took? then (if o.n < offered then o.n else offered) else -1
  }

  function Unsent(q: Reply): seq<byte>
  {
    if q.offset <= |q.buf| then q.buf[q.offset..] else []
  }

  // ---------- the two handlers on values

  function Replied(c: Conn, msg: seq<byte>, o: Outcome, max: nat): Conn
  {
    if !c.open then c
    else
      var ret := if c.queue != [] then -1 else Taken(o, |msg|);
      var again := c.queue != [] || o.WouldBlock?;
      if (ret > 0 && ret != |msg|) || again then
        if c.count > max then Conn([], 0, c.sent, c.accepted, false)
        else
          var offset := if ret > 0 then ret else 0;
          c.(queue := c.queue + [Reply(msg, offset)], count := c.count + 1,
             sent := c.sent + msg[..offset], accepted := c.accepted + [msg])
      else if ret > 0 then c.(sent := c.sent + msg, accepted := c.accepted + [msg])
      else c
  }

  /** The head of the queue goes out whole. */
  function Popped(c: Conn): Conn
    requires c.queue != []
  {
    c.(queue := c.queue[1..], count := if c.count > 0 then c.count - 1 else 0, sent := c.sent + Unsent(c.queue[0]))
  }

  /** Only n bytes of the head go out. */
  function Advanced(c: Conn, n: nat): Conn
    requires c.queue != [] && n <= |Unsent(c.queue[0])|
  {
    var q := c.queue[0];
    c.(queue := [q.(offset := q.offset + n)] + c.queue[1..], sent := c.sent + Unsent(q)[..n])
  }

  function Flushed(c: Conn, os: seq<Outcome>): Conn
    decreases |os|
  {
    if !c.open || c.queue == [] || os == [] then c
    else
      var rest := Unsent(c.queue[0]);
      var ret := Taken(os[0], |rest|);
      if ret == |rest| then Flushed(Popped(c), os[1..])
      else if ret > 0 then Advanced(c, ret)
      else c
  }

  datatype Event = Answer(msg: seq<byte>, outcome: Outcome) | Writable(outcomes: seq<Outcome>)

  function Step(c: Conn, e: Event, max: nat): Conn
  {
    match e
    case Answer(msg, o) => Replied(c, msg, o, max)
    case Writable(os) => Flushed(c, os)
  }

  function Run(es: seq<Event>, max: nat): Conn
  {
    if es == [] then NEW else Step(Run(es[..|es| - 1], max), es[|es| - 1], max)
  }

  // ---------- the stream

  function Remainder(queue: seq<Reply>): seq<byte>
  {
    if queue == [] then [] else Unsent(queue[0]) + Remainder(queue[1..])
  }

  function Concat(ms: seq<seq<byte>>): seq<byte>
  {
    if ms == [] then [] else Concat(ms[..|ms| - 1]) + ms[|ms| - 1]
  }

  predicate Intact(c: Conn, max: nat)
  {
    && c.count == |c.queue| <= max + 1
    && (forall i :: 0 <= i < |c.queue| ==> c.queue[i].offset < |c.queue[i].buf|)
    && if c.open then c.sent + Remainder(c.queue) == Concat(c.accepted) else c.sent <= Concat(c.accepted)
  }

  lemma {:induction false} RemainderGrows(queue: seq<Reply>, q: Reply)
    ensures Remainder(queue + [q]) == Remainder(queue) + Unsent(q)
  {
    hide Unsent;
    var more := queue + [q];
    if queue == [] {
      assert more[1..] == [] && more[0] == q;
      assert Remainder(more) == Unsent(q) + [];
    } else {
      assert more[1..] == queue[1..] + [q] && more[0] == queue[0];
      RemainderGrows(queue[1..], q);
      var head, tail := Unsent(queue[0]), Remainder(queue[1..]);
      assert head + (tail + Unsent(q)) == head + tail + Unsent(q);
    }
  }

  lemma ConcatGrows(ms: seq<seq<byte>>, m: seq<byte>)
    ensures Concat(ms + [m]) == Concat(ms) + m
  {
    assert (ms + [m])[..|ms|] == ms;
  }

  /** A queued reply: either the queue holds what is before it, or part of it is out already. */
  lemma QueuedIntact(c: Conn, msg: seq<byte>, offset: nat, max: nat)
    requires Intact(c, max) && c.open && c.count <= max && offset < |msg| && (c.queue != [] ==> offset == 0)
    ensures Intact(c.(queue := c.queue + [Reply(msg, offset)], count := c.count + 1,
                      sent := c.sent + msg[..offset], accepted := c.accepted + [msg]), max)
  {
    hide Remainder, Concat;
    RemainderGrows(c.queue, Reply(msg, offset));
    ConcatGrows(c.accepted, msg);
    var r, out, left := Remainder(c.queue), msg[..offset], msg[offset..];
    if c.queue == [] { NoRemainder(); }
    assert out + left == msg;
    InOrder(c.sent, r, out, left);
  }

  lemma InOrder(sent: seq<byte>, r: seq<byte>, out: seq<byte>, left: seq<byte>)
    requires r == [] || out == []
    ensures sent + out + (r + left) == sent + r + (out + left)
  {
  }

  lemma NoRemainder()
    ensures Remainder([]) == []
  {
  }

  lemma SentIntact(c: Conn, msg: seq<byte>, max: nat)
    requires Intact(c, max) && c.open && c.queue == []
    ensures Intact(c.(sent := c.sent + msg, accepted := c.accepted + [msg]), max)
  {
    hide Concat;
    ConcatGrows(c.accepted, msg);
    assert c.sent + [] == c.sent && c.sent + msg + [] == c.sent + msg;
  }

  lemma RepliedIntact(c: Conn, msg: seq<byte>, o: Outcome, max: nat)
    requires Intact(c, max) && msg != []
    ensures Intact(Replied(c, msg, o, max), max)
  {
    if c.open {
      var ret := if c.queue != [] then -1 else Taken(o, |msg|);
      if (ret > 0 && ret != |msg|) || c.queue != [] || o.WouldBlock? {
        if c.count <= max { QueuedIntact(c, msg, if ret > 0 then ret else 0, max); }
      } else if ret > 0 {
        SentIntact(c, msg, max);
      }
    }
  }

  lemma PoppedIntact(c: Conn, max: nat)
    requires Intact(c, max) && c.open && c.queue != []
    ensures Intact(Popped(c), max)
  {
    hide Concat, Unsent;
    var rest, tail := Unsent(c.queue[0]), Remainder(c.queue[1..]);
    assert c.sent + rest + tail == c.sent + (rest + tail);
  }

  lemma AdvancedIntact(c: Conn, n: nat, max: nat)
    requires Intact(c, max) && c.open && c.queue != [] && n < |Unsent(c.queue[0])|
    ensures Intact(Advanced(c, n), max)
  {
    hide Unsent, Remainder, Concat;
    UnsentSplit(c.queue[0], n);
    AdvancedStream(c, n);
  }

  /** A short send moves bytes from the queue to the client and loses none. */
  lemma AdvancedStream(c: Conn, n: nat)
    requires c.queue != [] && n < |Unsent(c.queue[0])|
    ensures Advanced(c, n).sent + Remainder(Advanced(c, n).queue) == c.sent + Remainder(c.queue)
  {
    hide Unsent, Remainder;
    var q, tail := c.queue[0], c.queue[1..];
    var moved := q.(offset := q.offset + n);
    UnsentSplit(q, n);
    assert [q] + tail == c.queue;
    RemainderOf(q, tail);
    RemainderOf(moved, tail);
    Regroup(c.sent, Unsent(q)[..n], Unsent(moved), Remainder(tail));
  }

  lemma RemainderOf(q: Reply, tail: seq<Reply>)
    ensures Remainder([q] + tail) == Unsent(q) + Remainder(tail)
  {
    hide Unsent;
    assert ([q] + tail)[1..] == tail;
  }

  lemma Regroup(sent: seq<byte>, out: seq<byte>, left: seq<byte>, more: seq<byte>)
    ensures sent + out + (left + more) == sent + ((out + left) + more)
  {
  }

  lemma UnsentSplit(q: Reply, n: nat)
    requires n < |Unsent(q)|
    ensures q.offset + n < |q.buf| && Unsent(q) == Unsent(q)[..n] + Unsent(q.(offset := q.offset + n))
  {
  }

  lemma {:induction false} FlushedIntact(c: Conn, os: seq<Outcome>, max: nat)
    requires Intact(c, max)
    ensures Intact(Flushed(c, os), max)
    decreases |os|
  {
    if c.open && c.queue != [] && os != [] {
      hide Intact, Popped, Advanced, Unsent;
      var rest := Unsent(c.queue[0]);
      var ret := Taken(os[0], |rest|);
      if ret == |rest| {
        PoppedIntact(c, max);
        FlushedIntact(Popped(c), os[1..], max);
      } else if ret > 0 {
        AdvancedIntact(c, ret, max);
      }
    }
  }

  /** Replies are never empty: they carry a header. */
  predicate Headed(es: seq<Event>)
  {
    forall i :: 0 <= i < |es| && es[i].Answer? ==> es[i].msg != []
  }

  /**
    For every sequence of full, short, blocked and failed sends: what the client has received,
    followed by what is still queued, is the accepted replies in order and nothing else; the
    counter is the queue's length and never exceeds the limit by more than one.
   */
  lemma {:induction false} StreamIntact(es: seq<Event>, max: nat)
    requires Headed(es)
    ensures Intact(Run(es, max), max)
  {
    if es != [] {
      var before, e := es[..|es| - 1], es[|es| - 1];
      StreamIntact(before, max);
      if e.Answer? { RepliedIntact(Run(before, max), e.msg, e.outcome, max); }
      else { FlushedIntact(Run(before, max), e.outcomes, max); }
    }
  }

  /** A reply is accepted exactly when something of it went out or it was queued, and dropped replies leave no trace. */
  lemma AcceptedExactly(c: Conn, msg: seq<byte>, o: Outcome, max: nat)
    requires Intact(c, max) && c.open && msg != []
    ensures var d := Replied(c, msg, o, max);
            && (d.accepted == c.accepted + [msg] <==>
                if c.queue != [] || o.WouldBlock? then c.count <= max else o.Took? && o.n > 0)
            && (d.accepted != c.accepted + [msg] ==> d.sent == c.sent && d.accepted == c.accepted)
            && (!d.open <==> c.count > max && (c.queue != [] || o.WouldBlock?))
  {
  }

  /** With nothing queued a reply goes out at once, as far as the socket takes it, and only the rest is queued. */
  lemma SentAtOnce(c: Conn, msg: seq<byte>, n: nat, max: nat)
    requires Intact(c, max) && c.open && c.queue == [] && msg != []
    ensures var d := Replied(c, msg, Took(n), max);
            if n >= |msg| then d.sent == c.sent + msg && d.queue == []
            else d.sent == c.sent + msg[..n] && (n > 0 ==> d.queue == [Reply(msg, n)])
  {
    assert msg[..|msg|] == msg && c.sent + [] == c.sent;
  }

  /** Flushing accepts nothing and forgets nothing that was accepted. */
  lemma {:induction false} FlushAccepts(c: Conn, os: seq<Outcome>)
    ensures Flushed(c, os).accepted == c.accepted && Flushed(c, os).open == c.open
    decreases |os|
  {
    if c.open && c.queue != [] && os != [] {
      var ret := Taken(os[0], |Unsent(c.queue[0])|);
      if ret == |Unsent(c.queue[0])| { FlushAccepts(Popped(c), os[1..]); }
    }
  }

  /** A socket that takes anything of the head of the queue gets as much of it as it takes. */
  lemma FlushSends(c: Conn, os: seq<Outcome>, max: nat)
    requires Intact(c, max) && c.open && c.queue != [] && os != [] && os[0].Took? && os[0].n > 0
    ensures var rest, d := Unsent(c.queue[0]), Flushed(c, os);
            if os[0].n < |rest| then d.sent == c.sent + rest[..os[0].n] else c.sent + rest <= d.sent
    ensures |Flushed(c, os).sent| > |c.sent|
  {
    var rest := Unsent(c.queue[0]);
    if Taken(os[0], |rest|) == |rest| { FlushKeepsSent(Popped(c), os[1..]); }
  }

  lemma {:induction false} FlushKeepsSent(c: Conn, os: seq<Outcome>)
    ensures c.sent <= Flushed(c, os).sent
    decreases |os|
  {
    if c.open && c.queue != [] && os != [] {
      var ret := Taken(os[0], |Unsent(c.queue[0])|);
      if ret == |Unsent(c.queue[0])| { FlushKeepsSent(Popped(c), os[1..]); }
    }
  }

  /** A socket that takes all it is offered gets everything that was accepted, and the queue is empty. */
  lemma {:induction false} FlushDrains(c: Conn, os: seq<Outcome>, max: nat)
    requires Intact(c, max) && c.open && |os| >= |c.queue|
    requires forall i :: 0 <= i < |c.queue| ==> os[i].Took? && os[i].n >= |Unsent(c.queue[i])|
    ensures Flushed(c, os).queue == [] && Flushed(c, os).sent == Concat(c.accepted)
    decreases |c.queue|
  {
    hide Concat;
    if c.queue == [] {
      assert c.sent + [] == c.sent;
    } else {
      PoppedIntact(c, max);
      var d := Popped(c);
      assert forall i :: 0 <= i < |d.queue| ==> d.queue[i] == c.queue[i + 1] && os[1..][i] == os[i + 1];
      FlushDrains(d, os[1..], max);
    }
  }

  // ---------- the connection object

  class Connection {
    const max: nat
    var queue: seq<Reply>
    var count: nat
    var sent: seq<byte>
    var open: bool
    ghost var accepted: seq<seq<byte>>

    ghost function View(): Conn
      reads this
    {
      Conn(queue, count, sent, accepted, open)
    }

    constructor (max: nat)
      ensures this.max == max && View() == NEW
    {
      this.max := max;
      queue, count, sent, open, accepted := [], 0, [], true, [];
    }

    /** The non-blocking send: what it takes goes out. */
    method Send(data: seq<byte>, o: Outcome) returns (ret: int)
      modifies this`sent
      ensures ret == Taken(o, |data|)
      ensures sent == old(sent) + if ret > 0 then data[..ret] else []
    {
      ret := Taken(o, |data|);
      if ret > 0 { sent := sent + data[..ret]; }
    }

    method SendReply(msg: seq<byte>, o: Outcome) returns (status: int)
      requires Intact(View(), max) && open && msg != []
      modifies this
      ensures View() == Replied(old(View()), msg, o, max) && Intact(View(), max)
      ensures status == if open then 0 else -1
    {
      RepliedIntact(View(), msg, o, max);
      var ret;
      if queue != [] { ret := -1; } else { ret := Send(msg, o); }
      assert msg[..|msg|] == msg && sent + [] == sent;
      if (ret > 0 && ret != |msg|) || (ret == -1 && (queue != [] || o.WouldBlock?)) {
        if count > max {
          queue, count, open := [], 0, false;
          return -1;
        }
        queue := queue + [Reply(msg, if ret > 0 then ret else 0)];
        count := count + 1;
        accepted := accepted + [msg];
      } else if ret > 0 {
        accepted := accepted + [msg];
      }
      return 0;
    }

    /** The head of the queue is offered to the socket; true when it went out whole. */
    method SendHead(o: Outcome) returns (whole: bool)
      requires Intact(View(), max) && open && queue != []
      modifies this`queue, this`count, this`sent
      ensures var rest := Unsent(old(queue[0]));
              var ret := Taken(o, |rest|);
              && whole == (ret == |rest|)
              && View() == if whole then Popped(old(View())) else if ret > 0 then Advanced(old(View()), ret) else old(View())
    {
      var q := queue[0];
      var rest := q.buf[q.offset..];
      var ret := Send(rest, o);
      whole := ret == |rest|;
      assert rest[..|rest|] == rest && old(sent) + [] == old(sent);
      if whole {
        queue := queue[1..];
        count := count - 1;
      } else if ret > 0 {
        queue := [q.(offset := q.offset + ret)] + queue[1..];
      }
    }

    /** Send as many as the socket takes. */
    method SendQueued(os: seq<Outcome>)
      requires Intact(View(), max) && open
      modifies this
      ensures View() == Flushed(old(View()), os) && Intact(View(), max)
    {
      hide Intact, Popped, Advanced, Unsent;
      FlushedIntact(View(), os, max);
      var i := 0;
      while queue != [] && i < |os|
        invariant 0 <= i <= |os| && open && Intact(View(), max)
        invariant Flushed(View(), os[i..]) == Flushed(old(View()), os)
        decreases |os| - i
      {
        assert os[i..][1..] == os[i + 1..];
        PoppedIntact(View(), max);
        var whole := SendHead(os[i]);
        if !whole { break; }
        i := i + 1;
      }
    }
  }
}

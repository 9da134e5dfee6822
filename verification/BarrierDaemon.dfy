/**
  The cluster manager's list of barriers (cman/daemon/barrier.c), looked up by name and changed
  in place. Each command, message and timer is proved to do to the named barrier what
  Barrier.Act says, and nothing to any other.
 */
module BarrierDaemon {
  import opened Basics
  import opened Barrier

  const ENOTCONN: int := 107
  const MAX_NAME: nat := 33

  class Barriers {
    var list: map<string, Bar>
    var told: seq<(string, int)>        // status replies to waiting clients
    var sent: seq<(string, Kind)>       // broadcasts

    constructor ()
      ensures list == map[] && told == [] && sent == []
    {
      list, told, sent := map[], [], [];
    }

    ghost function Named(name: string): Option<Bar>
      reads this
    {
      if name in list then Some(list[name]) else None
    }

    static ghost function Tagged<T>(name: string, s: seq<T>): seq<(string, T)>
    {
      seq(|s|, i requires 0 <= i < |s| => (name, s[i]))
    }

    /** The action happened to the named barrier alone. */
    twostate predicate Applied(name: string, a: Action, status: int)
      reads this
    {
      var e := Act(old(Named(name)), a);
      && Named(name) == e.bar && status == e.status
      && told == old(told) + Tagged(name, e.told)
      && sent == old(sent) + Tagged(name, e.sends)
      && forall k :: k != name ==> Named(k) == old(Named(k))
    }

    /** send_barrier_complete_msg. */
    method SendComplete(name: string)
      requires name in list
      modifies this`list, this`told
      ensures var e := Tell(old(list[name]));
              && list == old(list)[name := e.bar.value]
              && told == old(told) + Tagged(name, e.told)
    {
      var b := list[name];
      if b.timeout != 0 { b := b.(timeout := 0); }
      if !b.clientComplete {
        told := told + [(name, b.endReason)];
        b := b.(clientComplete := true);
      }
      list := list[name := b];
    }

    method CompletePhase2(name: string, status: int) returns (deleted: bool)
      requires name in list
      modifies this`list, this`told
      ensures var e := Finish(old(list[name]), status);
              && Named(name) == e.bar && deleted == e.bar.None?
              && told == old(told) + Tagged(name, e.told)
              && forall k :: k != name ==> Named(k) == old(Named(k))
    {
      list := list[name := list[name].(endReason := status)];
      if list[name].state == Waiting { SendComplete(name); }
      list := list[name := list[name].(state := Complete)];
      deleted := list[name].autoDelete;
      if deleted { list := list - {name}; }
    }

    /** The WAIT branch: count it, and broadcast COMPLETE when it was the last one expected. */
    method CountWait(name: string, members: nat)
      requires name in list
      modifies this`list, this`sent
      ensures Applied(name, Receive(WaitMsg, true, members), 0)
    {
      var b := list[name];
      if b.phase == 0 { b := b.(phase := 1); }
      if b.phase == 1 {
        b := b.(got := (b.got + 1) % 0x1_0000_0000);
        if b.got == (if b.expected != 0 then b.expected else members) {
          b := b.(phase := 2);
          sent := sent + [(name, CompleteMsg)];
        }
      }
      list := list[name := b];
    }

    method ProcessMsg(name: string, kind: Kind, member: bool, members: nat)
      modifies this
      ensures Applied(name, Receive(kind, member, members), 0)
    {
      if !member || name !in list { return; }
      match kind
      case WaitMsg => CountWait(name, members);
      case CompleteMsg =>
        var _ := CompletePhase2(name, 0);
    }

    method TimerFn(name: string)
      requires name in list
      modifies this
      ensures Applied(name, Expire, 0)
    {
      list := list[name := list[name].(phase := 0)];
      var _ := CompletePhase2(name, -ETIMEDOUT);
    }

    method Register(member: bool, name: string, multistep: bool, autoDelete: bool, nodes: nat) returns (status: int)
      modifies this
      ensures !member ==> status == -ENOTCONN && unchanged(this)
      ensures member && (|name| > MAX_NAME - 1 || multistep) ==> status == -EINVAL && unchanged(this)
      ensures member && |name| <= MAX_NAME - 1 && !multistep ==> Applied(name, Barrier.Register(nodes, autoDelete), status)
    {
      if !member { return -ENOTCONN; }
      if |name| > MAX_NAME - 1 { return -EINVAL; }
      if multistep { return -EINVAL; }
      if name in list {
        return if nodes != list[name].expected then -EINVAL else 0;
      }
      list := list[name := New(nodes, autoDelete)];
      return 0;
    }

    method SetEnabled(name: string, on: bool, sending: int) returns (status: int)
      modifies this`list, this`sent
      ensures Applied(name, Enable(on, sending), status)
    {
      if name !in list { return -ENOENT; }
      if list[name].state == Complete { return 0; }
      if !on { return -EINVAL; }
      if !list[name].waitSent {
        list := list[name := list[name].(waitSent := true, phase := 1)];
        if sending < 0 { return sending; }
        sent := sent + [(name, WaitMsg)];
      }
      return 0;
    }

    method SetAutoDelete(name: string, on: bool) returns (status: int)
      modifies this`list
      ensures Applied(name, Barrier.SetAutoDelete(on), status)
    {
      if name !in list { return -ENOENT; }
      if list[name].state != Complete { list := list[name := list[name].(autoDelete := on)]; }
      return 0;
    }

    method SetTimeout(name: string, timeout: nat) returns (status: int)
      modifies this`list
      ensures Applied(name, Barrier.SetTimeout(timeout), status)
    {
      if name !in list { return -ENOENT; }
      if list[name].state == Complete { return 0; }
      if list[name].state == Waiting || list[name].waitSent { return -EINVAL; }
      list := list[name := list[name].(timeout := timeout)];
      return 0;
    }

    method Delete(name: string) returns (status: int)
      modifies this`list
      ensures Applied(name, Barrier.Delete, status)
    {
      if name !in list { return -ENOENT; }
      list := list - {name};
      return 0;
    }

    method Wait(name: string, sending: int) returns (status: int)
      modifies this
      ensures Applied(name, Await(sending), status)
    {
      var _ := SetEnabled(name, true, sending);
      if name !in list { return -ENOENT; }
      if list[name].state == Complete {
        SendComplete(name);
      } else {
        list := list[name := list[name].(state := Waiting)];
      }
      return -EWOULDBLOCK;
    }
  }
}

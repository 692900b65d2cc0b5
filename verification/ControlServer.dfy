/**
 The objects behind ControlModel: the list of connections of Com/TcpServer.cpp,
 a variable of ServiceControl/VariableAttribute.cpp with its listeners, and the
 lock of ServiceControl/ControlServer.cpp.
 */
module ControlServer {
  import opened Basics
  import opened Names
  import opened ControlModel

  class TcpServer {
    var connections: seq<Link>
    const mask: bv32

    constructor (mask: bv32)
      ensures connections == [] && this.mask == mask
    {
      connections, this.mask := [], mask;
    }

    /** `FindClientFromId`: first exactly, dropping dead connections on the way, then by service. */
    method FindClientFromId(id: Peer) returns (found: Option<Link>)
      modifies this
      ensures connections == Pruned(old(connections), id)
      ensures found.Some? <==> Found(old(connections), id, mask)
      ensures found.Some? ==> found.value in connections && found.value.alive && SameService(found.value.peer, id, mask)
      ensures Link(id, true) in old(connections) ==> found == Some(Link(id, true))
    {
      ghost var was, j := connections, 0;
      PrunedFinds(was, id, id, mask);
      var i := 0;
      while i < |connections|
        invariant Passed(was, connections, i, j, id)
        decreases |connections| - i
      {
        PassedNext(was, connections, i, j, id);
        hide Passed, Pruned;
        var l := connections[i];
        if l.peer == id {
          if l.alive {
            return Some(l);
          }
          connections := connections[..i] + connections[i + 1..];
        } else {
          i := i + 1;
        }
        j := j + 1;
      }
      PassedAll(was, connections, i, j, id);
      found := FindService(id);
    }

    /** The first loop has seen the first `j` connections, and kept `i` of them. */
    static predicate Passed(was: seq<Link>, now: seq<Link>, i: int, j: int, id: Peer) {
      && 0 <= i <= |now| && 0 <= j <= |was| && now[i..] == was[j..]
      && Pruned(was, id) == now[..i] + Pruned(was[j..], id)
      && Link(id, true) !in was[..j]
    }

    static lemma PassedNext(was: seq<Link>, now: seq<Link>, i: int, j: int, id: Peer)
      requires Passed(was, now, i, j, id) && i < |now|
      ensures var l := now[i];
        if l.peer != id then Passed(was, now, i + 1, j + 1, id)
        else if l.alive then now == Pruned(was, id) && l in was
        else Passed(was, now[..i] + now[i + 1..], i, j + 1, id)
    {
      var l := now[i];
      assert l == now[i..][0] == was[j];
      assert was[j..][1..] == was[j + 1..] == now[i..][1..] == now[i + 1..];
      assert was[..j + 1] == was[..j] + [l];
      hide Found;
      if l.peer != id {
        assert now[..i + 1] == now[..i] + [l];
      } else if l.alive {
        assert now == now[..i] + now[i..];
      } else {
        var cut := now[..i] + now[i + 1..];
        assert cut[..i] == now[..i] && cut[i..] == now[i + 1..];
      }
    }

    static lemma PassedAll(was: seq<Link>, now: seq<Link>, i: int, j: int, id: Peer)
      requires Passed(was, now, i, j, id) && i == |now|
      ensures now == Pruned(was, id) && Link(id, true) !in was
    {
      assert was[j..] == [] && was[..j] == was && now[..i] == now;
    }

    /** The second loop. */
    method FindService(id: Peer) returns (found: Option<Link>)
      ensures found.Some? <==> Found(connections, id, mask)
      ensures found.Some? ==> found.value in connections && found.value.alive && SameService(found.value.peer, id, mask)
    {
      for i := 0 to |connections|
        invariant forall k :: 0 <= k < i ==> !(connections[k].alive && SameService(connections[k].peer, id, mask))
      {
        if SameService(connections[i].peer, id, mask) && connections[i].alive {
          return Some(connections[i]);
        }
      }
      found := None;
    }

    method IsStillConnected(id: Peer) returns (r: bool)
      modifies this
      ensures connections == Pruned(old(connections), id) && r == Found(old(connections), id, mask)
    {
      var l := FindClientFromId(id);
      r := l.Some?;
    }
  }

  class VariableAttribute {
    const access: Access
    var value: string
    var initialised: bool
    /** How often the listeners have been told of a change. */
    var notified: nat

    constructor (access: Access)
      ensures View() == Variable(access, "", false)
    {
      this.access, value, initialised, notified := access, "", false, 0;
    }

    function View(): Variable
      reads this
    {
      Variable(access, value, initialised)
    }

    /** `CanBeModifiedFromInside`. */
    predicate CanBeModifiedFromInside(running: bool)
      reads this
    {
      FromInside(View(), running)
    }

    /**
     `SetValue`: the listeners are asked in turn, the server first, and one
     that disagrees keeps the old value. They are told only of a change.
     */
    method SetValue(newValue: string, running: bool, votes: seq<bool>)
      modifies this`value, this`initialised, this`notified
      ensures View() == Assigned(old(View()), newValue, running, votes)
      ensures notified == old(notified) + if value != old(value) then 1 + |votes| else 0
    {
      if value == newValue {
        return;
      }
      if !CanBeModifiedFromInside(running) {
        return;
      }
      for i := 0 to |votes|
        invariant forall k :: 0 <= k < i ==> votes[k]
      {
        if !votes[i] {
          return;
        }
      }
      value := newValue;
      initialised := true;
      for i := 0 to 1 + |votes|
        modifies this`notified
        invariant notified == old(notified) + i
      {
        notified := notified + 1;
      }
    }
  }

  class ControlServer {
    var running: bool
    /** `lockIntVariable`. */
    var lock: Peer
    const tcp: TcpServer
    var variables: map<Name, VariableAttribute>

    ghost predicate Valid()
      reads this
    {
      forall m, n :: m in variables && n in variables && m != n ==> variables[m] != variables[n]
    }

    ghost function Abs(): Server
      reads this, tcp, variables.Values
    {
      Server(tcp.mask, running, lock, tcp.connections, Values())
    }

    ghost function Values(): map<Name, Variable>
      reads this`variables, variables.Values
    {
      map n | n in variables :: variables[n].View()
    }

    constructor (tcp: TcpServer)
      ensures Valid() && Abs() == Server(tcp.mask, false, 0, tcp.connections, map[]) && this.tcp == tcp
    {
      running, lock, this.tcp, variables := false, 0, tcp, map[];
    }

    /** `RefreshLock`. */
    method RefreshLock()
      requires Valid()
      modifies this`lock, tcp
      ensures Valid() && Abs() == Refreshed(old(Abs()))
    {
      var peer := lock;
      if peer != 0 {
        PrunedFinds(tcp.connections, peer, peer, tcp.mask);
        hide Found, Pruned, Values;
        var connected := tcp.IsStillConnected(peer);
        if !connected {
          lock := 0;
        }
      }
    }

    /** `LockOk`. */
    method LockOk(peer: Peer) returns (ok: bool)
      requires Valid()
      modifies this`lock, tcp
      ensures Valid() && Abs() == Refreshed(old(Abs())) && ok == MayUse(Abs(), peer)
    {
      RefreshLock();
      ok := lock == 0 || lock == peer;
    }

    /** `ProcessLockQuery`: the result, and the peer that holds the lock afterwards. */
    method ProcessLockQuery(pid: Peer, wanted: bool) returns (ok: bool, peer: Peer)
      requires Valid()
      modifies this`lock, tcp
      ensures var r := Next(old(Abs()), if wanted then LockQuery(pid) else UnlockQuery(pid));
              Valid() && Abs() == r.server && ok == r.granted
      ensures peer == lock == if ok then if wanted then pid else 0 else old(lock)
    {
      ok := LockOk(pid);
      if ok {
        lock := if wanted then pid else 0;
      }
      peer := lock;
    }

    /** `ProcessVariableQuery` with a new value. */
    method ProcessVariableQuery(pid: Peer, name: Name, newValue: string, votes: seq<bool>) returns (written: bool)
      requires Valid()
      modifies this`lock, tcp, variables.Values
      ensures var r := Next(old(Abs()), WriteQuery(pid, name, newValue, votes));
              Valid() && Abs() == r.server && written == r.granted
    {
      if name !in variables {
        return false;
      }
      written := false;
      assert name in Values() && Values()[name] == variables[name].View();
      hide Assigned, Refreshed, FromOutside, Values;
      var v := variables[name];
      var ok := LockOk(pid);
      if ok && FromOutside(v.View(), running) {
        Write(name, newValue, votes);
        written := true;
      }
    }

    /** `VariableChange`. */
    method Write(name: Name, newValue: string, votes: seq<bool>)
      requires Valid() && name in variables
      modifies variables[name]
      ensures Valid()
      ensures Abs() == var s := old(Abs());
                       s.(variables := s.variables[name := Assigned(s.variables[name], newValue, running, votes)])
    {
      hide Assigned;
      variables[name].SetValue(newValue, running, votes);
    }
  }
}

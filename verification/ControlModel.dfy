/**
 The lock and the guarded variables of ServiceControl/ControlServer.cpp and
 VariableAttribute.cpp, and how Com/TcpServer.cpp decides that the holder of
 the lock is gone.
 */
module ControlModel {
  import opened Basics
  import opened Names

  type Peer = bv32

  // ---- Connections ----

  /** A connection and the peer it has learnt about. */
  datatype Link = Link(peer: Peer, alive: bool)

  /** Same service: the numbers agree under the mask that drops the connector. */
  predicate SameService(a: Peer, b: Peer, mask: bv32) { a & mask == b & mask }

  /**
   The first loop of `FindClientFromId`: dead connections of exactly this peer
   are dropped up to the first live one.
   */
  function Pruned(ls: seq<Link>, id: Peer): seq<Link> {
    if ls == [] then []
    else if ls[0].peer == id && ls[0].alive then ls
    else (if ls[0].peer == id then [] else [ls[0]]) + Pruned(ls[1..], id)
  }

  predicate Found(ls: seq<Link>, id: Peer, mask: bv32) {
    exists i :: 0 <= i < |ls| && ls[i].alive && SameService(ls[i].peer, id, mask)
  }

  /** All connections but those of this peer. */
  function Others(ls: seq<Link>, id: Peer): seq<Link> {
    if ls == [] then [] else Others(ls[..|ls| - 1], id) + if ls[|ls| - 1].peer == id then [] else [ls[|ls| - 1]]
  }

  /** Up to the first live connection of this peer its dead ones are gone; all the rest is as it was. */
  lemma {:induction false} PrunedExactly(ls: seq<Link>, id: Peer, k: nat)
    requires k <= |ls| && Link(id, true) !in ls[..k] && (k < |ls| ==> ls[k] == Link(id, true))
    ensures Pruned(ls, id) == Others(ls[..k], id) + ls[k..]
    decreases |ls|
  {
    if k == 0 {
      assert ls[0..] == ls && ls[..0] == [];
    } else {
      var l, rest := ls[0], ls[1..];
      assert l == ls[..k][0] && rest[..k - 1] == ls[..k][1..] && rest[k - 1..] == ls[k..];
      PrunedExactly(rest, id, k - 1);
      OthersFirst(ls[..k], id);
      hide Others;
      assert ls[..k] == [l] + rest[..k - 1];
      Assoc(if l.peer == id then [] else [l], Others(rest[..k - 1], id), ls[k..]);
    }
  }

  lemma {:induction false} OthersFirst(ls: seq<Link>, id: Peer)
    requires ls != []
    ensures Others(ls, id) == (if ls[0].peer == id then [] else [ls[0]]) + Others(ls[1..], id)
    decreases |ls|
  {
    var n := |ls| - 1;
    if n > 0 {
      OthersFirst(ls[..n], id);
      assert ls[..n][1..] == ls[1..][..n - 1] && ls[1..][n - 1] == ls[n];
    } else {
      assert ls[..0] == [] && ls[1..] == [];
    }
  }

  lemma FoundFirst(l: Link, ls: seq<Link>, id: Peer, mask: bv32)
    ensures Found([l] + ls, id, mask) <==> (l.alive && SameService(l.peer, id, mask)) || Found(ls, id, mask)
  {
    hide SameService;
    var all := [l] + ls;
    if l.alive && SameService(l.peer, id, mask) {
      assert all[0] == l;
    }
    if i :| 0 <= i < |ls| && ls[i].alive && SameService(ls[i].peer, id, mask) {
      assert all[i + 1] == ls[i];
    }
  }

  /** Dropping dead connections never makes a peer look gone. */
  lemma {:induction false} PrunedFinds(ls: seq<Link>, id: Peer, other: Peer, mask: bv32)
    ensures Found(Pruned(ls, id), other, mask) <==> Found(ls, other, mask)
    decreases |ls|
  {
    hide Found, SameService;
    if ls != [] && !(ls[0].peer == id && ls[0].alive) {
      PrunedFinds(ls[1..], id, other, mask);
      assert ls == [ls[0]] + ls[1..];
      FoundFirst(ls[0], ls[1..], other, mask);
      FoundFirst(ls[0], Pruned(ls[1..], id), other, mask);
      assert [] + Pruned(ls[1..], id) == Pruned(ls[1..], id);
    }
  }

  // ---- Variables ----

  /** Besides the server itself, other listeners vote on a change; `votes` is what they say this time. */
  datatype Variable = Variable(access: Access, value: string, initialised: bool)

  predicate FromInside(v: Variable, running: bool) { !(v.access.ConstantAccess? && running) }

  predicate FromOutside(v: Variable, running: bool) {
    v.access.ReadWriteAccess? || (v.access.ConstantAccess? && !running)
  }

  predicate AllAgree(votes: seq<bool>) { forall i :: 0 <= i < |votes| ==> votes[i] }

  /** `VariableAttribute::SetValue`; the server is the first listener. */
  function Assigned(v: Variable, value: string, running: bool, votes: seq<bool>): Variable {
    if v.value == value then v
    else if FromInside(v, running) && AllAgree(votes) then v.(value := value, initialised := true)
    else v
  }

  // ---- The server ----

  datatype Server = Server(mask: bv32, running: bool, lock: Peer, links: seq<Link>, variables: map<Name, Variable>)

  predicate StillConnected(s: Server, p: Peer) { Found(s.links, p, s.mask) }

  /** `RefreshLock`: the lock of a peer that is gone is dropped. */
  function Refreshed(s: Server): Server {
    if s.lock == 0 then s
    else
      var t := s.(links := Pruned(s.links, s.lock));
      if StillConnected(t, s.lock) then t else t.(lock := 0)
  }

  /** `LockOk`, after `RefreshLock`. */
  predicate MayUse(s: Server, p: Peer) { s.lock == 0 || s.lock == p }

  datatype Step =
    | LockQuery(pid: Peer)
    | UnlockQuery(pid: Peer)
    | WriteQuery(pid: Peer, name: Name, value: string, votes: seq<bool>)
    | SetsValue(name: Name, value: string, votes: seq<bool>)
    | Connects(peer: Peer)
    | Breaks(index: nat)
    | Starts

  /** Whether the query was granted; steps that are no queries always are. */
  datatype Result = Result(server: Server, granted: bool)

  function Next(s: Server, t: Step): Result {
    match t
    case LockQuery(pid) =>
      var r := Refreshed(s);
      if MayUse(r, pid) then Result(r.(lock := pid), true) else Result(r, false)
    case UnlockQuery(pid) =>
      var r := Refreshed(s);
      if MayUse(r, pid) then Result(r.(lock := 0), true) else Result(r, false)
    case WriteQuery(pid, name, value, votes) =>
      if name !in s.variables then Result(s, false)
      else
        var r := Refreshed(s);
        if MayUse(r, pid) && FromOutside(s.variables[name], s.running) then
          Result(r.(variables := s.variables[name := Assigned(s.variables[name], value, s.running, votes)]), true)
        else Result(r, false)
    case SetsValue(name, value, votes) =>
      if name !in s.variables then Result(s, true)
      else Result(s.(variables := s.variables[name := Assigned(s.variables[name], value, s.running, votes)]), true)
    case Connects(peer) => Result(s.(links := s.links + [Link(peer, true)]), true)
    case Breaks(i) => Result(if i < |s.links| then s.(links := s.links[i := s.links[i].(alive := false)]) else s, true)
    case Starts => Result(s.(running := true), true)
  }

  function Run(s: Server, ts: seq<Step>): Server {
    if ts == [] then s else Next(Run(s, ts[..|ts| - 1]), ts[|ts| - 1]).server
  }

  // ---- The lock ----

  /** A query that comes from another peer than `p`. */
  predicate FromAnother(t: Step, p: Peer) {
    (t.LockQuery? && t.pid != p) || (t.UnlockQuery? && t.pid != p) || (t.WriteQuery? && t.pid != p)
  }

  /** A lock is granted exactly if nobody else holds it whose service is still connected. */
  lemma LockGranted(s: Server, p: Peer)
    ensures Next(s, LockQuery(p)).granted <==> s.lock == 0 || s.lock == p || !StillConnected(s, s.lock)
    ensures Next(s, LockQuery(p)).granted ==> Next(s, LockQuery(p)).server.lock == p
    ensures !Next(s, LockQuery(p)).granted ==> Next(s, LockQuery(p)).server.lock == s.lock
  {
    PrunedFinds(s.links, s.lock, s.lock, s.mask);
  }

  /**
   An unlock is granted exactly if nobody else holds the lock whose service is
   still connected. Then the lock is free, so that whoever asks next gets it.
   */
  lemma UnlockGranted(s: Server, p: Peer, q: Peer)
    ensures var r := Next(s, UnlockQuery(p));
            && (r.granted <==> s.lock == 0 || s.lock == p || !StillConnected(s, s.lock))
            && r.server.lock == (if r.granted then 0 else s.lock)
            && (r.granted ==> Next(r.server, LockQuery(q)).granted && Next(r.server, LockQuery(q)).server.lock == q)
  {
    PrunedFinds(s.links, s.lock, s.lock, s.mask);
    hide Found, Pruned;
  }

  /** Locking and unlocking change neither a variable nor who is connected. */
  lemma QueriesLeave(s: Server, p: Peer, x: Peer)
    ensures var r, u := Next(s, LockQuery(p)).server, Next(s, UnlockQuery(p)).server;
            && r.variables == u.variables == s.variables && r.running == u.running == s.running
            && (StillConnected(r, x) <==> StillConnected(s, x)) && (StillConnected(u, x) <==> StillConnected(s, x))
  {
    PrunedFinds(s.links, s.lock, x, s.mask);
    hide Found, Pruned;
  }

  /** Who is connected after a connection has been made or broken. */
  lemma ConnectionsAre(s: Server, p: Peer, i: nat, x: Peer)
    ensures StillConnected(Next(s, Connects(p)).server, x) <==> StillConnected(s, x) || SameService(p, x, s.mask)
    ensures StillConnected(Next(s, Breaks(i)).server, x) <==>
              exists k :: 0 <= k < |s.links| && k != i && s.links[k].alive && SameService(s.links[k].peer, x, s.mask)
    ensures var r, u := Next(s, Connects(p)).server, Next(s, Breaks(i)).server;
            && r == s.(links := r.links) && u == s.(links := u.links)
  {
    hide SameService;
    var ls := s.links + [Link(p, true)];
    assert ls[|s.links|] == Link(p, true) && forall k :: 0 <= k < |s.links| ==> ls[k] == s.links[k];
    if i < |s.links| {
      var us := s.links[i := s.links[i].(alive := false)];
      assert Next(s, Breaks(i)).server.links == us;
      assert !us[i].alive && forall k :: 0 <= k < |s.links| && k != i ==> us[k] == s.links[k];
    }
  }

  lemma HolderKept(s: Server, p: Peer, t: Step)
    requires s.lock == p != 0 && StillConnected(s, p) && t != UnlockQuery(p)
    ensures Next(s, t).server.lock == p
    ensures FromAnother(t, p) ==> !Next(s, t).granted && Next(s, t).server.variables == s.variables
  {
    PrunedFinds(s.links, p, p, s.mask);
  }

  /** At every moment of the run the holder is connected, and it does not unlock. */
  predicate Holding(s: Server, p: Peer, ts: seq<Step>) {
    ts == [] ||
    var us, t := ts[..|ts| - 1], ts[|ts| - 1];
    Holding(s, p, us) && StillConnected(Run(s, us), p) && t != UnlockQuery(p)
  }

  /** No query of another peer has been granted or has changed a variable. */
  predicate OthersRefused(s: Server, p: Peer, ts: seq<Step>) {
    ts == [] ||
    var us, t := ts[..|ts| - 1], ts[|ts| - 1];
    var r := Next(Run(s, us), t);
    OthersRefused(s, p, us) && (FromAnother(t, p) ==> !r.granted && r.server.variables == Run(s, us).variables)
  }

  /**
   From a successful lock of a peer until it unlocks or its service is no
   longer connected, no query of another peer to lock, unlock or write succeeds.
   */
  lemma {:induction false} LockHolds(s: Server, p: Peer, ts: seq<Step>)
    requires s.lock == p != 0 && Holding(s, p, ts)
    ensures Run(s, ts).lock == p && OthersRefused(s, p, ts)
    decreases |ts|
  {
    hide Next, StillConnected, FromAnother;
    if ts != [] {
      LockHolds(s, p, ts[..|ts| - 1]);
      HolderKept(Run(s, ts[..|ts| - 1]), p, ts[|ts| - 1]);
    }
  }

  // ---- The variables ----

  /** What a step can do to a variable in a running server. */
  lemma VariableKept(s: Server, t: Step, name: Name)
    requires s.running && name in s.variables
    ensures var r := Next(s, t).server;
            && r.running && name in r.variables && r.variables[name].access == s.variables[name].access
            && (s.variables[name].access.ConstantAccess? ==> r.variables[name] == s.variables[name])
            && (t.WriteQuery? && !s.variables[name].access.ReadWriteAccess? ==> r.variables[name] == s.variables[name])
  {
    RefreshedKeeps(s);
    if t.WriteQuery? || t.SetsValue? {
      AssignedKeeps(s.variables[name], t.value, t.votes);
    }
    hide Refreshed, Assigned, Found, Pruned;
  }

  lemma RefreshedKeeps(s: Server)
    ensures Refreshed(s).variables == s.variables && Refreshed(s).running == s.running
  {
    hide Found, Pruned;
  }

  lemma AssignedKeeps(v: Variable, value: string, votes: seq<bool>)
    ensures var r := Assigned(v, value, true, votes); r.access == v.access && (v.access.ConstantAccess? ==> r == v)
  {
  }

  /** Once the server runs, no sequence of steps changes a constant. */
  lemma {:induction false} ConstantsAreConstant(s: Server, ts: seq<Step>, name: Name)
    requires s.running && name in s.variables && s.variables[name].access.ConstantAccess?
    ensures var r := Run(s, ts); r.running && name in r.variables && r.variables[name] == s.variables[name]
    decreases |ts|
  {
    if ts != [] {
      ConstantsAreConstant(s, ts[..|ts| - 1], name);
      VariableKept(Run(s, ts[..|ts| - 1]), ts[|ts| - 1], name);
    }
  }

  /** Of a variable nothing else than its value changes, and that it has had one; of the others nothing. */
  predicate OnlyValue(s: Server, r: Server, name: Name) {
    && r.variables.Keys == s.variables.Keys && r.running == s.running
    && (forall m :: m in s.variables && m != name ==> r.variables[m] == s.variables[m])
    && (name in s.variables ==>
          var v, w := s.variables[name], r.variables[name];
          w.access == v.access && (w.initialised <==> v.initialised || w.value != v.value))
  }

  /**
   A remote write changes a variable exactly if the writer may use the server,
   the variable may be written and all listeners agree. A constant may be
   written until the server runs.
   */
  lemma WriteTakesEffect(s: Server, p: Peer, name: Name, value: string, votes: seq<bool>)
    requires name in s.variables
    ensures var r, v := Next(s, WriteQuery(p, name, value, votes)), s.variables[name];
            && (r.granted <==>
                  && (s.lock == 0 || s.lock == p || !StillConnected(s, s.lock))
                  && (v.access.ReadWriteAccess? || (v.access.ConstantAccess? && !s.running)))
            && OnlyValue(s, r.server, name)
            && r.server.variables[name].value
            == (if r.granted && forall i :: 0 <= i < |votes| ==> votes[i] then value else v.value)
            && r.server.lock == (if s.lock != 0 && !StillConnected(s, s.lock) then 0 else s.lock)
  {
    PrunedFinds(s.links, s.lock, s.lock, s.mask);
    hide Found, Pruned;
  }

  lemma UnknownIsRefused(s: Server, p: Peer, name: Name, value: string, votes: seq<bool>)
    requires name !in s.variables
    ensures Next(s, WriteQuery(p, name, value, votes)) == Result(s, false)
    ensures Next(s, SetsValue(name, value, votes)).server == s
  {
  }

  /** The service itself changes any variable but a constant of a running server, if all listeners agree. */
  lemma OwnWriteTakesEffect(s: Server, name: Name, value: string, votes: seq<bool>)
    requires name in s.variables
    ensures var r, v := Next(s, SetsValue(name, value, votes)).server, s.variables[name];
            && OnlyValue(s, r, name) && r.lock == s.lock && r.links == s.links
            && r.variables[name].value
            == (if !(v.access.ConstantAccess? && s.running) && forall i :: 0 <= i < |votes| ==> votes[i] then value
                else v.value)
  {
  }
}

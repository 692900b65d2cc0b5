/**
 The SyncLink handshake of Com/MsgSocket.cpp between two endpoints: message 0
 introduces a peer, and a peer that is introduced introduces itself.
 */
module BipLink {
  import opened BipFrames
  import opened BipScan
  import BipDelivery

  /**
   What a socket knows of its connection: `service_id`, `message_id`,
   `sendSyncLinkMsg`, `receivedSyncLinkMsg`, `peer_pid`, `SyncLinkData`,
   `maxBIPMessageSize`.
   */
  datatype Endpoint = Endpoint(
    pid: int,
    nextId: int,
    linkSent: bool,
    linkReceived: bool,
    peer: int,
    linkData: Bytes,
    maxBip: int,
    /** The messages put on the wire, and what was reported to the listeners. */
    sent: seq<Frame>,
    heard: seq<Event>)

  datatype Outcome = Done(endpoint: Endpoint, ok: bool) | Thrown

  /** `SendSyncLinkMsg`. */
  function SendLink(e: Endpoint): Outcome {
    if e.linkSent then Done(e, false)
    else if e.nextId != 0 then Thrown
    else if |e.linkData| > e.maxBip then Done(e, false)
    else Done(e.(nextId := 1, linkSent := true, sent := e.sent + [Frame(e.pid, 0, e.linkData)]), true)
  }

  /** `Send` and its variants: the next number, and the number after it. */
  function SendData(e: Endpoint, data: Bytes): Endpoint {
    e.(nextId := (e.nextId + 1) % WORD, sent := e.sent + [Frame(e.pid, e.nextId, data)])
  }

  /** What `Receive` does with one message. A refused introduction ends the connection before it is reported. */
  function Take(e: Endpoint, ev: Event): Outcome {
    match ev
    case Message(_, _, _) => Done(e.(heard := e.heard + [ev]), true)
    case Link(pid, _) =>
      match SendLink(e.(peer := pid, linkReceived := true))
      case Thrown => Thrown
      case Done(e1, _) => Done(e1.(heard := e1.heard + [ev]), true)
  }

  function TakeAll(e: Endpoint, evs: seq<Event>): Outcome {
    if evs == [] then Done(e, true)
    else
      match TakeAll(e, evs[..|evs| - 1])
      case Thrown => Thrown
      case Done(e1, _) => Take(e1, evs[|evs| - 1])
  }

  lemma {:induction false} ThrownStays(e: Endpoint, xs: seq<Event>, ys: seq<Event>)
    requires TakeAll(e, xs).Thrown?
    ensures TakeAll(e, xs + ys).Thrown?
    decreases |ys|
  {
    if ys == [] {
      assert xs + ys == xs;
    } else {
      var n := |ys| - 1;
      ThrownStays(e, xs, ys[..n]);
      assert (xs + ys)[..|xs| + n] == xs + ys[..n];
    }
  }

  lemma TakeNext(e: Endpoint, xs: seq<Event>, ev: Event)
    ensures TakeAll(e, xs + [ev]) == match TakeAll(e, xs) case Thrown => Thrown case Done(e1, _) => Take(e1, ev)
  {
    assert (xs + [ev])[..|xs|] == xs;
  }

  // ---- Two endpoints ----

  /** Each side with how many messages of the other it has taken. */
  datatype Side = Side(endpoint: Endpoint, taken: nat)

  datatype Connection = Connection(left: Side, right: Side)

  /**
   A step of the left side: an introduction, a message after its own
   introduction, or the next message of the other side.
   */
  datatype Step = Introduce | Say(data: Bytes) | Listen

  datatype Turn = Turn(leftSide: bool, step: Step)

  function Swap(c: Connection): Connection { Connection(c.right, c.left) }

  predicate Enabled(c: Connection, s: Step) {
    match s
    case Introduce => true
    case Say(_) => c.left.endpoint.linkSent
    case Listen => c.left.taken < |c.right.endpoint.sent|
  }

  function Act(c: Connection, s: Step): Outcome
    requires Enabled(c, s)
  {
    match s
    case Introduce => SendLink(c.left.endpoint)
    case Say(data) => Done(SendData(c.left.endpoint, data), true)
    case Listen => Take(c.left.endpoint, BipDelivery.Reported(c.right.endpoint.sent[c.left.taken]))
  }

  datatype After = Goes(connection: Connection) | Broken

  function ActLeft(c: Connection, s: Step): After
    requires Enabled(c, s)
  {
    match Act(c, s)
    case Thrown => Broken
    case Done(e, _) => Goes(Connection(Side(e, c.left.taken + if s.Listen? then 1 else 0), c.right))
  }

  /** A turn that cannot be taken yet is skipped. */
  function Move(c: Connection, t: Turn): After {
    if t.leftSide then
      if Enabled(c, t.step) then ActLeft(c, t.step) else Goes(c)
    else if Enabled(Swap(c), t.step) then
      match ActLeft(Swap(c), t.step)
      case Broken => Broken
      case Goes(d) => Goes(Swap(d))
    else Goes(c)
  }

  function Run(c: Connection, turns: seq<Turn>): After {
    if turns == [] then Goes(c)
    else
      match Run(c, turns[..|turns| - 1])
      case Broken => Broken
      case Goes(d) => Move(d, turns[|turns| - 1])
  }

  // ---- What single calls do ----

  /** An introduction that is still due is sent, with number 0, if it fits into a message. */
  predicate Due(e: Endpoint) { !e.linkSent && |e.linkData| <= e.maxBip }

  /** The endpoint after it has introduced itself. */
  predicate HasIntroduced(e: Endpoint, r: Endpoint) {
    && r.linkSent && r.nextId == 1 && r.sent == e.sent + [Frame(e.pid, 0, e.linkData)]
    && r.pid == e.pid && r.linkData == e.linkData && r.maxBip == e.maxBip
  }

  /** Whoever has not talked yet introduces itself when asked to; whoever has done so, or cannot, stays as it is. */
  lemma Introduces(e: Endpoint)
    ensures Due(e) && e.nextId == 0 ==>
              match SendLink(e)
              case Thrown => false
              case Done(r, ok) =>
                ok && HasIntroduced(e, r) && r.heard == e.heard && r.peer == e.peer && r.linkReceived == e.linkReceived
    ensures !e.linkSent && e.nextId != 0 ==> SendLink(e) == Thrown
    ensures e.linkSent || (e.nextId == 0 && |e.linkData| > e.maxBip) ==> SendLink(e) == Done(e, false)
  {
  }

  predicate HasLink(evs: seq<Event>) { exists i :: 0 <= i < |evs| && evs[i].Link? }

  /**
   Messages are told to the listeners one by one. An introduction among them
   makes the other side known, and is answered by an own one if that is due;
   if it cannot be sent any more, the connection is over.
   */
  lemma {:induction false} TakesAll(e: Endpoint, evs: seq<Event>)
    ensures TakeAll(e, evs).Thrown? <==> HasLink(evs) && !e.linkSent && e.nextId != 0
    ensures match TakeAll(e, evs)
            case Thrown => true
            case Done(r, _) =>
              && r.heard == e.heard + evs && (r.linkReceived <==> e.linkReceived || HasLink(evs))
              && (if HasLink(evs) && Due(e) then HasIntroduced(e, r)
                  else r.sent == e.sent && r.nextId == e.nextId && r.linkSent == e.linkSent)
              && (forall i :: 0 <= i < |evs| && evs[i].Link? && !HasLink(evs[i + 1..]) ==> r.peer == evs[i].pid)
              && (!HasLink(evs) ==> r.peer == e.peer)
              && r.pid == e.pid && r.linkData == e.linkData && r.maxBip == e.maxBip
    decreases |evs|
  {
    if evs != [] {
      var n := |evs| - 1;
      var before, ev := evs[..n], evs[n];
      assert evs == before + [ev] && evs[n + 1..] == [];
      TakesAll(e, before);
      LinkAmong(before, ev);
      if TakeAll(e, before).Done? {
        Introduces(TakeAll(e, before).endpoint.(peer := ev.pid, linkReceived := true));
      }
      hide SendLink, HasLink;
      forall i | 0 <= i < n && evs[i].Link? && !HasLink(evs[i + 1..])
        ensures !HasLink(before[i + 1..]) && !ev.Link?
      {
        assert evs[i + 1..] == before[i + 1..] + [ev];
        LinkAmong(before[i + 1..], ev);
      }
    }
  }

  lemma LinkAmong(evs: seq<Event>, ev: Event)
    ensures HasLink(evs + [ev]) <==> HasLink(evs) || ev.Link?
  {
    assert (evs + [ev])[|evs|] == ev;
    if i :| 0 <= i < |evs| && evs[i].Link? {
      assert (evs + [ev])[i] == evs[i];
    }
  }

  predicate Fresh(e: Endpoint) {
    !e.linkSent && !e.linkReceived && e.nextId == 0 && e.sent == [] && e.heard == []
  }

  // ---- What every run keeps ----

  /** The n-th message carries the number n, as far as 32 bits go, and the introduction is the first. */
  predicate Numbered(e: Endpoint) {
    && e.nextId == |e.sent| % WORD
    && (e.linkSent <==> e.sent != [])
    && (e.sent != [] ==> e.sent[0] == Frame(e.pid, 0, e.linkData))
    && forall k :: 0 <= k < |e.sent| ==> e.sent[k].mid == k % WORD
  }

  /** What was heard are the first `n` messages of the other side. */
  predicate Heard(e: Endpoint, n: nat, other: Endpoint) {
    && n == |e.heard| <= |other.sent|
    && (forall k :: 0 <= k < n ==> e.heard[k] == BipDelivery.Reported(other.sent[k]))
    && (e.linkReceived <==> n > 0)
    && (e.linkReceived && |e.linkData| <= e.maxBip ==> e.linkSent)
  }

  predicate Inv(c: Connection) {
    && Numbered(c.left.endpoint) && Numbered(c.right.endpoint)
    && Heard(c.left.endpoint, c.left.taken, c.right.endpoint)
    && Heard(c.right.endpoint, c.right.taken, c.left.endpoint)
  }

  lemma SendLinkKeeps(e: Endpoint, n: nat, other: Endpoint)
    requires Numbered(e) && Heard(e, n, other)
    ensures SendLink(e).Done?
    ensures var r := SendLink(e).endpoint; Numbered(r) && Heard(r, n, other) && e.sent <= r.sent && r.heard == e.heard
  {
  }

  lemma SendDataKeeps(e: Endpoint, data: Bytes, o: Endpoint, n: nat)
    requires Numbered(e) && Heard(o, n, e) && e.linkSent
    ensures var r := SendData(e, data); Numbered(r) && Heard(o, n, r) && r.heard == e.heard && e.sent <= r.sent
  {
  }

  lemma ActKeeps(c: Connection, s: Step)
    requires Inv(c) && Enabled(c, s)
    ensures ActLeft(c, s).Goes? && Inv(ActLeft(c, s).connection)
  {
    var e, o := c.left.endpoint, c.right.endpoint;
    match s
    case Introduce =>
      SendLinkKeeps(e, c.left.taken, o);
    case Say(data) =>
      SendDataKeeps(e, data, o, c.right.taken);
    case Listen =>
      var f := o.sent[c.left.taken];
      var ev := BipDelivery.Reported(f);
      assert ev.Link? <==> c.left.taken % WORD == 0;
      if ev.Link? {
        LinkTaken(e, c.left.taken, o, ev);
      }
  }

  lemma LinkTaken(e: Endpoint, n: nat, o: Endpoint, ev: Event)
    requires Numbered(e) && Numbered(o) && Heard(e, n, o) && n < |o.sent| && ev == BipDelivery.Reported(o.sent[n])
          && ev.Link?
    ensures var r := Take(e, ev);
            r.Done? && Numbered(r.endpoint) && Heard(r.endpoint, n + 1, o) && e.sent <= r.endpoint.sent
  {
    var e1 := e.(peer := ev.pid, linkReceived := true);
    assert Numbered(e1);
    assert SendLink(e1).Done?;
  }

  lemma MoveKeeps(c: Connection, t: Turn)
    requires Inv(c)
    ensures Move(c, t).Goes? && Inv(Move(c, t).connection)
  {
    if t.leftSide {
      if Enabled(c, t.step) {
        ActKeeps(c, t.step);
      }
    } else if Enabled(Swap(c), t.step) {
      ActKeeps(Swap(c), t.step);
    }
  }

  lemma {:induction false} RunKeeps(c: Connection, turns: seq<Turn>)
    requires Inv(c)
    ensures Run(c, turns).Goes? && Inv(Run(c, turns).connection)
    decreases |turns|
  {
    if turns != [] {
      RunKeeps(c, turns[..|turns| - 1]);
      MoveKeeps(Run(c, turns[..|turns| - 1]).connection, turns[|turns| - 1]);
    }
  }

  /**
   In every run of two fresh endpoints that introduce themselves before they
   talk, no introduction is refused; each side numbers its messages from 0 in
   steps of one; what a side hears starts with the other's introduction and
   contains another one exactly where the numbers wrap; and whoever has heard
   the other has sent an own introduction if it fits into a message.
   */
  lemma IntroducedOnceAndFirst(c: Connection, turns: seq<Turn>)
    requires Fresh(c.left.endpoint) && Fresh(c.right.endpoint) && c.left.taken == c.right.taken == 0
    ensures Run(c, turns).Goes?
    ensures var d := Run(c, turns).connection;
            Numbered(d.left.endpoint) && OnceAndFirst(d.left.endpoint, d.right.endpoint)
    ensures var d := Run(c, turns).connection;
            Numbered(d.right.endpoint) && OnceAndFirst(d.right.endpoint, d.left.endpoint)
  {
    RunKeeps(c, turns);
  }

  predicate OnceAndFirst(e: Endpoint, other: Endpoint) {
    && |e.heard| <= |other.sent|
    && (forall k :: 0 <= k < |e.heard| ==> e.heard[k] == BipDelivery.Reported(other.sent[k]))
    && (e.linkReceived <==> e.heard != [])
    && (forall k :: 0 <= k < |e.heard| ==> (e.heard[k].Link? <==> k % WORD == 0))
    && (e.heard != [] ==> e.heard[0] == Link(other.pid, other.linkData))
    && (e.heard != [] && |e.linkData| <= e.maxBip ==> e.linkSent)
  }

  // ---- What every turn does ----

  /** A turn of one side leaves the other side alone, and does all that it is for. */
  lemma TurnDone(c: Connection, s: Step)
    requires Inv(c) && Enabled(c, s)
    ensures ActLeft(c, s).Goes?
    ensures var e, d := c.left.endpoint, ActLeft(c, s).connection; var r := d.left.endpoint;
            && d.right == c.right
            && match s
               case Introduce =>
                 && d.left.taken == c.left.taken && r.heard == e.heard
                 && (if Due(e) then r.linkSent && r.sent == [Frame(e.pid, 0, e.linkData)] else r == e)
               case Say(data) =>
                 && d.left.taken == c.left.taken && r.heard == e.heard && r.peer == e.peer
                 && r.sent == e.sent + [Frame(e.pid, |e.sent| % WORD, data)]
               case Listen =>
                 var f := c.right.endpoint.sent[c.left.taken];
                 && d.left.taken == c.left.taken + 1 && r.heard == e.heard + [BipDelivery.Reported(f)]
                 && (if f.mid == 0 && Due(e) then r.linkSent && r.sent == [Frame(e.pid, 0, e.linkData)]
                     else r.sent == e.sent)
                 && r.peer == if f.mid == 0 then f.pid else e.peer
  {
    ActKeeps(c, s);
    var e := c.left.endpoint;
    Introduces(e);
    if s.Listen? {
      var f := c.right.endpoint.sent[c.left.taken];
      Introduces(e.(peer := f.pid, linkReceived := true));
    }
    hide SendLink, Inv, Heard;
  }

  function Of(c: Connection, leftSide: bool): Side { if leftSide then c.left else c.right }

  /** What never changes, and that an introduction is not taken back. */
  lemma TurnKeeps(c: Connection, t: Turn, leftSide: bool)
    requires Inv(c)
    ensures Move(c, t).Goes? && Inv(Move(c, t).connection)
    ensures var e, r := Of(c, leftSide).endpoint, Of(Move(c, t).connection, leftSide).endpoint;
            r.linkData == e.linkData && r.maxBip == e.maxBip && (e.linkSent ==> r.linkSent)
  {
    MoveKeeps(c, t);
    var a := if t.leftSide then c else Swap(c);
    if Enabled(a, t.step) {
      ActKeepsConfig(a, t.step);
    }
    hide Inv, Act;
  }

  lemma ActKeepsConfig(c: Connection, s: Step)
    requires Enabled(c, s)
    ensures match Act(c, s)
            case Thrown => true
            case Done(r, _) =>
              var e := c.left.endpoint;
              r.linkData == e.linkData && r.maxBip == e.maxBip && (e.linkSent ==> r.linkSent)
  {
  }

  /** In every run, whoever was told to introduce itself has done so, if its introduction fits into a message. */
  lemma {:induction false} IntroducesItself(c: Connection, turns: seq<Turn>, k: nat, leftSide: bool)
    requires Inv(c) && k < |turns| && turns[k] == Turn(leftSide, Introduce)
    requires |Of(c, leftSide).endpoint.linkData| <= Of(c, leftSide).endpoint.maxBip
    ensures Run(c, turns).Goes?
    ensures var r := Of(Run(c, turns).connection, leftSide).endpoint;
            r.linkSent && r.sent != [] && r.sent[0] == Frame(r.pid, 0, r.linkData)
    decreases |turns|
  {
    var n := |turns| - 1;
    RunKeeps(c, turns);
    RunKeeps(c, turns[..n]);
    ConfigKept(c, turns[..n], leftSide);
    var d := Run(c, turns[..n]).connection;
    TurnKeeps(d, turns[n], leftSide);
    if k < n {
      IntroducesItself(c, turns[..n], k, leftSide);
    } else {
      TurnDone(if leftSide then d else Swap(d), Introduce);
    }
    hide Heard, Act;
  }

  lemma {:induction false} ConfigKept(c: Connection, turns: seq<Turn>, leftSide: bool)
    requires Inv(c)
    ensures Run(c, turns).Goes?
    ensures var e, r := Of(c, leftSide).endpoint, Of(Run(c, turns).connection, leftSide).endpoint;
            r.linkData == e.linkData && r.maxBip == e.maxBip
    decreases |turns|
  {
    RunKeeps(c, turns);
    if turns != [] {
      var n := |turns| - 1;
      RunKeeps(c, turns[..n]);
      ConfigKept(c, turns[..n], leftSide);
      TurnKeeps(Run(c, turns[..n]).connection, turns[n], leftSide);
    }
    hide Inv, Move;
  }
}

/**
 Queries and answers of ServiceControl/ControlClient.cpp as a step system. A
 step is a region of the code that runs under a lock; threads that ask and the
 thread that receives answers take their steps in any order.
 */
module AnswersModel {
  import opened Basics

  const WORD := 0x1_0000_0000

  /** An answer, with the number in its `id` attribute if it has one. */
  datatype Answer = Answer(id: Option<int>, body: string)

  /** `AnswerWaiter`. */
  datatype Waiter = Waiter(free: bool, messageId: int, answer: Option<Answer>)

  /**
   Where a thread is in `GetAnswer`: before its first look, before the second
   one, or past it and about to give its waiter back.
   */
  datatype Phase = Start | Waiting | Late

  datatype Query = Query(waiter: nat, phase: Phase)

  /** A query that looks for a waiter: it holds the lock of the list and comes to the waiter `at` next. */
  datatype Walk = Walk(n: nat, at: nat)

  /** Queries are told apart by how many were asked before; `results` is what they returned. */
  datatype System = System(
    waiters: seq<Waiter>,
    asked: nat,
    /** The queries that have their number and have not asked for a waiter yet. */
    numbered: set<nat>,
    asking: Option<Walk>,
    queries: map<nat, Query>,
    results: map<nat, Option<Answer>>,
    /** The largest number of queries that had a waiter, or had begun to look for one, at once. */
    peak: nat)

  const EMPTY := System([], 0, {}, None, map[], map[], 0)

  /** `BeginEndTag`: the numbers start with 1 and wrap at 32 bits. */
  function IdOf(n: nat): int { (n + 1) % WORD }

  function FirstFree(ws: seq<Waiter>, from: nat): (i: nat)
    requires from <= |ws|
    ensures from <= i <= |ws| && (i < |ws| ==> ws[i].free) && forall k :: from <= k < i ==> !ws[k].free
    decreases |ws| - from
  {
    if from == |ws| || ws[from].free then from else FirstFree(ws, from + 1)
  }

  predicate Expects(w: Waiter, a: Answer) { !w.free && a.id == Some(w.messageId) }

  /** The first waiter in use whose number the answer carries. */
  function FirstExpecting(ws: seq<Waiter>, a: Answer, from: nat): (i: nat)
    requires from <= |ws|
    ensures from <= i <= |ws| && (i < |ws| ==> Expects(ws[i], a)) && forall k :: from <= k < i ==> !Expects(ws[k], a)
    decreases |ws| - from
  {
    if from == |ws| || Expects(ws[from], a) then from else FirstExpecting(ws, a, from + 1)
  }

  /** `CreateAnswerWaiter`, on the list of waiters, while no waiter is freed. */
  function Created(ws: seq<Waiter>, id: int): seq<Waiter> {
    var w := Waiter(false, id, None);
    var i := FirstFree(ws, 0);
    if i < |ws| then ws[i := w] else ws + [w]
  }

  /** `PushAnswer`, on the list of waiters. */
  function Pushed(ws: seq<Waiter>, a: Answer): seq<Waiter> {
    var i := FirstExpecting(ws, a, 0);
    if i < |ws| then ws[i := ws[i].(answer := Some(a))] else ws
  }

  function Freed(w: Waiter): Waiter { w.(free := true, answer := None) }

  /** `BeginEndTag`: the next number is taken. */
  function Number(s: System): System { s.(asked := s.asked + 1, numbered := s.numbered + {s.asked}) }

  /** `CreateAnswerWaiter` takes the lock of the list for a query that has its number. */
  function Ask(s: System, n: nat): System {
    s.(numbered := s.numbered - {n}, asking := Some(Walk(n, 0)), peak := Max(s.peak, |s.queries| + 1))
  }

  /** One `Use`: of the waiter the walk has come to, or of a new one behind the last. */
  function Try(s: System): System
    requires s.asking.Some? && s.asking.value.at <= |s.waiters|
  {
    var Walk(n, i) := s.asking.value;
    var w, q := Waiter(false, IdOf(n), None), s.queries[n := Query(i, Start)];
    if i == |s.waiters| then s.(waiters := s.waiters + [w], asking := None, queries := q)
    else if s.waiters[i].free then s.(waiters := s.waiters[i := w], asking := None, queries := q)
    else s.(asking := Some(Walk(n, i + 1)))
  }

  /** The thread returns from its query with `r` and gives its waiter back. */
  function Return(s: System, n: nat, r: Option<Answer>): System
    requires n in s.queries && s.queries[n].waiter < |s.waiters|
  {
    var w := s.queries[n].waiter;
    s.(waiters := s.waiters[w := Freed(s.waiters[w])], queries := s.queries - {n}, results := s.results[n := r])
  }

  /** One look of `GetAnswer` under the lock of the waiter. */
  function Look(s: System, n: nat): System
    requires n in s.queries && s.queries[n].waiter < |s.waiters|
  {
    var q := s.queries[n];
    if s.waiters[q.waiter].answer.Some? then Return(s, n, s.waiters[q.waiter].answer)
    else s.(queries := s.queries[n := q.(phase := if q.phase == Start then Waiting else Late)])
  }

  datatype Step =
    | Numbers | Asks(n: nat) | Tries | Pushes(answer: Answer) | SendFails(n: nat) | Looks(n: nat) | GivesUp(n: nat)

  /**
   Only one thread at a time walks over the list, and no answer is pushed
   meanwhile; waiters can be freed at any time. A push is one step: no waiter
   begins to expect its answer while it runs.
   */
  predicate Enabled(s: System, t: Step) {
    match t
    case Numbers => true
    case Asks(n) => n in s.numbered && s.asking.None?
    case Tries => s.asking.Some? && s.asking.value.at <= |s.waiters|
    case Pushes(_) => s.asking.None?
    case SendFails(n) => n in s.queries && s.queries[n].waiter < |s.waiters| && s.queries[n].phase == Start
    case Looks(n) => n in s.queries && s.queries[n].waiter < |s.waiters| && s.queries[n].phase != Late
    case GivesUp(n) => n in s.queries && s.queries[n].waiter < |s.waiters| && s.queries[n].phase == Late
  }

  /** A step that cannot be taken is skipped. */
  function Next(s: System, t: Step): System {
    if !Enabled(s, t) then s
    else
      match t
      case Numbers => Number(s)
      case Asks(n) => Ask(s, n)
      case Tries => Try(s)
      case Pushes(a) => s.(waiters := Pushed(s.waiters, a))
      case SendFails(n) => Return(s, n, None)
      case Looks(n) => Look(s, n)
      case GivesUp(n) => Return(s, n, None)
  }

  function Run(s: System, ts: seq<Step>): System {
    if ts == [] then s else Next(Run(s, ts[..|ts| - 1]), ts[|ts| - 1])
  }

  // ---- What every step keeps ----

  function Busy(ws: seq<Waiter>): (n: nat)
    ensures n <= |ws|
  {
    if ws == [] then 0 else Busy(ws[..|ws| - 1]) + if ws[|ws| - 1].free then 0 else 1
  }

  lemma {:induction false} BusyUpdate(ws: seq<Waiter>, i: nat, w: Waiter)
    requires i < |ws|
    ensures Busy(ws[i := w]) == Busy(ws) - (if ws[i].free then 0 else 1) + if w.free then 0 else 1
    decreases |ws|
  {
    var n := |ws| - 1;
    if i < n {
      BusyUpdate(ws[..n], i, w);
      assert ws[i := w][..n] == ws[..n][i := w];
    } else {
      assert ws[i := w][..n] == ws[..n];
    }
  }

  /** A query under way has a waiter of its own, which expects its number. */
  predicate Owned(s: System) {
    && (forall n :: n in s.queries ==>
         && n < s.asked && n !in s.results && s.queries[n].waiter < |s.waiters|
         && !s.waiters[s.queries[n].waiter].free && s.waiters[s.queries[n].waiter].messageId == IdOf(n))
    && (forall m, n :: m in s.queries && n in s.queries && m != n ==> s.queries[m].waiter != s.queries[n].waiter)
    && (forall n :: n in s.numbered ==> n < s.asked && n !in s.queries && n !in s.results)
    && (s.asking.Some? ==>
          var Walk(n, i) := s.asking.value;
          n < s.asked && n !in s.numbered && n !in s.queries && n !in s.results && i <= |s.waiters|)
  }

  /** An answer waits only where it is expected. */
  predicate Matching(s: System) {
    && (forall i :: 0 <= i < |s.waiters| && s.waiters[i].answer.Some?
          ==> Expects(s.waiters[i], s.waiters[i].answer.value))
    && (forall n :: n in s.results ==> n < s.asked && (s.results[n].Some? ==> s.results[n].value.id == Some(IdOf(n))))
  }

  /** All waiters that the walk has still to come to are in use. */
  predicate NoneFrom(ws: seq<Waiter>, i: nat) { forall k :: i <= k < |ws| ==> !ws[k].free }

  predicate Counted(s: System) {
    && |s.queries| == Busy(s.waiters) && |s.waiters| <= s.peak <= |s.waiters| + 1
    && (s.asking.Some? && NoneFrom(s.waiters, s.asking.value.at) ==> s.peak == |s.waiters| + 1)
  }

  /** A waiter in use belongs to a query under way. */
  predicate Manned(s: System) {
    forall i :: 0 <= i < |s.waiters| && !s.waiters[i].free ==> exists n :: n in s.queries && s.queries[n].waiter == i
  }

  predicate Inv(s: System) { Owned(s) && Matching(s) && Counted(s) && Manned(s) }

  lemma NumberKeeps(s: System)
    requires Inv(s)
    ensures Inv(Number(s))
  {
    hide IdOf, Busy, Manned, NoneFrom, Expects;
    SameManned(s, Number(s));
  }

  lemma AskKeeps(s: System, n: nat)
    requires Inv(s) && n in s.numbered && s.asking.None?
    ensures Inv(Ask(s, n))
  {
    AskOwned(s, n);
    AskCounted(s, n);
    SameManned(s, Ask(s, n));
    hide IdOf, Owned, Counted, Manned, Expects;
  }

  lemma AskOwned(s: System, n: nat)
    requires Owned(s) && n in s.numbered
    ensures Owned(Ask(s, n))
  {
    hide IdOf;
  }

  lemma AskCounted(s: System, n: nat)
    requires Counted(s) && s.asking.None?
    ensures Counted(Ask(s, n))
  {
    BusyAll(s.waiters);
    hide Busy;
  }

  lemma SameManned(s: System, t: System)
    requires Manned(s) && t.waiters == s.waiters && t.queries == s.queries
    ensures Manned(t)
  {
    forall i | 0 <= i < |t.waiters| && !t.waiters[i].free
      ensures exists n :: n in t.queries && t.queries[n].waiter == i
    {
      assert !s.waiters[i].free;
    }
  }

  predicate Trying(s: System) { s.asking.Some? && s.asking.value.at <= |s.waiters| }

  lemma TryKeeps(s: System)
    requires Inv(s) && Trying(s)
    ensures Inv(Try(s))
  {
    TryOwned(s);
    TryMatching(s);
    TryCounted(s);
    TryManned(s);
  }

  lemma TryOwned(s: System)
    requires Owned(s) && Trying(s)
    ensures Owned(Try(s))
  {
    hide IdOf;
    var i, t := s.asking.value.at, Try(s);
    assert forall k :: 0 <= k < |s.waiters| && k != i ==> t.waiters[k] == s.waiters[k];
  }

  lemma TryMatching(s: System)
    requires Matching(s) && Trying(s)
    ensures Matching(Try(s))
  {
    var i, t := s.asking.value.at, Try(s);
    assert forall k :: 0 <= k < |s.waiters| && k != i ==> t.waiters[k] == s.waiters[k];
  }

  lemma BusyMore(ws: seq<Waiter>, w: Waiter)
    ensures Busy(ws + [w]) == Busy(ws) + if w.free then 0 else 1
  {
    assert (ws + [w])[..|ws|] == ws;
  }

  lemma TryCounted(s: System)
    requires Owned(s) && Counted(s) && Trying(s)
    ensures Counted(Try(s))
  {
    hide IdOf, Busy;
    var Walk(n, i) := s.asking.value;
    var w := Waiter(false, IdOf(n), None);
    if i == |s.waiters| {
      BusyMore(s.waiters, w);
    } else if s.waiters[i].free {
      BusyUpdate(s.waiters, i, w);
    } else {
      assert NoneFrom(s.waiters, i + 1) ==> NoneFrom(s.waiters, i);
    }
  }

  lemma TryManned(s: System)
    requires Owned(s) && Manned(s) && Trying(s)
    ensures Manned(Try(s))
  {
    hide IdOf;
    var Walk(n, i) := s.asking.value;
    var t := Try(s);
    forall k | 0 <= k < |t.waiters| && !t.waiters[k].free
      ensures exists m :: m in t.queries && t.queries[m].waiter == k
    {
      if k == i && t.asking.None? {
        assert t.queries[n].waiter == k;
      } else {
        assert t.waiters[k] == s.waiters[k];
        var m :| m in s.queries && s.queries[m].waiter == k;
        assert m in t.queries && t.queries[m].waiter == k;
      }
    }
  }

  lemma {:induction false} BusyAll(ws: seq<Waiter>)
    ensures Busy(ws) == |ws| <==> forall i :: 0 <= i < |ws| ==> !ws[i].free
    decreases |ws|
  {
    if ws != [] {
      BusyAll(ws[..|ws| - 1]);
      var n := |ws| - 1;
      assert forall i :: 0 <= i < n ==> ws[..n][i] == ws[i];
    }
  }

  /** An answer pushed changes nothing but the answer of a waiter which expects it. */
  lemma PushedOnly(ws: seq<Waiter>, a: Answer)
    ensures var r := Pushed(ws, a);
            && |r| == |ws| && Busy(r) == Busy(ws)
            && (forall k :: 0 <= k < |ws| ==> r[k].free == ws[k].free && r[k].messageId == ws[k].messageId)
            && (forall k :: 0 <= k < |ws|
                  ==> r[k].answer == ws[k].answer || (r[k].answer == Some(a) && Expects(r[k], a)))
  {
    var i := FirstExpecting(ws, a, 0);
    if i < |ws| {
      BusyUpdate(ws, i, ws[i].(answer := Some(a)));
    }
  }

  lemma PushKeeps(s: System, a: Answer)
    requires Inv(s)
    ensures Inv(s.(waiters := Pushed(s.waiters, a)))
  {
    hide IdOf, Pushed, Busy;
    PushedOnly(s.waiters, a);
    var t := s.(waiters := Pushed(s.waiters, a));
    assert Owned(t);
    assert Matching(t);
    assert Manned(t) by {
      forall i | 0 <= i < |t.waiters| && !t.waiters[i].free
        ensures exists n :: n in t.queries && t.queries[n].waiter == i
      {
        assert !s.waiters[i].free;
      }
    }
  }

  lemma ReturnKeeps(s: System, n: nat, r: Option<Answer>)
    requires Inv(s) && n in s.queries && (r.Some? ==> r.value.id == Some(IdOf(n)))
    ensures Inv(Return(s, n, r))
  {
    hide IdOf;
    ReturnOwned(s, n, r);
    ReturnMatching(s, n, r);
    ReturnCounted(s, n, r);
    StillManned(s, n, r);
  }

  lemma ReturnOwned(s: System, n: nat, r: Option<Answer>)
    requires Owned(s) && n in s.queries
    ensures Owned(Return(s, n, r))
  {
    hide IdOf;
  }

  lemma ReturnMatching(s: System, n: nat, r: Option<Answer>)
    requires Owned(s) && Matching(s) && n in s.queries && (r.Some? ==> r.value.id == Some(IdOf(n)))
    ensures Matching(Return(s, n, r))
  {
    hide IdOf;
  }

  lemma ReturnCounted(s: System, n: nat, r: Option<Answer>)
    requires Owned(s) && Counted(s) && n in s.queries
    ensures Counted(Return(s, n, r))
  {
    hide IdOf;
    var w, t := s.queries[n].waiter, Return(s, n, r);
    BusyUpdate(s.waiters, w, Freed(s.waiters[w]));
    assert t.queries.Keys == s.queries.Keys - {n};
    assert |t.queries| == |s.queries| - 1;
    if s.asking.Some? && NoneFrom(t.waiters, s.asking.value.at) {
      var i := s.asking.value.at;
      assert t.waiters[w].free;
      assert forall k :: i <= k < |s.waiters| ==> t.waiters[k] == s.waiters[k];
    }
  }

  lemma StillManned(s: System, n: nat, r: Option<Answer>)
    requires Owned(s) && Manned(s) && n in s.queries
    ensures Manned(Return(s, n, r))
  {
    var t := Return(s, n, r);
    forall k | 0 <= k < |t.waiters| && !t.waiters[k].free
      ensures exists m :: m in t.queries && t.queries[m].waiter == k
    {
      var m :| m in s.queries && s.queries[m].waiter == k;
      assert m in t.queries && t.queries[m].waiter == k;
    }
  }

  lemma NextKeeps(s: System, t: Step)
    requires Inv(s)
    ensures Inv(Next(s, t))
  {
    hide Number, Ask, Try, Pushed, Return, Counted, Manned, IdOf;
    if Enabled(s, t) {
      match t
      case Numbers => NumberKeeps(s);
      case Asks(n) => AskKeeps(s, n);
      case Tries => TryKeeps(s);
      case Pushes(a) => PushKeeps(s, a);
      case SendFails(n) => ReturnKeeps(s, n, None);
      case GivesUp(n) => ReturnKeeps(s, n, None);
      case Looks(n) =>
        var w := s.waiters[s.queries[n].waiter];
        if w.answer.Some? {
          ReturnKeeps(s, n, w.answer);
        } else {
          LookKeeps(s, n);
        }
    }
  }

  lemma LookKeeps(s: System, n: nat)
    requires Inv(s) && n in s.queries && s.waiters[s.queries[n].waiter].answer.None?
    ensures Inv(Look(s, n))
  {
    LookOwned(s, n);
    LookManned(s, n);
    LookCounted(s, n);
    LookMatching(s, n);
    hide Owned, Manned, Counted, Matching, Look, Return;
  }

  lemma LookMatching(s: System, n: nat)
    requires Matching(s) && n in s.queries && s.queries[n].waiter < |s.waiters|
          && s.waiters[s.queries[n].waiter].answer.None?
    ensures Matching(Look(s, n))
  {
    hide IdOf;
  }

  lemma LookCounted(s: System, n: nat)
    requires Counted(s) && n in s.queries && s.queries[n].waiter < |s.waiters|
          && s.waiters[s.queries[n].waiter].answer.None?
    ensures Counted(Look(s, n))
  {
    assert Look(s, n).queries.Keys == s.queries.Keys;
    assert |Look(s, n).queries| == |s.queries|;
  }

  lemma LookOwned(s: System, n: nat)
    requires Owned(s) && n in s.queries && s.waiters[s.queries[n].waiter].answer.None?
    ensures Owned(Look(s, n))
  {
    hide IdOf;
  }

  lemma LookManned(s: System, n: nat)
    requires Owned(s) && Manned(s) && n in s.queries && s.waiters[s.queries[n].waiter].answer.None?
    ensures Manned(Look(s, n))
  {
    hide IdOf;
    var t := Look(s, n);
    forall k | 0 <= k < |t.waiters| && !t.waiters[k].free
      ensures exists m :: m in t.queries && t.queries[m].waiter == k
    {
      var m :| m in s.queries && s.queries[m].waiter == k;
      assert m in t.queries && t.queries[m].waiter == k;
    }
  }

  lemma {:induction false} RunKeeps(s: System, ts: seq<Step>)
    requires Inv(s)
    ensures Inv(Run(s, ts))
    decreases |ts|
  {
    if ts != [] {
      RunKeeps(s, ts[..|ts| - 1]);
      hide Inv;
      NextKeeps(Run(s, ts[..|ts| - 1]), ts[|ts| - 1]);
    }
  }

  /**
   In every interleaving, also after the numbers have wrapped, whatever a query
   returns carries the query's own number. There are at most as many waiters as
   queries ever had one or looked for one at once, and at most one less.
   */
  lemma OwnAnswerOnly(ts: seq<Step>)
    ensures var s := Run(EMPTY, ts);
            && (forall n :: n in s.results && s.results[n].Some? ==> s.results[n].value.id == Some(IdOf(n)))
            && |s.waiters| <= s.peak <= |s.waiters| + 1
  {
    assert Inv(EMPTY);
    RunKeeps(EMPTY, ts);
  }

  // ---- A walk that no one disturbs ----

  function Walked(s: System, k: nat): System
    decreases k
  {
    if k == 0 then s else Walked(Next(s, Tries), k - 1)
  }

  /** The query has got the waiter at `i`, or a new one behind the last. */
  function Took(s: System, n: nat, i: nat): System {
    var w := Waiter(false, IdOf(n), None);
    s.(waiters := if i < |s.waiters| then s.waiters[i := w] else s.waiters + [w],
       asking := None, queries := s.queries[n := Query(i, Start)])
  }

  /** If no waiter is freed during the walk, it takes the first free one, or else a new one. */
  lemma {:induction false} WalkAlone(s: System, n: nat, at: nat)
    requires at <= |s.waiters| && s.asking == Some(Walk(n, at))
    ensures Walked(s, FirstFree(s.waiters, at) - at + 1) == Took(s, n, FirstFree(s.waiters, at))
    decreases |s.waiters| - at
  {
    var i := FirstFree(s.waiters, at);
    assert Walked(s, i - at + 1) == Walked(Try(s), i - at);
    if at < i {
      WalkAlone(Try(s), n, at + 1);
    }
  }

  /** A query asks, and no waiter is freed until it has got one. */
  lemma AskAlone(s: System, n: nat)
    requires n in s.numbered && s.asking.None?
    ensures var t := Walked(Next(s, Asks(n)), FirstFree(s.waiters, 0) + 1);
            && t.waiters == Created(s.waiters, IdOf(n)) && t.asking.None?
            && t.queries == s.queries[n := Query(FirstFree(s.waiters, 0), Start)]
  {
    WalkAlone(Ask(s, n), n, 0);
  }

  // ---- Answers arrive ----

  /** The query that an answer with this number reaches, if one does. */
  ghost predicate Reaches(s: System, a: Answer, n: nat) {
    n in s.queries && FirstExpecting(s.waiters, a, 0) == s.queries[n].waiter < |s.waiters|
  }

  /**
   An answer that arrives while its query is under way is what the query
   returns at its next look, as long as the numbers have not wrapped.
   */
  lemma AnswerTaken(ts: seq<Step>, n: nat, a: Answer)
    requires var s := Run(EMPTY, ts);
            n in s.queries && s.queries[n].phase != Late && a.id == Some(IdOf(n)) && s.asked <= WORD && s.asking.None?
    ensures var t := Next(Next(Run(EMPTY, ts), Pushes(a)), Looks(n)); n in t.results && t.results[n] == Some(a)
  {
    assert Inv(EMPTY);
    RunKeeps(EMPTY, ts);
    hide Run, IdOf, Owned, Manned, Counted, Matching;
    var s := Run(EMPTY, ts);
    OnlyOneExpects(s, n, a);
    TakenNext(s, n, a);
  }

  lemma TakenNext(s: System, n: nat, a: Answer)
    requires Reaches(s, a, n) && s.queries[n].phase != Late && s.asking.None?
    ensures var t := Next(Next(s, Pushes(a)), Looks(n)); n in t.results && t.results[n] == Some(a)
  {
  }

  lemma SameNumber(m: nat, n: nat)
    requires m < WORD && n < WORD && IdOf(m) == IdOf(n)
    ensures m == n
  {
  }

  lemma OnlyOneExpects(s: System, n: nat, a: Answer)
    requires Owned(s) && Manned(s) && n in s.queries && a.id == Some(IdOf(n)) && s.asked <= WORD
    ensures Reaches(s, a, n)
  {
    hide IdOf;
    var i := FirstExpecting(s.waiters, a, 0);
    assert Expects(s.waiters[s.queries[n].waiter], a);
    var m :| m in s.queries && s.queries[m].waiter == i;
    SameNumber(m, n);
  }

  /**
   An answer to a query that is no longer under way, or has no waiter yet,
   changes nothing, so no reused waiter ever holds it.
   */
  lemma LateAnswerDropped(ts: seq<Step>, n: nat, a: Answer)
    requires var s := Run(EMPTY, ts); n < s.asked <= WORD && n !in s.queries && a.id == Some(IdOf(n))
    ensures Next(Run(EMPTY, ts), Pushes(a)) == Run(EMPTY, ts)
  {
    hide IdOf, Run;
    assert Inv(EMPTY);
    RunKeeps(EMPTY, ts);
    var s := Run(EMPTY, ts);
    var i := FirstExpecting(s.waiters, a, 0);
    if i < |s.waiters| {
      var m :| m in s.queries && s.queries[m].waiter == i;
      SameNumber(m, n);
    }
  }

  // ---- Every query looks twice ----

  /** How many looks of this query the run has. */
  function LooksTaken(ts: seq<Step>, n: nat): nat {
    if ts == [] then 0
    else
      var us, t := ts[..|ts| - 1], ts[|ts| - 1];
      LooksTaken(us, n) + if t == Looks(n) && Enabled(Run(EMPTY, us), t) then 1 else 0
  }

  /** What the number of its looks says of a query. */
  predicate LooksAre(s: System, n: nat, looks: nat) {
    && (n in s.queries ==> looks == match s.queries[n].phase case Start => 0 case Waiting => 1 case Late => 2)
    && (n !in s.queries && n !in s.results ==> looks == 0)
    && looks <= 2
  }

  lemma NextLooks(s: System, t: Step, n: nat, looks: nat)
    requires Inv(s) && LooksAre(s, n, looks)
    ensures LooksAre(Next(s, t), n, looks + if t == Looks(n) && Enabled(s, t) then 1 else 0)
  {
    hide IdOf, Created, Pushed, Counted, Matching, Manned;
  }

  lemma {:induction false} LooksCounted(ts: seq<Step>, n: nat)
    ensures LooksAre(Run(EMPTY, ts), n, LooksTaken(ts, n))
    decreases |ts|
  {
    if ts != [] {
      var m := |ts| - 1;
      LooksCounted(ts[..m], n);
      assert Inv(EMPTY);
      RunKeeps(EMPTY, ts[..m]);
      hide Inv, Next, LooksAre, Enabled;
      NextLooks(Run(EMPTY, ts[..m]), ts[m], n, LooksTaken(ts[..m], n));
    }
  }

  /**
   In every run, a query that has its waiter can look until it has looked
   twice, give up only then, and learn that it was not sent only before.
   */
  lemma LooksTwice(ts: seq<Step>, n: nat)
    requires n in Run(EMPTY, ts).queries
    ensures var s := Run(EMPTY, ts);
            && (Enabled(s, Looks(n)) <==> LooksTaken(ts, n) < 2)
            && (Enabled(s, GivesUp(n)) <==> LooksTaken(ts, n) == 2)
            && (Enabled(s, SendFails(n)) <==> LooksTaken(ts, n) == 0)
  {
    hide Run, LooksTaken, Enabled, LooksAre, Inv;
    LooksCounted(ts, n);
    EmptyInv();
    RunKeeps(EMPTY, ts);
    LooksTell(Run(EMPTY, ts), n, LooksTaken(ts, n));
  }

  lemma EmptyInv()
    ensures Inv(EMPTY)
  {
  }

  lemma LooksTell(s: System, n: nat, looks: nat)
    requires Inv(s) && n in s.queries && LooksAre(s, n, looks)
    ensures Enabled(s, Looks(n)) <==> looks < 2
    ensures Enabled(s, GivesUp(n)) <==> looks == 2
    ensures Enabled(s, SendFails(n)) <==> looks == 0
  {
    hide IdOf, Counted, Matching, Manned;
  }

  /** A query under way returns only by a look that finds an answer, by giving up, or because it was not sent. */
  lemma ReturnsOnlyBy(s: System, t: Step, n: nat)
    requires Inv(s) && n in s.queries
    ensures var r := Next(s, t);
            if t == Looks(n) && Enabled(s, t) && s.waiters[s.queries[n].waiter].answer.Some? then
              n !in r.queries && n in r.results && r.results[n] == s.waiters[s.queries[n].waiter].answer
            else if (t == GivesUp(n) || t == SendFails(n)) && Enabled(s, t) then
              n !in r.queries && n in r.results && r.results[n] == None
            else n in r.queries && n !in r.results && r.queries[n].waiter == s.queries[n].waiter
  {
    hide IdOf, Created, Pushed, Counted, Matching, Manned;
  }

  /** The waiter of a query that returns is free for the next one. */
  lemma ReturnFrees(s: System, t: Step, n: nat)
    requires Inv(s) && n in s.queries && n !in Next(s, t).queries
    ensures var i, r := s.queries[n].waiter, Next(s, t);
            && i < |r.waiters| == |s.waiters| && r.waiters[i].free && r.waiters[i].answer.None?
            && forall k :: 0 <= k < |s.waiters| && k != i ==> r.waiters[k] == s.waiters[k]
  {
    ReturnsOnlyBy(s, t, n);
    hide IdOf, Created, Pushed, Counted, Matching, Manned;
  }

  /**
   In every run before the numbers wrap: a query that has not looked yet finds
   nothing, its answer arrives, and its next look returns just that.
   */
  lemma SecondLook(ts: seq<Step>, n: nat, a: Answer)
    requires var s := Run(EMPTY, ts);
            && n in s.queries && LooksTaken(ts, n) == 0
            && s.queries[n].waiter < |s.waiters| && s.waiters[s.queries[n].waiter].answer.None?
            && a.id == Some(IdOf(n)) && s.asked <= WORD && s.asking.None?
    ensures var r := Next(Next(Next(Run(EMPTY, ts), Looks(n)), Pushes(a)), Looks(n));
            n in r.results && r.results[n] == Some(a)
  {
    hide Run, LooksTaken, IdOf;
    var s := Run(EMPTY, ts);
    LooksCounted(ts, n);
    EmptyInv();
    RunKeeps(EMPTY, ts);
    var s1 := Next(s, Looks(n));
    NextKeeps(s, Looks(n));
    OnlyOneExpects(s1, n, a);
    hide Owned, Manned, Counted, Matching;
    TakenNext(s1, n, a);
  }

  /** Queries are numbered one after the other, from 1, as far as 32 bits go. */
  lemma NumbersRise(n: nat)
    ensures IdOf(0) == 1 && IdOf(n + 1) == if IdOf(n) == 0xFFFF_FFFF then 0 else IdOf(n) + 1
  {
  }
}

/**
 `AnswerWaiter` and `AnswersManager` of ServiceControl/ControlClient.cpp. Each
 method is a region that runs under a lock, and does to the list of waiters
 what AnswersModel says.
 */
module AnswersManager {
  import opened Basics
  import opened AnswersModel

  class AnswerWaiter {
    /** `IsFree`, `MessageId`, `AnswerMessage`. */
    var isFree: bool
    var messageId: int
    var answer: Option<Answer>

    constructor ()
      ensures View() == Waiter(true, 0, None)
    {
      isFree, messageId, answer := true, 0, None;
    }

    function View(): Waiter
      reads this
    {
      Waiter(isFree, messageId, answer)
    }

    /** `Use`: only a free waiter is taken, and it starts without an answer. */
    method Use(id: int) returns (taken: bool)
      modifies this
      ensures taken == old(isFree)
      ensures View() == if taken then Waiter(false, id, None) else old(View())
    {
      if !isFree {
        return false;
      }
      answer := None;
      isFree := false;
      messageId := id;
      taken := true;
    }

    /** `Free`. */
    method Free()
      modifies this
      ensures View() == Freed(old(View()))
    {
      answer := None;
      isFree := true;
    }

    /** One look of `GetAnswer`: an answer that is there is taken and the waiter given back. */
    method Look() returns (a: Option<Answer>)
      modifies this
      ensures a == old(answer)
      ensures View() == if a.Some? then Freed(old(View())) else old(View())
    {
      a := None;
      if answer.Some? {
        a := answer;
        answer := None;
        Free();
      }
    }
  }

  ghost function Views(ws: seq<AnswerWaiter>): (r: seq<Waiter>)
    reads ws
    ensures |r| == |ws| && forall i :: 0 <= i < |ws| ==> r[i] == ws[i].View()
  {
    seq(|ws|, i requires 0 <= i < |ws| reads ws => ws[i].View())
  }

  class AnswersManager {
    /** `WaitersList`. */
    var waiters: seq<AnswerWaiter>

    ghost predicate Valid()
      reads this
    {
      forall i, j :: 0 <= i < j < |waiters| ==> waiters[i] != waiters[j]
    }

    constructor ()
      ensures Valid() && waiters == []
    {
      waiters := [];
    }

    /** `CreateAnswerWaiter`: the first free waiter is used again. */
    method CreateAnswerWaiter(id: int) returns (w: AnswerWaiter)
      requires Valid()
      modifies this, waiters
      ensures Valid() && Views(waiters) == Created(old(Views(waiters)), id)
      ensures FirstFree(old(Views(waiters)), 0) < |waiters| && waiters[FirstFree(old(Views(waiters)), 0)] == w
    {
      ghost var was := Views(waiters);
      var i := 0;
      while i < |waiters|
        invariant 0 <= i <= |waiters| && waiters == old(waiters) && Views(waiters) == was
        invariant FirstFree(was, i) == FirstFree(was, 0)
      {
        var taken := waiters[i].Use(id);
        if taken {
          assert Views(waiters) == was[i := Waiter(false, id, None)];
          return waiters[i];
        }
        assert Views(waiters) == was;
        i := i + 1;
      }
      w := new AnswerWaiter();
      var taken := w.Use(id);
      waiters := waiters + [w];
      assert Views(waiters) == was + [Waiter(false, id, None)];
    }

    /** `PushAnswer`: the answer goes to the first waiter in use that expects its number. */
    method PushAnswer(a: Answer) returns (found: bool)
      requires Valid()
      modifies waiters
      ensures Valid() && Views(waiters) == Pushed(old(Views(waiters)), a)
      ensures found == (FirstExpecting(old(Views(waiters)), a, 0) < |waiters|)
    {
      ghost var was := Views(waiters);
      for i := 0 to |waiters|
        invariant Views(waiters) == was && FirstExpecting(was, a, i) == FirstExpecting(was, a, 0)
      {
        if !waiters[i].isFree && a.id == Some(waiters[i].messageId) {
          assert Expects(was[i], a);
          waiters[i].answer := Some(a);
          assert Views(waiters) == was[i := was[i].(answer := Some(a))];
          return true;
        }
      }
      found := false;
    }
  }
}

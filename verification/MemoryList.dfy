/**
 `MemoryList` of System/TrackingMemoryLeaks.cpp: a singly linked list with one
 cursor that can remove the element it is at.
 */
module MemoryList {
  /** `SimpleMemoryElement`: a block of memory and the link to the next one. */
  class Element {
    const place: nat
    const size: nat
    var next: Element?

    constructor (place: nat, size: nat)
      ensures this.place == place && this.size == size && next == null
    {
      this.place, this.size, next := place, size, null;
    }
  }

  // ---- Sequences ----

  /** What is left of `xs` without the chosen elements. */
  function Without(xs: seq<Element>, chosen: set<Element>): (r: seq<Element>) {
    if xs == [] then []
    else (if xs[0] in chosen then [] else [xs[0]]) + Without(xs[1..], chosen)
  }

  lemma {:induction false} WithoutAppend(xs: seq<Element>, x: Element, chosen: set<Element>)
    ensures Without(xs + [x], chosen) == Without(xs, chosen) + (if x in chosen then [] else [x])
    decreases |xs|
  {
    if xs == [] {
      assert [x][1..] == [];
      assert xs + [x] == [x];
    } else {
      assert (xs + [x])[0] == xs[0] && (xs + [x])[1..] == xs[1..] + [x];
      WithoutAppend(xs[1..], x, chosen);
    }
  }

  predicate Distinct(xs: seq<Element>) { forall i, j :: 0 <= i < j < |xs| ==> xs[i] != xs[j] }

  /** Where the kept elements come from: in the same order, and all of those not chosen. */
  lemma WithoutKeepsOrder(xs: seq<Element>, chosen: set<Element>) returns (from: seq<nat>)
    requires Distinct(xs)
    ensures var r := Without(xs, chosen);
            && Selects(from, r, xs)
            && (forall x :: x in r <==> x in xs && x !in chosen)
            && Distinct(r)
  {
    WithoutKeeps(xs, chosen);
    from := Positions(xs, chosen);
  }

  /** `r` are the elements of `xs` at these places, in the same order. */
  predicate Selects(from: seq<nat>, r: seq<Element>, xs: seq<Element>) {
    && |from| == |r|
    && (forall k :: 0 <= k < |from| ==> from[k] < |xs| && r[k] == xs[from[k]])
    && (forall j, k :: 0 <= j < k < |from| ==> from[j] < from[k])
  }

  lemma {:induction false} Positions(xs: seq<Element>, chosen: set<Element>) returns (from: seq<nat>)
    ensures Selects(from, Without(xs, chosen), xs)
    decreases |xs|
  {
    if xs == [] {
      from := [];
    } else {
      hide Selects;
      var rest := Positions(xs[1..], chosen);
      var r := Without(xs[1..], chosen);
      assert xs == [xs[0]] + xs[1..];
      if xs[0] in chosen {
        from := Shifted(rest);
        SelectsBehind(rest, r, xs[0], xs[1..]);
      } else {
        from := [0] + Shifted(rest);
        SelectsFirst(rest, r, xs[0], xs[1..]);
      }
    }
  }

  function Shifted(s: seq<nat>): (t: seq<nat>)
    ensures |t| == |s| && forall k :: 0 <= k < |s| ==> t[k] == s[k] + 1
  {
    seq(|s|, k requires 0 <= k < |s| => s[k] + 1)
  }

  lemma SelectsBehind(from: seq<nat>, r: seq<Element>, x: Element, xs: seq<Element>)
    requires Selects(from, r, xs)
    ensures Selects(Shifted(from), r, [x] + xs)
  {
    hide Shifted;
  }

  lemma SelectsFirst(from: seq<nat>, r: seq<Element>, x: Element, xs: seq<Element>)
    requires Selects(from, r, xs)
    ensures Selects([0] + Shifted(from), [x] + r, [x] + xs)
  {
    SelectsBehind(from, r, x, xs);
    hide Shifted;
  }

  lemma {:induction false} WithoutKeeps(xs: seq<Element>, chosen: set<Element>)
    requires Distinct(xs)
    ensures forall x :: x in Without(xs, chosen) <==> x in xs && x !in chosen
    ensures Distinct(Without(xs, chosen))
    decreases |xs|
  {
    if xs != [] {
      WithoutKeeps(xs[1..], chosen);
      assert xs == [xs[0]] + xs[1..];
    }
  }

  /** The elements before `at` are those kept of the visited ones, the others are still to be visited. */
  predicate Swept(all: seq<Element>, chosen: set<Element>, visited: seq<Element>, xs: seq<Element>, at: nat) {
    && at <= |xs| && |visited| + |xs| - at == |all|
    && visited == all[..|visited|] && xs[at..] == all[|visited|..]
    && xs[..at] == Without(visited, chosen)
  }

  lemma SweptNext(all: seq<Element>, chosen: set<Element>, visited: seq<Element>, xs: seq<Element>, at: nat)
    requires Swept(all, chosen, visited, xs, at) && at < |xs|
    ensures var e := xs[at];
            if e in chosen then Swept(all, chosen, visited + [e], Cut(xs, at), at)
            else Swept(all, chosen, visited + [e], xs, at + 1)
  {
    var e := xs[at];
    WithoutAppend(visited, e, chosen);
    hide Without;
    assert e == xs[at..][0] == all[|visited|];
    assert xs[at + 1..] == xs[at..][1..] == all[|visited|..][1..] == all[|visited| + 1..];
    assert Cut(xs, at)[..at] == xs[..at] && Cut(xs, at)[at..] == xs[at + 1..];
    assert xs[..at + 1] == xs[..at] + [e];
  }

  // ---- The list ----

  predicate Within(xs: seq<Element>, all: set<Element>) { forall e :: e in xs ==> e in all }

  function Nth(xs: seq<Element>, i: nat): (e: Element?) {
    if i < |xs| then xs[i] else null
  }

  ghost predicate Linked(xs: seq<Element>)
    reads xs
  {
    forall i :: 0 <= i < |xs| ==> xs[i].next == Nth(xs, i + 1)
  }

  lemma NextIs(xs: seq<Element>, i: nat)
    requires Linked(xs)
    ensures i < |xs| ==> xs[i].next == Nth(xs, i + 1)
  {
  }

  function Cut(xs: seq<Element>, i: nat): seq<Element>
    requires i < |xs|
  {
    xs[..i] + xs[i + 1..]
  }

  function FindPlace(xs: seq<Element>, place: nat, from: nat): (i: nat)
    requires from <= |xs|
    ensures from <= i <= |xs| && (i < |xs| ==> xs[i].place == place)
    ensures forall k :: from <= k < i ==> xs[k].place != place
    decreases |xs| - from
  {
    if from == |xs| || xs[from].place == place then from else FindPlace(xs, place, from + 1)
  }

  lemma Apart(xs: seq<Element>, k: nat)
    requires Distinct(xs) && k < |xs|
    ensures forall i :: 0 <= i < |xs| && i != k ==> xs[i] != xs[k]
  {
  }

  lemma CutDistinct(xs: seq<Element>, k: nat)
    requires Distinct(xs) && k < |xs|
    ensures var r := Cut(xs, k);
            Distinct(r) && xs[k] !in r && forall i :: 0 <= i < |r| ==> r[i] == xs[if i < k then i else i + 1]
  {
  }

  lemma AppendDistinct(xs: seq<Element>, e: Element)
    requires Distinct(xs) && e !in xs
    ensures Distinct(xs + [e]) && Distinct([e] + xs)
  {
  }

  lemma AppendWithin(xs: seq<Element>, e: Element, all: set<Element>)
    requires Within(xs, all)
    ensures Within(xs + [e], all + {e})
  {
  }

  lemma CutWithin(xs: seq<Element>, k: nat, all: set<Element>)
    requires k < |xs| && Within(xs, all)
    ensures Within(Cut(xs, k), all)
  {
  }

  lemma NotBeyond(xs: seq<Element>, k: nat)
    ensures k <= |xs| && Nth(xs, k) == null ==> k == |xs|
  {
  }

  lemma CutLength(xs: seq<Element>, k: nat)
    requires k < |xs|
    ensures |Cut(xs, k)| == |xs| - 1
  {
  }

  lemma CutEnd(xs: seq<Element>, k: nat)
    requires Distinct(xs) && k < |xs|
    ensures |Cut(xs, k)| == |xs| - 1 && (xs[|xs| - 1] == xs[k] <==> k == |xs| - 1)
    ensures |xs| > 1 ==> Cut(xs, k)[|xs| - 2] == xs[if k == |xs| - 1 then k - 1 else |xs| - 1]
    ensures k > 0 ==> Cut(xs, k)[k - 1] == xs[k - 1]
  {
  }

  /** A chain stays one if only the link of one element changes, and that of an element which is not in it. */
  lemma CutLinked(xs: seq<Element>, k: nat)
    requires k < |xs| && Distinct(xs)
    requires forall i :: 0 <= i < |xs| && i != k && i + 1 != k ==> xs[i].next == Nth(xs, i + 1)
    requires k > 0 ==> xs[k - 1].next == Nth(xs, k + 1)
    ensures Linked(Cut(xs, k))
  {
    var r := Cut(xs, k);
    CutDistinct(xs, k);
    hide Distinct, Cut;
    forall i | 0 <= i < |r|
      ensures r[i].next == Nth(r, i + 1)
    {
      assert r[i] == xs[if i < k then i else i + 1];
    }
  }

  lemma Links(xs: seq<Element>)
    requires Linked(xs)
    ensures forall i :: 0 <= i < |xs| ==> xs[i].next == Nth(xs, i + 1)
  {
  }

  lemma AppendLinked(xs: seq<Element>, e: Element)
    requires forall i :: 0 <= i < |xs| - 1 ==> xs[i].next == xs[i + 1]
    requires (xs != [] ==> xs[|xs| - 1].next == e) && e.next == null
    ensures Linked(xs + [e])
  {
    var ys := xs + [e];
    forall i | 0 <= i < |ys|
      ensures ys[i].next == Nth(ys, i + 1)
    {
      assert i < |xs| ==> ys[i] == xs[i];
    }
  }

  lemma PrependLinked(xs: seq<Element>, e: Element)
    requires Linked(xs) && e.next == Nth(xs, 0)
    ensures Linked([e] + xs)
  {
  }

  datatype Outcome<T> = Value(value: T) | Exception

  class List {
    var head: Element?
    var tail: Element?
    var count: nat
    var previous: Element?
    var current: Element?
    /** `RemoveCurrentHasOccured`. */
    var removed: bool
    /** The elements in order, and where the cursor is. */
    ghost var elements: seq<Element>
    ghost var at: nat
    /** All elements that have been in the list. */
    ghost var repr: set<Element>

    /** The chain; of an empty list the tail means nothing. */
    ghost predicate Valid()
      reads this, elements
    {
      && Distinct(elements) && count == |elements| && Linked(elements) && Within(elements, repr)
      && head == Nth(elements, 0) && (elements != [] ==> tail == elements[|elements| - 1])
    }

    /** The cursor is past the end, or at an element with the one before it remembered. */
    ghost predicate CursorOk()
      reads this
    {
      current != null ==>
        && at < |elements| && current == elements[at]
        && previous == if at == 0 then null else elements[at - 1]
    }

    constructor ()
      ensures Valid() && CursorOk() && elements == []
    {
      head, tail, count, previous, current, removed := null, null, 0, null, null, false;
      elements, at, repr := [], 0, {};
    }

    /** `Add`, at the tail. */
    method Add(place: nat, size: nat) returns (e: Element)
      requires Valid() && CursorOk()
      modifies this`head, this`tail, this`count, this`elements, this`repr, repr
      ensures Valid() && CursorOk() && fresh(e) && e.place == place && e.size == size
      ensures elements == old(elements) + [e]
    {
      assert forall x :: x in elements ==> x in repr;
      e := new Element(place, size);
      hide Distinct, Linked, Nth, Within;
      Link(e);
      Enlist(e);
    }

    /** The linked element is counted. */
    method Enlist(e: Element)
      requires Distinct(elements) && Within(elements, repr) && count == |elements| && e !in elements && CursorOk()
      requires Linked(elements + [e]) && head == Nth(elements + [e], 0) && tail == e
      modifies this`count, this`elements, this`repr
      ensures Valid() && CursorOk() && elements == old(elements) + [e] && repr == old(repr) + {e}
    {
      AppendDistinct(elements, e);
      AppendWithin(elements, e, repr);
      hide Distinct, Linked, Nth, Within;
      elements, repr, count := elements + [e], repr + {e}, count + 1;
    }

    /** The new element becomes the last one. */
    method Link(e: Element)
      requires Valid() && e !in elements && e.next == null
      modifies this`head, this`tail, repr
      ensures Linked(elements + [e]) && head == Nth(elements + [e], 0) && tail == e
    {
      hide Distinct, Linked;
      Links(elements);
      if head == null {
        tail := e;
        head := e;
        assert elements + [e] == [e];
      } else {
        Apart(elements, |elements| - 1);
        tail.next := e;
        tail := e;
      }
      AppendLinked(elements, e);
    }

    /** `AddHead`. The cursor stays right unless it is at the first element. */
    method AddHead(place: nat, size: nat) returns (e: Element)
      requires Valid() && CursorOk()
      modifies this`head, this`tail, this`count, this`elements, this`at, this`repr
      ensures Valid() && fresh(e) && e.place == place && e.size == size
      ensures elements == [e] + old(elements)
      ensures CursorOk() <==> current == null || current != old(head)
    {
      hide Distinct, Linked;
      e := new Element(place, size);
      AppendDistinct(elements, e);
      if elements != [] {
        Apart(elements, 0);
      }
      if head == null {
        tail := e;
        head := e;
      } else {
        e.next := head;
        head := e;
      }
      PrependLinked(elements, e);
      count := count + 1;
      elements, repr := [e] + elements, repr + {e};
      at := at + 1;
    }

    /** `First`. */
    method First()
      requires Valid()
      modifies this`previous, this`current, this`removed, this`at
      ensures Valid() && CursorOk() && !removed && at == 0 && current == Nth(elements, 0)
    {
      previous, current, removed, at := null, head, false, 0;
    }

    predicate NotAtEnd()
      reads this
    {
      current != null
    }

    /** `Next`: after a removal the cursor is already at the next element. */
    method Next() returns (more: bool)
      requires Valid() && CursorOk()
      modifies this`previous, this`current, this`removed, this`at
      ensures Valid() && CursorOk() && !removed
      ensures old(current) == null || old(removed)
            ==> current == old(current) && at == old(at) && more == (current != null)
      ensures old(current) != null && !old(removed) ==> at == old(at) + 1 <= |elements| && current == Nth(elements, at)
      ensures more == (current != null)
    {
      hide Distinct, Linked, Within;
      NextIs(elements, at);
      if current == null {
        removed := false;
        return false;
      }
      if removed {
        removed := false;
        return true;
      }
      previous := current;
      current := current.next;
      at := at + 1;
      more := current != null;
    }

    /** `GetCurrent`: not between a removal and the next step. */
    method GetCurrent() returns (r: Outcome<Element?>)
      requires Valid() && CursorOk()
      ensures removed ==> r == Exception
      ensures !removed ==> r.Value? && (r.value == null <==> current == null)
      ensures !removed && current != null ==> at < |elements| && r.value == elements[at]
    {
      r := if removed then Exception else Value(current);
    }

    /** `RemoveCurrent`. The chain closes and the cursor moves to the element behind. */
    method RemoveCurrent() returns (r: Outcome<bool>)
      requires Valid() && CursorOk()
      modifies this`head, this`tail, this`count, this`current, this`removed, this`elements, repr
      ensures Valid() && CursorOk() && removed
      ensures r == if old(removed) then Exception else Value(old(current) != null)
      ensures old(removed) || old(current) == null ==> elements == old(elements) && current == old(current)
      ensures !old(removed) && old(current) != null
            ==> elements == Cut(old(elements), at) && current == Nth(elements, at)
    {
      hide Distinct, Linked, Within;
      if removed {
        return Exception;
      }
      removed := true;
      if current == null {
        return Value(false);
      }
      var tmp := current;
      Relink();
      DropElement(tmp);
      r := Value(true);
    }

    /** The links and the cursor go past the current element. */
    method Relink()
      requires Valid() && CursorOk() && current != null
      modifies this`head, this`current, repr
      ensures Linked(Cut(elements, at)) && head == Nth(Cut(elements, at), 0) && current == Nth(Cut(elements, at), at)
    {
      hide Distinct, Linked;
      var tmp := current;
      Links(elements);
      Apart(elements, at);
      if head == tmp {
        Apart(elements, 0);
        head := tmp.next;
        current := head;
      } else {
        Apart(elements, at - 1);
        previous.next := tmp.next;
        current := tmp.next;
      }
      CutLinked(elements, at);
    }

    /** The tail and the count follow, and the element is given back. */
    method DropElement(tmp: Element)
      requires Distinct(elements) && Within(elements, repr) && count == |elements| && at < |elements|
            && tmp == elements[at]
      requires tail == elements[|elements| - 1] && previous == (if at == 0 then null else elements[at - 1])
      requires Linked(Cut(elements, at)) && head == Nth(Cut(elements, at), 0) && current == Nth(Cut(elements, at), at)
      modifies this`tail, this`count, this`elements
      ensures Valid() && CursorOk()
      ensures elements == Cut(old(elements), at)
    {
      hide Distinct, Linked, Within;
      CutDistinct(elements, at);
      CutEnd(elements, at);
      CutWithin(elements, at, repr);
      hide Cut;
      if tail == tmp {
        tail := previous;
      }
      elements, count := Cut(elements, at), count - 1;
    }

    /** `Remove`: the first element whose block is at this place goes, if there is one. */
    method Remove(place: nat) returns (found: bool)
      requires Valid()
      modifies this, repr
      ensures Valid() && CursorOk()
      ensures var xs := old(elements); var i := FindPlace(xs, place, 0);
              && found == (i < |xs|)
              && elements == (if found then Cut(xs, i) else xs)
    {
      First();
      while NotAtEnd()
        invariant Valid() && CursorOk() && !removed && elements == old(elements)
        invariant current == null ==> at == |elements|
        invariant repr == old(repr)
        invariant FindPlace(elements, place, at) == FindPlace(elements, place, 0)
        decreases |elements| - at
      {
        hide Valid, FindPlace;
        if current.place == place {
          var r := RemoveCurrent();
          return true;
        }
        var more := Next();
      }
      found := false;
    }

    /** `ExtractFirst`. The cursor stays right unless it is at one of the first two elements. */
    method ExtractFirst() returns (r: Outcome<Element>)
      requires Valid() && CursorOk()
      modifies this`head, this`tail, this`count, this`elements, this`at
      ensures Valid()
      ensures old(elements) == [] ==> r == Exception && elements == [] && CursorOk()
      ensures old(elements) != [] ==> r == Value(old(elements)[0]) && elements == old(elements)[1..]
      ensures old(elements) != [] ==> (CursorOk() <==> current == null || old(at) >= 2)
    {
      if head == null {
        return Exception;
      }
      var e := head;
      if head == tail {
        head, tail := null, null;
        assert elements[0] == elements[|elements| - 1];
      } else {
        head := e.next;
      }
      count := count - 1;
      elements := elements[1..];
      at := if at > 0 then at - 1 else at;
      r := Value(e);
    }

    /** `Empty`. Every element is given back; a cursor at one of them is not reset. */
    method Empty()
      requires Valid()
      modifies this`head, this`count, this`elements
      ensures Valid() && elements == [] && count == 0
      ensures CursorOk() <==> current == null
    {
      ghost var all := elements;
      while head != null
        invariant Valid() && |elements| <= |all| && elements == all[|all| - |elements|..]
        decreases |elements|
      {
        var tmp := head;
        head := head.next;
        elements := elements[1..];
        count := count - 1;
      }
    }

    /**
     The loop that is written all over the repository: each element is looked at
     once, the chosen ones are removed and given back, the others stay in order.
     */
    method Sweep(chosen: set<Element>) returns (visited: seq<Element>)
      requires Valid()
      modifies this, repr
      ensures Valid() && visited == old(elements) && elements == Without(old(elements), chosen)
    {
      ghost var all := elements;
      visited := [];
      First();
      while NotAtEnd()
        invariant Valid() && CursorOk() && !removed
        invariant (current == null ==> at == |elements|) && Swept(all, chosen, visited, elements, at)
        invariant repr == old(repr)
        decreases |elements| - at
      {
        var e := Visit(chosen, all, visited);
        visited := visited + [e];
      }
      assert elements[..at] == elements && all[..|all|] == all;
    }

    /** One round of the loop. */
    method Visit(chosen: set<Element>, ghost all: seq<Element>, ghost visited: seq<Element>) returns (e: Element)
      requires Valid() && CursorOk() && !removed && current != null && Swept(all, chosen, visited, elements, at)
      modifies this`head, this`tail, this`count, this`previous, this`current, this`removed, this`elements, this`at, repr
      ensures Valid() && CursorOk() && !removed && repr == old(repr)
      ensures (current == null ==> at == |elements|) && Swept(all, chosen, visited + [e], elements, at)
      ensures |elements| - at < |old(elements)| - old(at)
    {
      SweptNext(all, chosen, visited, elements, at);
      CutLength(elements, at);
      hide Swept, Without, Cut, Nth;
      var c := GetCurrent();
      e := c.value;
      RemoveAndGoOn(e in chosen);
      NotBeyond(elements, at);
    }

    /** The current element goes or stays, and the cursor is at the one behind it. */
    method RemoveAndGoOn(remove: bool)
      requires Valid() && CursorOk() && !removed && current != null
      modifies this`head, this`tail, this`count, this`previous, this`current, this`removed, this`elements, this`at, repr
      ensures Valid() && CursorOk() && !removed && repr == old(repr) && current == Nth(elements, at) && at <= |elements|
      ensures elements == old(if remove then Cut(elements, at) else elements)
      ensures at == old(at) + if remove then 0 else 1
    {
      hide Valid, Nth;
      CutLength(elements, at);
      if remove {
        var r := RemoveCurrent();
      }
      var more := Next();
    }
  }
}

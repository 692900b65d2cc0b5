/**
 The list of services of ServiceControl/DnsSdProxy.cpp as a state machine.
 Entries are numbered as they are made, so it can be said which of them
 have been freed. Every step runs under the lock of the proxy.
 */
module DnsSdModel {
  import opened Names

  datatype Entry = Entry(id: nat, name: Name, present: bool)

  /**
   The static members of the proxy, and what they do not say: which entries
   have been freed, and which copies of the list are in use, with the entries
   they point to.
   */
  datatype Proxy = Proxy(
    instances: nat,
    services: seq<Entry>,
    /** `CurrentNumberOfServicesListCopies` and `NeedToCleanupServicesList`. */
    copies: int,
    dirty: bool,
    made: nat,
    freed: set<nat>,
    lists: map<nat, seq<nat>>,
    listsMade: nat)

  // ---- Lists of entries ----

  function Ids(es: seq<Entry>): (r: seq<nat>)
    ensures |r| == |es| && forall i :: 0 <= i < |es| ==> r[i] == es[i].id
  {
    seq(|es|, i requires 0 <= i < |es| => es[i].id)
  }

  function IdSet(es: seq<Entry>): set<nat> { set i | 0 <= i < |es| :: es[i].id }

  /** The entries that are here, and those only marked. */
  function Present(es: seq<Entry>): (r: seq<Entry>) {
    if es == [] then [] else (if es[0].present then [es[0]] else []) + Present(es[1..])
  }

  function Marked(es: seq<Entry>): set<nat> { set i | 0 <= i < |es| && !es[i].present :: es[i].id }

  predicate Listed(es: seq<Entry>, name: Name) { exists i :: 0 <= i < |es| && es[i].name == name }

  /** The first entry with this name up to case, or the length. */
  function Find(es: seq<Entry>, name: Name, from: nat): (i: nat)
    requires from <= |es|
    ensures from <= i <= |es| && (i < |es| ==> SameName(es[i].name, name))
    ensures forall k :: from <= k < i ==> !SameName(es[k].name, name)
    decreases |es| - from
  {
    if from == |es| || SameName(es[from].name, name) then from else Find(es, name, from + 1)
  }

  lemma {:induction false} PresentConcat(xs: seq<Entry>, ys: seq<Entry>)
    ensures Present(xs + ys) == Present(xs) + Present(ys)
    decreases |xs|
  {
    if xs == [] {
      assert xs + ys == ys;
    } else {
      assert (xs + ys)[0] == xs[0] && (xs + ys)[1..] == xs[1..] + ys;
      PresentConcat(xs[1..], ys);
    }
  }

  lemma PresentOne(e: Entry)
    ensures Present([e]) == if e.present then [e] else []
  {
    assert [e][1..] == [];
  }

  lemma DropMarked(es: seq<Entry>, i: nat)
    requires i < |es| && !es[i].present
    ensures var fs := es[..i] + es[i + 1..]; Present(fs) == Present(es) && Marked(es) == Marked(fs) + {es[i].id}
  {
    var a, e, b := es[..i], es[i], es[i + 1..];
    var fs := a + b;
    PartedAt(es, i);
    assert Present(fs) == Present(es) by {
      hide Present;
      PresentConcat(a, b);
      PresentConcat(a, [e] + b);
      PresentConcat([e], b);
      PresentOne(e);
    }
    hide Present;
    forall x | x in Marked(es) && x != e.id
      ensures x in Marked(fs)
    {
      var k :| 0 <= k < |es| && !es[k].present && es[k].id == x;
      assert fs[if k < i then k else k - 1] == es[k];
    }
  }

  lemma PartedAt<T>(s: seq<T>, i: nat)
    requires i < |s|
    ensures s == s[..i] + ([s[i]] + s[i + 1..])
    ensures var r := s[..i] + s[i + 1..];
            |r| == |s| - 1 && forall k :: 0 <= k < |r| ==> r[k] == s[if k < i then k else k + 1]
  {
  }

  // ---- Steps ----

  /** `CleanupServicesList`: marked entries are freed if nobody uses a copy of the list. */
  function Cleanup(p: Proxy): Proxy {
    if p.dirty && p.copies == 0 then
      p.(services := Present(p.services), dirty := false, freed := p.freed + Marked(p.services))
    else p
  }

  /** `BrowseCollect` for a new service: nothing happens if an entry of this name is in the list, marked or not. */
  function Appear(p: Proxy, name: Name): Proxy {
    if p.instances == 0 || Listed(p.services, name) then p
    else Cleanup(More(p, name))
  }

  /** `BrowseCollect` for a service that is gone. */
  function Vanish(p: Proxy, name: Name): Proxy {
    if p.instances == 0 then p
    else
      var i := Find(p.services, name, 0);
      if i == |p.services| then p
      else if p.copies == 0 then
        p.(services := p.services[..i] + p.services[i + 1..], freed := p.freed + {p.services[i].id})
      else
        p.(services := p.services[i := p.services[i].(present := false)], dirty := true)
  }

  /** `GetCurrentServicesList`: a copy of the list, or NULL. */
  function Snapshot(p: Proxy): Proxy {
    if p.instances == 0 then p
    else
      var q := Cleanup(p);
      q.(copies := q.copies + 1, lists := q.lists[q.listsMade := Ids(Present(q.services))],
          listsMade := q.listsMade + 1)
  }

  /** The destructor of a copy. */
  function Release(p: Proxy, list: nat): Proxy
    requires list in p.lists
  {
    p.(copies := p.copies - 1, lists := p.lists - {list})
  }

  lemma NoSnapshot(p: Proxy)
    ensures p.instances == 0 ==> Snapshot(p) == p
    ensures Snapshot(p).instances == p.instances
  {
    hide Present, Marked, Ids;
  }

  /** `AddClient`, and `RemoveClient` for a registered client, with or without telling it the current services. */
  function Tell(p: Proxy, services: bool): Proxy {
    var q := Cleanup(p);
    if services && q.instances > 0 then
      var s := Snapshot(q);
      Release(s, q.listsMade)
    else q
  }

  datatype Step =
    | Appears(name: Name) | Vanishes(name: Name)
    | Takes | Releases(list: nat)
    | Polls | Tells(services: bool) | Starts

  /** One call of the proxy by anybody. A list that is not in use cannot be released. */
  function Next(p: Proxy, s: Step): Proxy {
    match s
    case Appears(name) => Appear(p, name)
    case Vanishes(name) => Vanish(p, name)
    case Takes => Snapshot(p)
    case Releases(list) => if list in p.lists then Release(p, list) else p
    case Polls => Cleanup(p)
    case Tells(services) => Tell(p, services)
    case Starts => p.(instances := p.instances + 1)
  }

  function Run(p: Proxy, steps: seq<Step>): Proxy {
    if steps == [] then p else Next(Run(p, steps[..|steps| - 1]), steps[|steps| - 1])
  }

  const EMPTY := Proxy(0, [], 0, false, 0, {}, map[], 0)

  // ---- What every step keeps ----

  predicate Distinct(es: seq<Entry>) {
    forall i, j :: 0 <= i < j < |es| ==> es[i].id != es[j].id && es[i].name != es[j].name
  }

  /** No copy of the list in use points to a freed entry. */
  predicate Safe(p: Proxy) {
    forall l, k :: l in p.lists && 0 <= k < |p.lists[l]| ==> p.lists[l][k] !in p.freed
  }

  ghost predicate Inv(p: Proxy) {
    && p.copies == |p.lists|
    && Distinct(p.services)
    && (forall i :: i in IdSet(p.services) <==> 0 <= i < p.made && i !in p.freed)
    && (forall i :: i in p.freed ==> i < p.made)
    && (forall l, k :: l in p.lists && 0 <= k < |p.lists[l]| ==> p.lists[l][k] in IdSet(p.services))
    && (Marked(p.services) != {} ==> p.dirty)
    && (forall l :: l in p.lists ==> l < p.listsMade)
  }

  lemma HeadOf<T>(s: seq<T>)
    requires s != []
    ensures forall x :: x in s <==> x == s[0] || x in s[1..]
  {
    assert s == [s[0]] + s[1..];
  }

  lemma {:induction false} PresentIn(es: seq<Entry>)
    ensures forall e :: e in Present(es) <==> e in es && e.present
    decreases |es|
  {
    if es != [] {
      PresentIn(es[1..]);
      HeadOf(es);
    }
  }

  lemma {:induction false} PresentDistinct(es: seq<Entry>)
    requires Distinct(es)
    ensures Distinct(Present(es))
    decreases |es|
  {
    if es != [] {
      var r := Present(es[1..]);
      PresentDistinct(es[1..]);
      PresentIn(es[1..]);
      if es[0].present {
        forall i | 0 <= i < |r|
          ensures r[i].id != es[0].id && r[i].name != es[0].name
        {
          assert r[i] in es[1..];
          var j :| 0 <= j < |es| - 1 && es[1..][j] == r[i];
          assert es[j + 1] == r[i];
        }
        assert Present(es) == [es[0]] + r;
      }
    }
  }

  lemma PresentIs(es: seq<Entry>)
    requires Distinct(es)
    ensures Distinct(Present(es)) && Marked(Present(es)) == {}
    ensures forall i :: 0 <= i < |Present(es)| ==> Present(es)[i] in es && Present(es)[i].present
    ensures forall e :: e in es && e.present ==> e in Present(es)
  {
    PresentIn(es);
    PresentDistinct(es);
    hide Present, Distinct;
    assert forall i :: 0 <= i < |Present(es)| ==> Present(es)[i] in Present(es);
  }

  lemma CleanupKeeps(p: Proxy)
    requires Inv(p)
    ensures Inv(Cleanup(p)) && Cleanup(p).lists == p.lists && Cleanup(p).listsMade == p.listsMade
    ensures p.copies == 0 ==> Marked(Cleanup(p).services) == {}
  {
    if p.dirty && p.copies == 0 {
      PresentIs(p.services);
      var q := Cleanup(p);
      assert |p.lists| == 0;
      forall i
        ensures i in IdSet(q.services) <==> i in IdSet(p.services) && i !in Marked(p.services)
      {
        PresentIds(p.services, i);
      }
    }
  }

  lemma PresentIds(es: seq<Entry>, i: nat)
    requires Distinct(es)
    ensures i in IdSet(Present(es)) <==> i in IdSet(es) && i !in Marked(es)
  {
    hide Present;
    PresentIs(es);
    if i in IdSet(Present(es)) {
      var k :| 0 <= k < |Present(es)| && Present(es)[k].id == i;
      var j :| 0 <= j < |es| && es[j] == Present(es)[k];
    }
    if i in IdSet(es) && i !in Marked(es) {
      var j :| 0 <= j < |es| && es[j].id == i;
      assert es[j] in Present(es);
    }
  }

  /** The list with a new entry. */
  function More(p: Proxy, name: Name): Proxy {
    p.(services := p.services + [Entry(p.made, name, true)], made := p.made + 1)
  }

  lemma MoreKeeps(p: Proxy, name: Name)
    requires Inv(p) && !Listed(p.services, name)
    ensures Inv(More(p, name))
  {
    var e := Entry(p.made, name, true);
    AppendDistinct(p, name);
    AppendIds(p.services, e);
    hide Distinct, IdSet, Marked, Listed;
    assert p.made !in IdSet(p.services);
  }

  lemma AppearKeeps(p: Proxy, name: Name)
    requires Inv(p)
    ensures Inv(Appear(p, name))
  {
    if p.instances > 0 && !Listed(p.services, name) {
      MoreKeeps(p, name);
      hide Inv, Listed;
      CleanupKeeps(More(p, name));
    }
  }

  lemma AppendIds(es: seq<Entry>, e: Entry)
    ensures IdSet(es + [e]) == IdSet(es) + {e.id}
    ensures e.present ==> Marked(es + [e]) == Marked(es)
  {
    var fs := es + [e];
    assert forall i :: 0 <= i < |es| ==> fs[i] == es[i];
    assert fs[|es|] == e;
  }

  lemma VanishKeeps(p: Proxy, name: Name)
    requires Inv(p)
    ensures Inv(Vanish(p, name))
  {
    hide Find;
    var i := Find(p.services, name, 0);
    if p.instances > 0 && i < |p.services| {
      var es := p.services;
      if p.copies == 0 {
        RemoveIds(es, i);
        assert |p.lists| == 0;
      } else {
        MarkIds(es, i);
      }
    }
  }

  lemma RemoveIds(es: seq<Entry>, i: nat)
    requires Distinct(es) && i < |es|
    ensures var fs := es[..i] + es[i + 1..];
            Distinct(fs) && IdSet(fs) == IdSet(es) - {es[i].id} && Marked(fs) <= Marked(es)
  {
    var fs := es[..i] + es[i + 1..];
    assert forall k :: 0 <= k < |fs| ==> fs[k] == es[if k < i then k else k + 1];
    forall x | x in IdSet(es) && x != es[i].id
      ensures x in IdSet(fs)
    {
      var k :| 0 <= k < |es| && es[k].id == x;
      assert fs[if k < i then k else k - 1].id == x;
    }
  }

  lemma MarkIds(es: seq<Entry>, i: nat)
    requires Distinct(es) && i < |es|
    ensures var fs := es[i := es[i].(present := false)]; Distinct(fs) && IdSet(fs) == IdSet(es)
  {
    var fs := es[i := es[i].(present := false)];
    assert forall k :: 0 <= k < |es| ==> fs[k].id == es[k].id && fs[k].name == es[k].name;
  }

  lemma SnapshotKeeps(p: Proxy)
    requires Inv(p)
    ensures Inv(Snapshot(p))
  {
    if p.instances > 0 {
      CleanupKeeps(p);
      var q := Cleanup(p);
      PresentIs(q.services);
      forall k | 0 <= k < |Present(q.services)|
        ensures Present(q.services)[k].id in IdSet(q.services)
      {
        var j :| 0 <= j < |q.services| && q.services[j] == Present(q.services)[k];
      }
      assert q.listsMade !in q.lists;
    }
  }

  lemma ReleaseKeeps(p: Proxy, list: nat)
    requires Inv(p) && list in p.lists
    ensures Inv(Release(p, list))
  {
    var q := Release(p, list);
    assert q.lists.Keys == p.lists.Keys - {list};
    assert |q.lists| == |p.lists| - 1;
  }

  lemma NextKeeps(p: Proxy, s: Step)
    requires Inv(p)
    ensures Inv(Next(p, s))
  {
    match s
    case Appears(name) => AppearKeeps(p, name);
    case Vanishes(name) => VanishKeeps(p, name);
    case Takes => SnapshotKeeps(p);
    case Releases(list) =>
      if list in p.lists {
        ReleaseKeeps(p, list);
      }
    case Polls => CleanupKeeps(p);
    case Starts =>
    case Tells(services) =>
      CleanupKeeps(p);
      var q := Cleanup(p);
      if services && q.instances > 0 {
        SnapshotKeeps(q);
        CleanupKeeps(q);
        ReleaseKeeps(Snapshot(q), q.listsMade);
      }
  }

  lemma {:induction false} RunKeeps(p: Proxy, steps: seq<Step>)
    requires Inv(p)
    ensures Inv(Run(p, steps))
    decreases |steps|
  {
    if steps != [] {
      RunKeeps(p, steps[..|steps| - 1]);
      hide Inv;
      NextKeeps(Run(p, steps[..|steps| - 1]), steps[|steps| - 1]);
    }
  }

  /**
   In every interleaving, no copy of the list in use points to a freed entry;
   and nothing leaks: an entry that was made is in the list or has been freed.
   */
  lemma NeverDangling(steps: seq<Step>)
    ensures var p := Run(EMPTY, steps);
            && Safe(p)
            && p.copies == |p.lists|
            && forall i :: 0 <= i < p.made ==> (i in p.freed <==> i !in IdSet(p.services))
  {
    assert Inv(EMPTY);
    RunKeeps(EMPTY, steps);
  }

  /** Once no copy is in use, the next cleanup leaves exactly the services that are here. */
  lemma CleanupIsComplete(steps: seq<Step>)
    ensures var p := Run(EMPTY, steps);
            p.copies == 0 ==> forall e :: e in Cleanup(p).services <==> e in p.services && e.present
  {
    assert Inv(EMPTY);
    RunKeeps(EMPTY, steps);
    var p := Run(EMPTY, steps);
    PresentIs(p.services);
    if p.copies == 0 && !p.dirty {
      forall e | e in p.services
        ensures e.present
      {
        var i :| 0 <= i < |p.services| && p.services[i] == e;
        assert !e.present ==> e.id in Marked(p.services);
      }
    }
  }

  // ---- What a copy shows ----

  predicate Has(es: seq<Entry>, name: Name, present: bool) {
    exists i :: 0 <= i < |es| && es[i].name == name && es[i].present == present
  }

  predicate Shows(p: Proxy, list: nat, name: Name) {
    && list in p.lists
    && exists i :: 0 <= i < |p.services| && p.services[i].name == name && p.services[i].id in p.lists[list]
  }

  /** A copy of the list shows the entries that are here. */
  lemma PresentShown(es: seq<Entry>, name: Name)
    requires Distinct(es)
    ensures (exists i :: 0 <= i < |es| && es[i].name == name && es[i].id in Ids(Present(es))) <==> Has(es, name, true)
  {
    PresentIs(es);
    var ps := Present(es);
    if i :| 0 <= i < |es| && es[i].name == name && es[i].id in Ids(ps) {
      var k :| 0 <= k < |ps| && Ids(ps)[k] == es[i].id;
      assert ps[k] in es;
      var j :| 0 <= j < |es| && es[j] == ps[k];
      assert j == i;
    }
    if i :| 0 <= i < |es| && es[i].name == name && es[i].present {
      assert es[i] in ps;
      var k :| 0 <= k < |ps| && ps[k] == es[i];
      assert Ids(ps)[k] == es[i].id;
    }
  }

  lemma CleanupHas(p: Proxy, name: Name)
    requires Inv(p)
    ensures Has(Cleanup(p).services, name, true) <==> Has(p.services, name, true)
  {
    PresentIs(p.services);
    if i :| 0 <= i < |p.services| && p.services[i].name == name && p.services[i].present {
      assert p.services[i] in Cleanup(p).services;
    }
  }

  lemma SnapshotShows(p: Proxy, name: Name)
    requires Inv(p) && p.instances > 0
    ensures Shows(Snapshot(p), p.listsMade, name) <==> Has(p.services, name, true)
  {
    CleanupKeeps(p);
    CleanupHas(p, name);
    hide Present, Has;
    PresentShown(Cleanup(p).services, name);
  }

  /**
   A service that appears is shown by the next copy of the list, unless an
   entry of its name is still in the list and marked as gone: then the
   announcement is lost.
   */
  lemma AppearShown(p: Proxy, name: Name)
    requires Inv(p) && p.instances > 0
    ensures var q := Appear(p, name); Shows(Snapshot(q), q.listsMade, name) <==> !Has(p.services, name, false)
  {
    var q := Appear(p, name);
    AppearKeeps(p, name);
    SnapshotShows(q, name);
    if Listed(p.services, name) {
      var i :| 0 <= i < |p.services| && p.services[i].name == name;
      assert forall j :: 0 <= j < |p.services| && p.services[j].name == name ==> j == i;
    } else {
      var es := p.services + [Entry(p.made, name, true)];
      var m := p.(services := es, made := p.made + 1);
      assert forall i :: 0 <= i < |p.services| ==> es[i] == p.services[i];
      AppendDistinct(p, name);
      PresentIs(es);
      assert es[|p.services|] in q.services;
    }
  }

  lemma AppendDistinct(p: Proxy, name: Name)
    requires Inv(p) && !Listed(p.services, name)
    ensures Distinct(p.services + [Entry(p.made, name, true)])
  {
    assert forall i :: 0 <= i < |p.services| ==> p.services[i].id in IdSet(p.services);
  }

  /** The announcement is lost: taken, gone, back again, released, and still not there. */
  lemma AnnouncementLost()
    ensures var p := Run(EMPTY, [Starts, Appears("a"), Takes, Vanishes("a"), Appears("a"), Releases(0)]);
            p.instances > 0 && p.copies == 0 && !Shows(Snapshot(p), p.listsMade, "a")
  {
    var s0 := [Starts, Appears("a"), Takes, Vanishes("a"), Appears("a"), Releases(0)];
    var e := Entry(0, "a", true);
    var gone := Entry(0, "a", false);
    var p1 := Proxy(1, [], 0, false, 0, {}, map[], 0);
    var p2 := Proxy(1, [e], 0, false, 1, {}, map[], 0);
    var p3 := Proxy(1, [e], 1, false, 1, {}, map[0 := [0]], 1);
    var p4 := Proxy(1, [gone], 1, true, 1, {}, map[0 := [0]], 1);
    var p6 := Proxy(1, [gone], 0, true, 1, {}, map[], 1);
    assert s0 == [] + [Starts] + [Appears("a")] + [Takes] + [Vanishes("a")] + [Appears("a")] + [Releases(0)];
    RunMore(EMPTY, [], Starts);
    RunMore(EMPTY, [] + [Starts], Appears("a"));
    RunMore(EMPTY, [] + [Starts] + [Appears("a")], Takes);
    RunMore(EMPTY, [] + [Starts] + [Appears("a")] + [Takes], Vanishes("a"));
    RunMore(EMPTY, [] + [Starts] + [Appears("a")] + [Takes] + [Vanishes("a")], Appears("a"));
    RunMore(EMPTY, [] + [Starts] + [Appears("a")] + [Takes] + [Vanishes("a")] + [Appears("a")], Releases(0));
    assert Run(EMPTY, []) == EMPTY by { NothingRun(EMPTY); }
    hide Run;
    assert Next(EMPTY, Starts) == p1;
    assert Next(p1, Appears("a")) == p2;
    TakeFirst(p2);
    assert Next(p2, Takes) == p3;
    assert Next(p3, Vanishes("a")) == p4;
    assert Listed(p4.services, "a") by { assert p4.services[0].name == "a"; }
    assert Next(p4, Appears("a")) == p4;
    assert Next(p4, Releases(0)) == p6;
    NotShown(p6);
  }

  lemma NothingRun(p: Proxy)
    ensures Run(p, []) == p
  {
  }

  lemma RunMore(p: Proxy, steps: seq<Step>, t: Step)
    ensures Run(p, steps + [t]) == Next(Run(p, steps), t)
  {
    assert (steps + [t])[..|steps|] == steps;
    hide Next;
  }

  lemma NotShown(p: Proxy)
    requires p == Proxy(1, [Entry(0, "a", false)], 0, true, 1, {}, map[], 1)
    ensures !Shows(Snapshot(p), p.listsMade, "a")
  {
    assert p.services[1..] == [];
    assert Present(p.services) == [];
  }

  lemma TakeFirst(p: Proxy)
    requires p == Proxy(1, [Entry(0, "a", true)], 0, false, 1, {}, map[], 0)
    ensures Snapshot(p) == Proxy(1, p.services, 1, false, 1, {}, map[0 := [0]], 1)
  {
    assert p.services[1..] == [];
    assert Present(p.services) == p.services;
    assert Ids(p.services) == [0];
  }

  /**
   A service that is gone is not shown by the next copy, unless an entry before
   it has the same name but for case: then that other entry is taken for it.
   */
  lemma VanishHidden(p: Proxy, name: Name)
    requires Inv(p) && p.instances > 0
    ensures var q := Vanish(p, name); var i := Find(p.services, name, 0);
            Shows(Snapshot(q), q.listsMade, name) <==>
              Has(p.services, name, true) && i < |p.services| && p.services[i].name != name
  {
    var q := Vanish(p, name);
    VanishKeeps(p, name);
    SnapshotShows(q, name);
    hide Shows, Snapshot;
    var i := Find(p.services, name, 0);
    if i < |p.services| {
      VanishHas(p.services, name, i);
    } else if k :| 0 <= k < |p.services| && p.services[k].name == name && p.services[k].present {
      assert !SameName(p.services[k].name, name);
    }
  }

  lemma VanishHas(es: seq<Entry>, name: Name, i: nat)
    requires Distinct(es) && i < |es|
    ensures var fs := es[..i] + es[i + 1..]; Has(fs, name, true) <==> Has(es, name, true) && es[i].name != name
    ensures var fs := es[i := es[i].(present := false)];
            Has(fs, name, true) <==> Has(es, name, true) && es[i].name != name
  {
    var fs, gs := es[..i] + es[i + 1..], es[i := es[i].(present := false)];
    assert forall k :: 0 <= k < |fs| ==> fs[k] == es[if k < i then k else k + 1];
    assert forall k :: 0 <= k < |gs| && k != i ==> gs[k] == es[k];
    if k :| 0 <= k < |es| && es[k].name == name && es[k].present && k != i {
      assert fs[if k < i then k else k - 1] == es[k] && gs[k] == es[k];
    }
  }

  // ---- What a step does, and what it leaves alone ----

  /** The entry that a goodbye is taken for: the first one with this name up to case. */
  predicate TakenFor(p: Proxy, name: Name, other: Name) {
    var i := Find(p.services, name, 0);
    p.instances > 0 && i < |p.services| && p.services[i].name == other
  }

  /**
   After any step a service is here exactly if it was before, but for the one
   that is announced, and the one that a goodbye is taken for.
   */
  lemma HereExactly(p: Proxy, s: Step, other: Name)
    requires Inv(p)
    ensures Has(Next(p, s).services, other, true) <==>
              match s
              case Appears(name) =>
                if other == name && p.instances > 0 then !Has(p.services, name, false) else Has(p.services, other, true)
              case Vanishes(name) => Has(p.services, other, true) && !TakenFor(p, name, other)
              case _ => Has(p.services, other, true)
  {
    match s
    case Appears(name) =>
      hide Has, Appear;
      AppearHas(p, name, other);
    case Vanishes(name) =>
      var i := Find(p.services, name, 0);
      hide Find, Has;
      if p.instances > 0 && i < |p.services| {
        VanishHas(p.services, other, i);
      }
    case _ =>
      hide Has, Cleanup;
      CleanupKeeps(p);
      CleanupHas(p, other);
      CleanupHas(Cleanup(p), other);
      hide Inv;
  }

  lemma AppearHas(p: Proxy, name: Name, other: Name)
    requires Inv(p)
    ensures Has(Appear(p, name).services, other, true) <==>
              if other == name && p.instances > 0 then !Has(p.services, name, false) else Has(p.services, other, true)
  {
    if Listed(p.services, name) {
      var i :| 0 <= i < |p.services| && p.services[i].name == name;
      assert forall j :: 0 <= j < |p.services| && p.services[j].name == name ==> j == i;
    } else if p.instances > 0 {
      MoreKeeps(p, name);
      CleanupHas(More(p, name), other);
      MoreHas(p.services, Entry(p.made, name, true), other);
      hide Has, Inv, Cleanup;
      NotListed(p.services, name);
    }
  }

  lemma MoreHas(es: seq<Entry>, e: Entry, other: Name)
    requires e.present
    ensures Has(es + [e], other, true) <==> Has(es, other, true) || e.name == other
  {
    var fs := es + [e];
    assert fs[|es|] == e && forall i :: 0 <= i < |es| ==> fs[i] == es[i];
  }

  lemma NotListed(es: seq<Entry>, name: Name)
    requires !Listed(es, name)
    ensures !Has(es, name, true) && !Has(es, name, false)
  {
  }

  /** The same in what the next copy shows. */
  lemma ShownExactly(p: Proxy, s: Step, other: Name)
    requires Inv(p) && p.instances > 0
    ensures var q := Next(p, s);
            Shows(Snapshot(q), q.listsMade, other) <==>
              match s
              case Appears(name) =>
                if other == name then !Has(p.services, name, false) else Shows(Snapshot(p), p.listsMade, other)
              case Vanishes(name) => Shows(Snapshot(p), p.listsMade, other) && !TakenFor(p, name, other)
              case _ => Shows(Snapshot(p), p.listsMade, other)
  {
    NextKeeps(p, s);
    HereExactly(p, s, other);
    InstancesKept(p, s);
    SnapshotShows(p, other);
    SnapshotShows(Next(p, s), other);
    hide Inv, Next, Snapshot, Shows, Has, TakenFor;
  }

  lemma InstancesKept(p: Proxy, s: Step)
    ensures Next(p, s).instances == p.instances + if s.Starts? then 1 else 0
  {
    NoSnapshot(Cleanup(p));
    hide Present, Marked, Ids, Find, Listed;
  }

  /**
   Freed is the one entry of a goodbye if no copy is in use, and otherwise only
   what has been marked, once no copy is in use.
   */
  lemma FreedExactly(p: Proxy, s: Step)
    requires Inv(p)
    ensures p.freed <= Next(p, s).freed
    ensures s.Vanishes? ==>
              var i := Find(p.services, s.name, 0);
              Next(p, s).freed == p.freed
                + if p.instances > 0 && p.copies == 0 && i < |p.services| then {p.services[i].id} else {}
    ensures !s.Vanishes? ==>
              || Next(p, s).freed == p.freed
              || (p.copies == 0 && Next(p, s).freed == p.freed + Marked(p.services))
  {
    hide Find, Marked, Present, Listed, Ids, Inv;
    match s
    case Vanishes(_) =>
    case Appears(name) =>
      AppendIds(p.services, Entry(p.made, name, true));
    case _ =>
      CleanupTwice(p);
  }

  /** A second cleanup finds nothing to do. */
  lemma CleanupTwice(p: Proxy)
    ensures Cleanup(Cleanup(p)) == Cleanup(p)
  {
    hide Present, Marked;
  }

  /** Only taking and releasing change which copies are in use; a copy points to what is here, in order. */
  lemma CopiesExactly(p: Proxy, s: Step)
    requires Inv(p)
    ensures Next(p, s).lists ==
              match s
              case Takes =>
                if p.instances == 0 then p.lists else p.lists[p.listsMade := Ids(Present(p.services))]
              case Releases(list) => p.lists - {list}
              case _ => p.lists
    ensures p.listsMade !in p.lists
  {
    CleanupShows(p);
    match s
    case Tells(_) =>
      CleanupKeeps(p);
      CleanupTwice(p);
      assert p.listsMade !in p.lists;
      hide Present, Marked, Ids, Inv;
    case _ => hide Present, Marked, Ids, Find, Listed;
  }

  lemma CleanupShows(p: Proxy)
    ensures Present(Cleanup(p).services) == Present(p.services)
  {
    PresentTwice(p.services);
    hide Present, Marked;
  }

  lemma {:induction false} PresentTwice(es: seq<Entry>)
    ensures Present(Present(es)) == Present(es)
    decreases |es|
  {
    if es != [] {
      PresentTwice(es[1..]);
      var r := Present(es[1..]);
      if es[0].present {
        PresentConcat([es[0]], r);
        PresentOne(es[0]);
      } else {
        assert [] + r == r;
      }
    }
  }

  // ---- The order of the entries ----

  /** In the order in which they were made. */
  predicate Rising(es: seq<Entry>, least: nat, made: nat) {
    && (forall i, j :: 0 <= i < j < |es| ==> es[i].id < es[j].id)
    && (forall i :: 0 <= i < |es| ==> least <= es[i].id < made)
  }

  predicate Ordered(p: Proxy) { Rising(p.services, 0, p.made) }

  lemma RisingTail(es: seq<Entry>, least: nat, made: nat)
    requires es != [] && Rising(es, least, made)
    ensures Rising(es[1..], es[0].id + 1, made)
  {
  }

  lemma RisingFrom(e: Entry, r: seq<Entry>, least: nat, made: nat)
    requires Rising(r, e.id + 1, made) && least <= e.id < made
    ensures Rising([e] + r, least, made) && Rising(r, least, made)
  {
  }

  lemma {:induction false} PresentRising(es: seq<Entry>, least: nat, made: nat)
    requires Rising(es, least, made)
    ensures Rising(Present(es), least, made)
    decreases |es|
  {
    if es != [] {
      RisingTail(es, least, made);
      PresentRising(es[1..], es[0].id + 1, made);
      var r := Present(es[1..]);
      RisingFrom(es[0], r, least, made);
      assert Present(es) == if es[0].present then [es[0]] + r else r;
      hide Present, Rising;
    }
  }

  lemma CleanupOrdered(p: Proxy)
    requires Ordered(p)
    ensures Ordered(Cleanup(p))
  {
    PresentRising(p.services, 0, p.made);
    hide Present, Marked, Rising;
  }

  lemma VanishRising(es: seq<Entry>, i: nat, made: nat)
    requires Rising(es, 0, made) && i < |es|
    ensures Rising(es[..i] + es[i + 1..], 0, made) && Rising(es[i := es[i].(present := false)], 0, made)
  {
    var fs := es[..i] + es[i + 1..];
    assert forall k :: 0 <= k < |fs| ==> fs[k] == es[if k < i then k else k + 1];
  }

  lemma NextOrdered(p: Proxy, s: Step)
    requires Ordered(p)
    ensures Ordered(Next(p, s))
  {
    hide Rising, Cleanup, Listed, Find;
    CleanupOrdered(p);
    match s
    case Appears(name) =>
      MoreRising(p.services, p.made, name);
      CleanupOrdered(More(p, name));
    case Vanishes(name) =>
      var i := Find(p.services, name, 0);
      if i < |p.services| {
        VanishRising(p.services, i, p.made);
      }
    case Tells(_) =>
      CleanupOrdered(Cleanup(p));
    case _ =>
  }

  lemma MoreRising(es: seq<Entry>, made: nat, name: Name)
    requires Rising(es, 0, made)
    ensures Rising(es + [Entry(made, name, true)], 0, made + 1)
  {
  }

  /** In every run the services of a copy are in the order of their announcements. */
  lemma {:induction false} InOrder(steps: seq<Step>)
    ensures Ordered(Run(EMPTY, steps))
    ensures var ids := Ids(Present(Run(EMPTY, steps).services)); forall i, j :: 0 <= i < j < |ids| ==> ids[i] < ids[j]
    decreases |steps|
  {
    if steps != [] {
      InOrder(steps[..|steps| - 1]);
      NextOrdered(Run(EMPTY, steps[..|steps| - 1]), steps[|steps| - 1]);
    }
    var p := Run(EMPTY, steps);
    PresentRising(p.services, 0, p.made);
    hide Present, Run, Next;
  }
}

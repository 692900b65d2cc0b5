/**
 The proxy of ServiceControl/DnsSdProxy.cpp on a heap of entries that the copies
 of the list share. Each method is a step of DnsSdModel.
 */
module DnsSdProxy {
  import opened DnsSdModel
  import opened Names

  /** `DnsSdServiceInstanceManager`. */
  class Instance {
    const id: nat
    const name: Name
    /** `IsPresent`. */
    var present: bool

    constructor (id: nat, name: Name)
      ensures this.id == id && this.name == name && present
    {
      this.id, this.name, present := id, name, true;
    }
  }

  /** `DnsSdServicesList`: a copy of the list, with pointers to the same entries. */
  class ServicesList {
    const handle: nat
    var entries: seq<Instance>

    constructor (handle: nat)
      ensures this.handle == handle && entries == []
    {
      this.handle, entries := handle, [];
    }
  }

  ghost function View(os: seq<Instance>): (es: seq<Entry>)
    reads os
    ensures |es| == |os| && forall i :: 0 <= i < |os| ==> es[i] == Entry(os[i].id, os[i].name, os[i].present)
  {
    seq(|os|, i requires 0 <= i < |os| reads os => Entry(os[i].id, os[i].name, os[i].present))
  }

  ghost function IdsOf(os: seq<Instance>): (r: seq<nat>)
    ensures |r| == |os| && forall i :: 0 <= i < |os| ==> r[i] == os[i].id
  {
    seq(|os|, i requires 0 <= i < |os| => os[i].id)
  }

  function NamesOf(es: seq<Entry>): (r: seq<Name>)
    ensures |r| == |es| && forall i :: 0 <= i < |es| ==> r[i] == es[i].name
  {
    seq(|es|, i requires 0 <= i < |es| => es[i].name)
  }

  lemma ViewConcat(xs: seq<Instance>, ys: seq<Instance>)
    ensures View(xs + ys) == View(xs) + View(ys)
  {
  }

  lemma ViewDrop(os: seq<Instance>, i: nat)
    requires i < |os|
    ensures View(os[..i] + os[i + 1..]) == View(os)[..i] + View(os)[i + 1..]
  {
  }

  lemma Dropped(os: seq<Instance>, i: nat)
    requires i < |os| && !os[i].present
    ensures var rest := os[..i] + os[i + 1..];
            Present(View(rest)) == Present(View(os)) && Marked(View(os)) == Marked(View(rest)) + {os[i].id}
  {
    DropMarked(View(os), i);
    ViewDrop(os, i);
    hide Present, Marked;
  }

  lemma ShownNone()
    ensures View([]) == Present(View([]))
  {
  }

  /** One more entry, shown if it is present. */
  lemma Shown(before: seq<Instance>, o: Instance, kept: seq<Instance>)
    requires View(kept) == Present(View(before))
    ensures View(if o.present then kept + [o] else kept) == Present(View(before + [o]))
  {
    ViewConcat(before, [o]);
    ViewConcat(kept, [o]);
    assert View([o]) == [Entry(o.id, o.name, o.present)];
    PresentConcat(View(before), View([o]));
    PresentOne(View([o])[0]);
    hide Present;
  }

  lemma {:induction false} AllPresent(es: seq<Entry>)
    requires forall i :: 0 <= i < |es| ==> es[i].present
    ensures Present(es) == es && Marked(es) == {}
    decreases |es|
  {
    if es != [] {
      AllPresent(es[1..]);
    }
  }

  class DnsSdProxy {
    var instances: nat
    var services: seq<Instance>
    var copies: int
    var dirty: bool
    var made: nat
    var listsMade: nat
    /** What the program does not know: the freed entries, and the copies in use. */
    ghost var freed: set<nat>
    ghost var lists: map<nat, seq<nat>>

    ghost function Abs(): Proxy
      reads this, services
    {
      Proxy(instances, View(services), copies, dirty, made, freed, lists, listsMade)
    }

    ghost predicate Valid()
      reads this, services
    {
      Inv(Abs())
    }

    /** A copy of the list that is in use: its pointers are those the proxy has given out. */
    ghost predicate InUse(l: ServicesList)
      reads this, l
    {
      l.handle in lists && lists[l.handle] == IdsOf(l.entries)
    }

    constructor ()
      ensures Valid() && Abs() == EMPTY.(instances := 1)
    {
      instances, services, copies, dirty, made, listsMade := 1, [], 0, false, 0, 0;
      freed, lists := {}, map[];
      new;
      assert View(services) == [];
    }

    /** `CleanupServicesList`. */
    method CleanupServicesList()
      requires Valid()
      modifies this`services, this`dirty, this`freed
      ensures Valid() && Abs() == Cleanup(old(Abs()))
    {
      CleanupKeeps(Abs());
      hide Inv, Present, Marked;
      if dirty && copies == 0 {
        Sweep();
        dirty := false;
      }
    }

    /** The walk along the list that takes the marked entries out and frees them. */
    method Sweep()
      modifies this`services, this`freed
      ensures View(services) == Present(old(View(services))) && freed == old(freed + Marked(View(services)))
    {
      hide Present, Marked, View;
      var i := 0;
      while i < |services|
        invariant 0 <= i <= |services|
        invariant forall k :: 0 <= k < i ==> services[k].present
        invariant Present(View(services)) == Present(old(View(services)))
        invariant freed + Marked(View(services)) == old(freed + Marked(View(services)))
        decreases |services| - i
      {
        if !services[i].present {
          Dropped(services, i);
          freed := freed + {services[i].id};
          services := services[..i] + services[i + 1..];
        } else {
          i := i + 1;
        }
      }
      AllPresent(View(services));
    }

    /** The loop that looks for an entry of this very name. */
    method Knows(name: Name) returns (known: bool)
      ensures known == Listed(View(services), name)
    {
      for i := 0 to |services|
        invariant forall k :: 0 <= k < i ==> services[k].name != name
      {
        if services[i].name == name {
          assert View(services)[i].name == name;
          return true;
        }
      }
      known := false;
    }

    /** `BrowseCollect` with the flag of a new service. */
    method Appears(name: Name)
      requires Valid()
      modifies this`services, this`dirty, this`freed, this`made
      ensures Valid() && Abs() == Appear(old(Abs()), name)
    {
      AppearKeeps(Abs(), name);
      hide Inv, Present, Marked, View, Cleanup, Listed;
      if instances == 0 {
        return;
      }
      var known := Knows(name);
      if known {
        return;
      }
      var o := new Instance(made, name);
      ViewConcat(services, [o]);
      assert View([o]) == [Entry(made, name, true)];
      ghost var p := Abs();
      MoreKeeps(p, name);
      services, made := services + [o], made + 1;
      assert Abs() == More(p, name);
      hide More;
      CleanupServicesList();
    }

    /** `BrowseCollect` for a service that is gone. */
    method Vanishes(name: Name)
      requires Valid()
      modifies this`services, this`dirty, this`freed, services
      ensures Valid() && Abs() == Vanish(old(Abs()), name)
    {
      hide Inv, Find, View;
      ghost var p := Abs();
      VanishKeeps(p, name);
      if instances == 0 {
        return;
      }
      var i := Search(name);
      if i == |services| {
        return;
      }
      hide Valid;
      if copies == 0 {
        Drop(i);
      } else {
        Mark(i);
      }
    }

    method Drop(i: nat)
      requires i < |services|
      modifies this`services, this`freed
      ensures Abs() == var p := old(Abs());
                       p.(services := p.services[..i] + p.services[i + 1..], freed := p.freed + {p.services[i].id})
    {
      ViewDrop(services, i);
      freed := freed + {services[i].id};
      services := services[..i] + services[i + 1..];
    }

    method Mark(i: nat)
      requires Valid() && i < |services|
      modifies this`dirty, services[i]
      ensures Abs() == var p := old(Abs());
              p.(services := p.services[i := p.services[i].(present := false)], dirty := true)
    {
      ghost var es := View(services);
      assert forall k :: 0 <= k < |services| && k != i ==> es[k].id != es[i].id;
      services[i].present := false;
      dirty := true;
      assert View(services) == es[i := es[i].(present := false)];
    }

    method Search(name: Name) returns (i: nat)
      ensures i == Find(View(services), name, 0)
    {
      i := 0;
      while i < |services| && !SameName(services[i].name, name)
        invariant 0 <= i <= |services| && Find(View(services), name, i) == Find(View(services), name, 0)
      {
        i := i + 1;
      }
    }

    /** `GetCurrentServicesList`. */
    method GetCurrentServicesList() returns (l: ServicesList?)
      requires Valid()
      modifies this
      ensures Valid() && Abs() == Snapshot(old(Abs()))
      ensures l != null <==> instances > 0
      ensures l != null ==> fresh(l) && InUse(l) && l.handle == old(listsMade)
      ensures l != null ==> View(l.entries) == Present(View(services))
    {
      hide Inv, Present, Cleanup, View, Ids, IdsOf;
      SnapshotKeeps(Abs());
      if instances == 0 {
        return null;
      }
      CleanupServicesList();
      l := CountedCopy();
    }

    method CountedCopy() returns (l: ServicesList)
      modifies this`copies, this`lists, this`listsMade
      ensures fresh(l) && InUse(l) && l.handle == old(listsMade) && View(l.entries) == Present(View(services))
      ensures Abs() == var p := old(Abs());
                       p.(copies := p.copies + 1, lists := p.lists[p.listsMade := Ids(Present(p.services))],
                           listsMade := p.listsMade + 1)
    {
      hide Present, View, Ids, IdsOf;
      ghost var q := Abs();
      l := Copy();
      assert Abs() == q;
      Count(l);
    }

    /** The constructor of a copy counts it. */
    method Count(l: ServicesList)
      requires l.handle == listsMade
      modifies this`copies, this`lists, this`listsMade
      ensures InUse(l)
      ensures Abs() == var p, ids := old(Abs()), Ids(View(l.entries));
                       p.(copies := p.copies + 1, lists := p.lists[p.listsMade := ids], listsMade := p.listsMade + 1)
    {
      assert IdsOf(l.entries) == Ids(View(l.entries));
      copies := copies + 1;
      lists := lists[listsMade := IdsOf(l.entries)];
      listsMade := listsMade + 1;
    }

    /** The entries that are here go into the copy. */
    method Copy() returns (l: ServicesList)
      ensures fresh(l) && l.handle == listsMade && View(l.entries) == Present(View(services))
    {
      hide Present, View;
      l := new ServicesList(listsMade);
      ShownNone();
      for i := 0 to |services|
        invariant fresh(l) && View(l.entries) == Present(View(services[..i]))
      {
        assert services[..i + 1] == services[..i] + [services[i]];
        Shown(services[..i], services[i], l.entries);
        if services[i].present {
          l.entries := l.entries + [services[i]];
        }
      }
      assert services[..|services|] == services;
    }

    /** The destructor of a copy. */
    method Delete(l: ServicesList)
      requires Valid() && InUse(l)
      modifies this`copies, this`lists
      ensures Valid() && Abs() == Release(old(Abs()), l.handle)
    {
      ReleaseKeeps(Abs(), l.handle);
      copies := copies - 1;
      lists := lists - {l.handle};
    }

    /** Whoever holds a copy finds only entries that have not been freed, and each of them is still in the list. */
    lemma Alive(l: ServicesList)
      requires Valid() && InUse(l)
      ensures forall o :: o in l.entries ==> o.id !in freed && exists k :: 0 <= k < |services| && services[k].id == o.id
    {
      forall o | o in l.entries
        ensures o.id !in freed && exists k :: 0 <= k < |services| && services[k].id == o.id
      {
        var i :| 0 <= i < |l.entries| && l.entries[i] == o;
        assert lists[l.handle][i] == o.id && o.id in IdSet(View(services));
      }
    }

    /** `AddClient` and `RemoveClient`: with `services`, the client is told of each present service. */
    method Tells(services: bool) returns (told: seq<Name>)
      requires Valid()
      modifies this
      ensures Valid() && Abs() == Tell(old(Abs()), services)
      ensures told == if services && instances > 0 then NamesOf(Present(Abs().services)) else []
    {
      hide Inv, Present, Cleanup, View, Ids, IdsOf, Snapshot, Release;
      CleanupKeeps(Abs());
      NoSnapshot(Cleanup(Abs()));
      CleanupServicesList();
      told := [];
      if services {
        var l := GetCurrentServicesList();
        if l == null {
          return;
        }
        told := Walk(l);
        Delete(l);
      }
    }

    /** The loop over a copy, with one call of the client for each entry. */
    method Walk(l: ServicesList) returns (told: seq<Name>)
      requires Valid() && InUse(l)
      ensures told == NamesOf(View(l.entries))
    {
      told := [];
      for i := 0 to |l.entries|
        invariant told == NamesOf(View(l.entries))[..i]
      {
        told := told + [l.entries[i].name];
      }
    }
  }
}

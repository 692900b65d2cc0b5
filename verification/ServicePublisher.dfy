/**
 The properties object of ServiceControl/ServiceProperties.cpp, the loops of
 `StartServer` that fill it and the constructor of the proxy that reads it.
 */
module ServicePublisher {
  import opened Names
  import opened ServiceDescription

  class ServiceProperties {
    var properties: seq<Property>
    /** `TXTRecordLength`. */
    var txtLength: nat

    ghost predicate Valid()
      reads this
    {
      txtLength == TxtLength(properties)
    }

    constructor ()
      ensures Valid() && properties == []
    {
      properties, txtLength := [], 0;
    }

    /** `Find`; the number of properties if there is none of this name. */
    method FindProperty(name: Name) returns (i: nat)
      ensures i == Find(properties, name, 0)
    {
      i := 0;
      while i < |properties| && !SameName(properties[i].name, name)
        invariant 0 <= i <= |properties| && Find(properties, name, i) == Find(properties, name, 0)
      {
        i := i + 1;
      }
    }

    /** `NotifyChanges`. */
    method NotifyChanges()
      modifies this`txtLength
      ensures Valid()
    {
      txtLength := 0;
      for i := 0 to |properties|
        invariant txtLength == TxtLength(properties[..i])
      {
        assert properties[..i + 1][..i] == properties[..i];
        txtLength := txtLength + Length(properties[i]);
      }
      assert properties[..|properties|] == properties;
    }

    /** Assignment to the element of a name. */
    method Set(name: Name, value: string)
      requires Valid()
      modifies this
      ensures Valid() && properties == Put(old(properties), name, value)
    {
      var i := FindProperty(name);
      if i < |properties| {
        properties := properties[i := properties[i].(value := value)];
      } else {
        properties := properties + [Property(name, value)];
      }
      NotifyChanges();
    }

    method Remove(name: Name)
      requires Valid()
      modifies this
      ensures Valid() && properties == Undefine(old(properties), name)
    {
      hide TxtLength;
      var i := FindProperty(name);
      if i < |properties| {
        properties := properties[..i] + properties[i + 1..];
        NotifyChanges();
      }
    }

    /** Adds an entry, or takes it back and says that the description is partial. */
    method AddEntry(e: Property, max: nat) returns (full: bool)
      requires Valid()
      modifies this
      ensures Valid() && Record(properties, full) == Add(Record(old(properties), false), e, max)
    {
      Set(e.name, e.value);
      full := txtLength > max;
      if full {
        Remove(e.name);
        Set(DESC, "part");
      }
    }
  }

  /** The loops of `StartServer`, which stop as soon as the record is too long. */
  method Publish(vs: seq<VariableDecl>, cs: seq<ConnectorDecl>, max: nat) returns (ps: ServiceProperties)
    ensures fresh(ps) && ps.Valid() && ps.properties == Published(vs, cs, max)
  {
    ps := new ServiceProperties();
    ps.Set(DESC, "full");
    assert BLANK == Record(ps.properties, false);
    var full := PublishVariables(ps, vs, true, max, false);
    ghost var a, b, c := VariableEntries(vs, true), ConnectorEntries(cs), VariableEntries(vs, false);
    if !full {
      full := PublishConnectors(ps, cs, max, full);
    } else {
      NothingAdded(Record(ps.properties, full), b, max);
    }
    if !full {
      full := PublishVariables(ps, vs, false, max, full);
    } else {
      NothingAdded(Record(ps.properties, full), c, max);
    }
    AddAllConcat(BLANK, a, b, max);
    AddAllConcat(BLANK, a + b, c, max);
    ps.Remove(PEER_ID);
  }

  lemma {:induction false} NothingAdded(r: Record, es: seq<Property>, max: nat)
    requires r.full
    ensures AddAll(r, es, max) == r
    decreases |es|
  {
    if es != [] {
      NothingAdded(r, es[..|es| - 1], max);
    }
  }

  lemma {:induction false} AddAllConcat(r: Record, xs: seq<Property>, ys: seq<Property>, max: nat)
    ensures AddAll(r, xs + ys, max) == AddAll(AddAll(r, xs, max), ys, max)
    decreases |ys|
  {
    hide Add;
    if ys == [] {
      assert xs + ys == xs;
    } else {
      var n := |ys| - 1;
      AddAllConcat(r, xs, ys[..n], max);
      assert (xs + ys)[..|xs| + n] == xs + ys[..n];
    }
  }

  /** One of the two loops over the variables. */
  method PublishVariables(ps: ServiceProperties, vs: seq<VariableDecl>, constant: bool, max: nat, before: bool)
      returns (full: bool)
    requires ps.Valid() && !before
    modifies ps
    ensures ps.Valid()
    ensures Record(ps.properties, full)
          == AddAll(Record(old(ps.properties), before), VariableEntries(vs, constant), max)
  {
    full := before;
    ghost var r := Record(ps.properties, before);
    for i := 0 to |vs|
      invariant ps.Valid() && Record(ps.properties, full) == AddAll(r, VariableEntries(vs[..i], constant), max)
    {
      MoreVariables(r, vs, i, constant, max);
      if !full && vs[i].access.ConstantAccess? == constant {
        full := ps.AddEntry(VariableEntry(vs[i]), max);
      }
    }
    assert vs[..|vs|] == vs;
  }

  lemma MoreVariables(r: Record, vs: seq<VariableDecl>, i: nat, constant: bool, max: nat)
    requires i < |vs|
    ensures var s := AddAll(r, VariableEntries(vs[..i], constant), max);
            AddAll(r, VariableEntries(vs[..i + 1], constant), max) ==
              if vs[i].access.ConstantAccess? == constant then Add(s, VariableEntry(vs[i]), max) else s
  {
    hide Add, VariableEntry;
    assert vs[..i + 1][..i] == vs[..i];
    var es, e := VariableEntries(vs[..i], constant), VariableEntry(vs[i]);
    assert (es + [e])[..|es|] == es;
    assert es + [] == es;
  }

  lemma NothingYet(r: Record, max: nat)
    ensures AddAll(r, [], max) == r
  {
  }

  lemma MoreConnectors(r: Record, cs: seq<ConnectorDecl>, i: nat, max: nat)
    requires i < |cs|
    ensures var s := AddAll(r, ConnectorEntries(cs)[..i], max);
            AddAll(r, ConnectorEntries(cs)[..i + 1], max) == Add(s, ConnectorEntry(cs[i]), max)
    ensures forall s: Record :: s.full ==> Add(s, ConnectorEntry(cs[i]), max) == s
  {
    var es := ConnectorEntries(cs);
    assert es[..i + 1] == es[..i] + [ConnectorEntry(cs[i])];
    hide ConnectorEntries;
    MoreAdded(r, es[..i], ConnectorEntry(cs[i]), max);
    hide AddAll;
  }

  method PublishConnectors(ps: ServiceProperties, cs: seq<ConnectorDecl>, max: nat, before: bool) returns (full: bool)
    requires ps.Valid() && !before
    modifies ps
    ensures ps.Valid()
    ensures Record(ps.properties, full) == AddAll(Record(old(ps.properties), before), ConnectorEntries(cs), max)
  {
    hide AddAll, Add, ConnectorEntries;
    full := before;
    ghost var r := Record(ps.properties, before);
    NothingYet(r, max);
    assert ConnectorEntries(cs)[..0] == [];
    for i := 0 to |cs|
      invariant ps.Valid() && Record(ps.properties, full) == AddAll(r, ConnectorEntries(cs)[..i], max)
    {
      MoreConnectors(r, cs, i, max);
      if !full {
        full := ps.AddEntry(ConnectorEntry(cs[i]), max);
      }
    }
    assert ConnectorEntries(cs)[..|cs|] == ConnectorEntries(cs);
  }

  /** The constructor of `ServiceProxy`. */
  method ReadProperties(ps: seq<Property>) returns (d: Description)
    ensures d == Decoded(ps)
  {
    d := Description(Desc(ps) == "full", [], []);
    ghost var start := d;
    for i := 0 to |ps|
      invariant d == ReadAll(start, ps[..i])
    {
      assert ps[..i + 1][..i] == ps[..i];
      d := ReadNext(d, ps[i]);
    }
    assert ps[..|ps|] == ps;
  }
}

/**
 What ServiceControl/ControlServer.cpp publishes of a service in its DNS-SD
 properties, and what ServiceControl/ServiceProxy.cpp reads out of them.
 */
module ServiceDescription {
  import opened Basics
  import opened Names

  datatype Property = Property(name: Name, value: string)

  datatype Kind = AnInput | AnOutput | AnInOutput

  datatype VariableDecl = VariableDecl(name: Name, access: Access, value: string)

  /** A connector; the ones of unknown kind are not published. */
  datatype ConnectorDecl = ConnectorDecl(name: Name, kind: Kind, port: nat)

  const DESC := "desc"
  const PEER_ID := "peerId"

  // ---- Properties ----

  /** How many bytes a property takes in the record, its length byte included. */
  function Length(p: Property): nat { |p.name| + 1 + |p.value| + 1 }

  function TxtLength(ps: seq<Property>): nat {
    if ps == [] then 0 else TxtLength(ps[..|ps| - 1]) + Length(ps[|ps| - 1])
  }

  function Find(ps: seq<Property>, name: Name, from: nat): (i: nat)
    requires from <= |ps|
    ensures from <= i <= |ps| && (i < |ps| ==> SameName(ps[i].name, name))
    ensures forall k :: from <= k < i ==> !SameName(ps[k].name, name)
    decreases |ps| - from
  {
    if from == |ps| || SameName(ps[from].name, name) then from else Find(ps, name, from + 1)
  }

  /** `Properties[name] = value`. */
  function Put(ps: seq<Property>, name: Name, value: string): seq<Property> {
    var i := Find(ps, name, 0);
    if i < |ps| then ps[i := ps[i].(value := value)] else ps + [Property(name, value)]
  }

  function Undefine(ps: seq<Property>, name: Name): seq<Property> {
    var i := Find(ps, name, 0);
    if i < |ps| then ps[..i] + ps[i + 1..] else ps
  }

  /** `ExportTXTRecord` leaves out properties of 255 bytes and more. */
  predicate Exportable(p: Property) { Length(p) < 255 }

  function Exported(ps: seq<Property>): seq<Property> {
    if ps == [] then [] else Exported(ps[..|ps| - 1]) + if Exportable(ps[|ps| - 1]) then [ps[|ps| - 1]] else []
  }

  // ---- Publishing ----

  function Decimal(n: nat): (t: string)
    ensures |t| > 0 && forall i :: 0 <= i < |t| ==> '0' <= t[i] <= '9'
  {
    (if n < 10 then "" else Decimal(n / 10)) + [(n % 10) as char + '0']
  }

  function KindLetter(k: Kind): char {
    match k
    case AnInput => 'i'
    case AnOutput => 'o'
    case AnInOutput => 'd'
  }

  /** The property of a variable: a constant with its value, if that is not too long. */
  function VariableEntry(v: VariableDecl): Property {
    match v.access
    case ConstantAccess => Property(v.name, if |v.name| + 1 + |v.value| > 252 then "c" else "c/" + v.value)
    case ReadAccess => Property(v.name, "r")
    case ReadWriteAccess => Property(v.name, "w")
  }

  function ConnectorEntry(c: ConnectorDecl): Property {
    Property(c.name, [KindLetter(c.kind)] + "/" + Decimal(c.port))
  }

  function VariableEntries(vs: seq<VariableDecl>, constant: bool): seq<Property> {
    if vs == [] then []
    else
      var v := vs[|vs| - 1];
      VariableEntries(vs[..|vs| - 1], constant)
      + if v.access.ConstantAccess? == constant then [VariableEntry(v)] else []
  }

  function ConnectorEntries(cs: seq<ConnectorDecl>): (es: seq<Property>)
    ensures |es| == |cs| && forall i :: 0 <= i < |cs| ==> es[i] == ConnectorEntry(cs[i])
  {
    seq(|cs|, i requires 0 <= i < |cs| => ConnectorEntry(cs[i]))
  }

  /** Constants first, then connectors, then the other variables. */
  function Entries(vs: seq<VariableDecl>, cs: seq<ConnectorDecl>): seq<Property> {
    VariableEntries(vs, true) + ConnectorEntries(cs) + VariableEntries(vs, false)
  }

  /** The properties so far, and whether the record was too long once. */
  datatype Record = Record(props: seq<Property>, full: bool)

  /** One entry is added, or taken back if the record gets too long. */
  function Add(r: Record, e: Property, max: nat): Record {
    if r.full then r
    else
      var ps := Put(r.props, e.name, e.value);
      if TxtLength(ps) > max then Record(Put(Undefine(ps, e.name), DESC, "part"), true) else Record(ps, false)
  }

  function AddAll(r: Record, es: seq<Property>, max: nat): Record {
    if es == [] then r else Add(AddAll(r, es[..|es| - 1], max), es[|es| - 1], max)
  }

  const BLANK := Record([Property(DESC, "full")], false)

  /** The properties that `StartServer` registers. */
  function Published(vs: seq<VariableDecl>, cs: seq<ConnectorDecl>, max: nat): seq<Property> {
    Undefine(AddAll(BLANK, Entries(vs, cs), max).props, PEER_ID)
  }

  // ---- Reading ----

  datatype Item = Variable(decl: VariableDecl) | Connector(connector: ConnectorDecl) | Unreadable | OutOfBounds

  function Digits(t: string): (u: string)
    ensures u <= t && forall i :: 0 <= i < |u| ==> '0' <= u[i] <= '9'
  {
    if t == "" || !('0' <= t[0] <= '9') then "" else [t[0]] + Digits(t[1..])
  }

  /** `atoi` on digits. */
  function Number(t: string): nat
    requires forall i :: 0 <= i < |t| ==> '0' <= t[i] <= '9'
  {
    if t == "" then 0 else 10 * Number(t[..|t| - 1]) + (t[|t| - 1] as int - '0' as int)
  }

  /** One property. Reading behind the end of a value is an exception of the string class. */
  function Read(p: Property): Item {
    var v := p.value;
    if v == "" then OutOfBounds
    else if v[0] == 'c' then
      if |v| <= 2 || v[1] != '/' then Unreadable else Variable(VariableDecl(p.name, ConstantAccess, v[2..]))
    else if v[0] == 'r' then if |v| != 1 then Unreadable else Variable(VariableDecl(p.name, ReadAccess, ""))
    else if v[0] == 'w' then if |v| != 1 then Unreadable else Variable(VariableDecl(p.name, ReadWriteAccess, ""))
    else if v[0] == 'i' || v[0] == 'o' || v[0] == 'd' then
      if |v| < 2 || (v[1] == '/' && |v| < 3) then OutOfBounds
      else if v[1] != '/' || !('0' <= v[2] <= '9') then Unreadable
      else
        var port := Number(Digits(v[2..]));
        if port == 0 || port >= 0xffff then Unreadable
        else
          var kind := if v[0] == 'i' then AnInput else if v[0] == 'o' then AnOutput else AnInOutput;
          Connector(ConnectorDecl(p.name, kind, port))
    else Unreadable
  }

  /** What the proxy knows: `FullDescription` and its lists. */
  datatype Description =
    | Description(full: bool, variables: seq<VariableDecl>, connectors: seq<ConnectorDecl>)
    | Exception

  function ReadNext(d: Description, p: Property): Description {
    if d.Exception? || p.name == DESC then d
    else
      match Read(p)
      case OutOfBounds => Exception
      case Unreadable => d.(full := false)
      case Variable(v) => d.(variables := d.variables + [v])
      case Connector(c) => d.(connectors := d.connectors + [c])
  }

  function ReadAll(d: Description, ps: seq<Property>): Description {
    if ps == [] then d else ReadNext(ReadAll(d, ps[..|ps| - 1]), ps[|ps| - 1])
  }

  /** `Properties["desc"]`, which is empty if there is none. */
  function Desc(ps: seq<Property>): string {
    var i := Find(ps, DESC, 0);
    if i < |ps| then ps[i].value else ""
  }

  /** The constructor of the proxy. */
  function Decoded(ps: seq<Property>): Description {
    ReadAll(Description(Desc(ps) == "full", [], []), ps)
  }

  // ---- What is published ----

  /** Names that differ in more than case, and none of them is the one the description itself uses. */
  predicate Distinct(es: seq<Property>) {
    && (forall i, j :: 0 <= i < j < |es| ==> !SameName(es[i].name, es[j].name))
    && (forall i :: 0 <= i < |es| ==> !SameName(es[i].name, DESC) && !SameName(DESC, es[i].name))
  }

  lemma DistinctPrefix(es: seq<Property>, n: nat)
    requires Distinct(es) && n <= |es|
    ensures Distinct(es[..n])
  {
  }

  lemma {:induction false} FindNone(ps: seq<Property>, name: Name, from: nat)
    requires from <= |ps| && forall i :: from <= i < |ps| ==> !SameName(ps[i].name, name)
    ensures Find(ps, name, from) == |ps|
    decreases |ps| - from
  {
    if from < |ps| {
      FindNone(ps, name, from + 1);
    }
  }

  /** As long as nothing was too long, the record holds exactly the entries, in order. */
  lemma {:induction false} AllAdded(es: seq<Property>, max: nat)
    requires Distinct(es)
    ensures var r := AddAll(BLANK, es, max);
            && r.props != [] && r.props[0] == Property(DESC, if r.full then "part" else "full")
            && (!r.full ==> r.props == BLANK.props + es)
    decreases |es|
  {
    if es == [] {
      NothingAdded(max);
    } else {
      hide AddAll, Add, Distinct, FitsUpTo;
      var n := |es| - 1;
      DistinctPrefix(es, n);
      AllAdded(es[..n], max);
      StepOf(es, max);
      if AddAll(BLANK, es[..n], max).full {
        FullStays(AddAll(BLANK, es[..n], max), es[n], max);
      } else {
        assert AddAll(BLANK, es[..n], max) == Record(BLANK.props + es[..n], false);
        LastTooLong(es, max);
      }
    }
  }

  /** The record with the first `j` entries is not too long. */
  predicate FitsUpTo(es: seq<Property>, j: nat, max: nat) { j <= |es| && TxtLength(BLANK.props + es[..j]) <= max }

  /** Only the entries before number `k` fit, and these are in the record. */
  predicate CutAt(es: seq<Property>, max: nat, k: nat) {
    && k <= |es| && (AddAll(BLANK, es, max).full <==> k < |es|)
    && (forall j :: 1 <= j <= k ==> FitsUpTo(es, j, max))
    && (k < |es| ==>
         !FitsUpTo(es, k + 1, max) && AddAll(BLANK, es, max).props == [Property(DESC, "part")] + es[..k])
  }

  /**
   If the record gets too long, it holds the entries before the first one with
   which it does, and no other, and says that it is only a part.
   */
  lemma {:induction false} FirstTooLong(es: seq<Property>, max: nat) returns (k: nat)
    requires Distinct(es)
    ensures CutAt(es, max, k)
    decreases |es|
  {
    hide CutAt, Distinct, AddAll;
    if es == [] {
      k := 0;
      NothingCut(max);
    } else {
      DistinctPrefix(es, |es| - 1);
      k := FirstTooLong(es[..|es| - 1], max);
      k := Further(es, max, k);
    }
  }

  lemma NothingCut(max: nat)
    ensures CutAt([], max, 0)
  {
  }

  lemma Further(es: seq<Property>, max: nat, m: nat) returns (k: nat)
    requires es != [] && Distinct(es) && Distinct(es[..|es| - 1]) && CutAt(es[..|es| - 1], max, m)
    ensures CutAt(es, max, k)
  {
    hide AddAll, Add, Distinct, FitsUpTo;
    var n := |es| - 1;
    var r := AddAll(BLANK, es[..n], max);
    StepOf(es, max);
    forall j | 1 <= j <= n
      ensures FitsUpTo(es[..n], j, max) <==> FitsUpTo(es, j, max)
    {
      PrefixFits(es, n, j, max);
    }
    if m < n {
      k := m;
      assert es[..n][..k] == es[..k];
      FullStays(r, es[n], max);
    } else {
      AllAdded(es[..n], max);
      LastTooLong(es, max);
      k := if FitsUpTo(es, n + 1, max) then n + 1 else n;
    }
  }

  lemma PrefixFits(es: seq<Property>, n: nat, j: nat, max: nat)
    requires j <= n <= |es|
    ensures FitsUpTo(es[..n], j, max) <==> FitsUpTo(es, j, max)
  {
    assert es[..n][..j] == es[..j];
  }

  lemma FullStays(r: Record, e: Property, max: nat)
    requires r.full
    ensures Add(r, e, max) == r
  {
  }

  lemma StepOf(es: seq<Property>, max: nat)
    requires es != []
    ensures AddAll(BLANK, es, max) == Add(AddAll(BLANK, es[..|es| - 1], max), es[|es| - 1], max)
  {
    hide Add;
  }

  lemma LastTooLong(es: seq<Property>, max: nat)
    requires es != [] && Distinct(es)
    ensures var n := |es| - 1; var r := Add(Record(BLANK.props + es[..n], false), es[n], max);
            && (r.full <==> !FitsUpTo(es, n + 1, max))
            && r.props == if r.full then [Property(DESC, "part")] + es[..n] else BLANK.props + es
  {
    var n := |es| - 1;
    var ps, e := BLANK.props + es[..n], es[n];
    assert forall i :: 0 <= i < |ps| ==> !SameName(ps[i].name, e.name);
    hide Distinct, TxtLength, SameName, Find, Put, Undefine;
    assert es[..n + 1] == es && ps + [e] == BLANK.props + es;
    PutLast(ps, e);
    PartIs(es[..n]);
  }

  lemma PutLast(ps: seq<Property>, e: Property)
    requires forall i :: 0 <= i < |ps| ==> !SameName(ps[i].name, e.name)
    ensures Put(ps, e.name, e.value) == ps + [e] && Undefine(ps + [e], e.name) == ps
  {
    FindNone(ps, e.name, 0);
    FindLast(ps, e);
    hide Find, SameName;
    assert (ps + [e])[..|ps|] == ps;
  }

  lemma PartIs(es: seq<Property>)
    ensures Put(BLANK.props + es, DESC, "part") == [Property(DESC, "part")] + es
  {
    var ps := BLANK.props + es;
    assert SameName(ps[0].name, DESC);
    assert Find(ps, DESC, 0) == 0;
    hide Find, SameName;
    assert ps[0 := Property(DESC, "part")] == [Property(DESC, "part")] + es;
  }

  lemma FindLast(ps: seq<Property>, e: Property)
    requires forall i :: 0 <= i < |ps| ==> !SameName(ps[i].name, e.name)
    ensures Find(ps + [e], e.name, 0) == |ps|
  {
    var qs := ps + [e];
    var i := Find(qs, e.name, 0);
    assert SameName(qs[|ps|].name, e.name);
  }

  // ---- Single properties ----

  /** A property is assigned if there is one of this name up to case, and added otherwise. */
  lemma PutExactly(ps: seq<Property>, name: Name, value: string, k: nat)
    requires k <= |ps| && (forall i :: 0 <= i < k ==> !SameName(ps[i].name, name))
    requires k < |ps| ==> SameName(ps[k].name, name)
    ensures Put(ps, name, value)
         == ps[..k] + [Property(if k < |ps| then ps[k].name else name, value)] + if k < |ps| then ps[k + 1..] else []
    ensures Undefine(ps, name) == ps[..k] + if k < |ps| then ps[k + 1..] else []
  {
    assert Find(ps, name, 0) == k;
    hide Find, SameName;
  }

  /** The properties as they are written, one of each kind. */
  lemma VariableFormats()
    ensures VariableEntry(VariableDecl("Owner", ConstantAccess, "me")) == Property("Owner", "c/me")
    ensures VariableEntry(VariableDecl("x", ReadAccess, "1")) == Property("x", "r")
    ensures VariableEntry(VariableDecl("x", ReadWriteAccess, "1")) == Property("x", "w")
    ensures DESC == "desc" && PEER_ID == "peerId"
  {
  }

  lemma ConnectorFormats(name: Name)
    ensures ConnectorEntry(ConnectorDecl(name, AnInput, 80)) == Property(name, "i/80")
    ensures ConnectorEntry(ConnectorDecl(name, AnOutput, 8)) == Property(name, "o/8")
    ensures ConnectorEntry(ConnectorDecl(name, AnInOutput, 12)) == Property(name, "d/12")
  {
    hide Decimal;
    LastDigit(8, "", '8');
    LastDigit(80, "8", '0');
    LastDigit(1, "", '1');
    LastDigit(12, "1", '2');
  }

  lemma LastDigit(n: nat, t: string, d: char)
    requires if n < 10 then t == "" else Decimal(n / 10) == t
    requires '0' <= d <= '9' && n % 10 == d as int - '0' as int
    ensures Decimal(n) == t + [d]
  {
  }

  /** Which properties declare a variable. */
  lemma VariableReadExactly(p: Property, v: VariableDecl)
    ensures Read(p) == Variable(v) <==>
              && v.name == p.name
              && match v.access
                 case ConstantAccess => v.value != "" && p.value == "c/" + v.value
                 case ReadAccess => v.value == "" && p.value == "r"
                 case ReadWriteAccess => v.value == "" && p.value == "w"
  {
    hide Digits, Number;
    var t := p.value;
    if |t| > 2 && t[0] == 'c' && t[1] == '/' {
      assert t == "c/" + t[2..];
    }
    assert ("c/" + v.value)[2..] == v.value;
    if |t| == 1 {
      assert t == [t[0]];
    }
  }

  /** Which properties declare a connector: a letter, a slash, and a port in decimal, behind which
      anything may stand. */
  lemma ConnectorReadExactly(p: Property, c: ConnectorDecl)
    ensures Read(p) == Connector(c) <==>
              && c.name == p.name && |p.value| >= 3 && p.value[1] == '/'
              && p.value[0] == (match c.kind case AnInput => 'i' case AnOutput => 'o' case AnInOutput => 'd')
              && '0' <= p.value[2] <= '9' && c.port == Number(Digits(p.value[2..])) && 0 < c.port < 65535
  {
    hide Digits, Number;
  }

  predicate Hidden(p: Property) { SameName(p.name, PEER_ID) }

  /** What of the entries is registered. */
  lemma PublishedIs(vs: seq<VariableDecl>, cs: seq<ConnectorDecl>, max: nat)
    requires Distinct(Entries(vs, cs))
    ensures var r := AddAll(BLANK, Entries(vs, cs), max); var ps := Published(vs, cs, max);
            && ps != [] && ps[0] == Property(DESC, if r.full then "part" else "full")
            && (!r.full ==>
                 && (forall i :: 1 <= i < |ps| ==> ps[i] in Entries(vs, cs) && !Hidden(ps[i]))
                 && (forall e :: e in Entries(vs, cs) && !Hidden(e) ==> e in ps[1..]))
  {
    var es := Entries(vs, cs);
    var r := AddAll(BLANK, es, max);
    assert BLANK.props == [Property(DESC, "full")];
    AllAdded(es, max);
    hide Entries, AddAll;
    assert !SameName(DESC, PEER_ID);
    if !r.full {
      RestPublished(r.props[0], es);
    }
  }

  /** Of entries that do not all fit, those before the first that does not are registered, but for the peer id. */
  lemma PartPublished(vs: seq<VariableDecl>, cs: seq<ConnectorDecl>, max: nat) returns (k: nat)
    requires Distinct(Entries(vs, cs)) && AddAll(BLANK, Entries(vs, cs), max).full
    ensures CutAt(Entries(vs, cs), max, k) && k < |Entries(vs, cs)|
    ensures var es, ps := Entries(vs, cs)[..k], Published(vs, cs, max);
            && ps != [] && ps[0] == Property(DESC, "part")
            && (forall i :: 1 <= i < |ps| ==> ps[i] in es && !Hidden(ps[i]))
            && (forall e :: e in es && !Hidden(e) ==> e in ps[1..])
  {
    var es := Entries(vs, cs);
    k := FirstTooLong(es, max);
    DistinctPrefix(es, k);
    PublishedIs(vs, cs, max);
    assert !SameName(DESC, PEER_ID);
    RestPublished(Property(DESC, "part"), es[..k]);
    hide Entries, AddAll, Distinct, FitsUpTo, Undefine;
  }

  /** Of the entries, all but the one of the peer id are published. */
  lemma RestPublished(d: Property, es: seq<Property>)
    requires Distinct(es) && !SameName(d.name, PEER_ID)
    ensures var ps := Undefine([d] + es, PEER_ID);
            && (forall k :: 1 <= k < |ps| ==> ps[k] in es && !Hidden(ps[k]))
            && (forall e :: e in es && !Hidden(e) ==> e in ps[1..])
  {
    hide Find, Distinct, SameName, Hidden;
    var i := HiddenAt(d, es);
    LeftWithout(d, es, i);
    var ps := Undefine([d] + es, PEER_ID);
    forall e | e in es && !Hidden(e)
      ensures e in ps[1..]
    {
      var j :| 0 <= j < |es| && es[j] == e;
    }
  }

  lemma HiddenAt(d: Property, es: seq<Property>) returns (i: nat)
    requires Distinct(es) && !SameName(d.name, PEER_ID)
    ensures 0 < i <= |es| + 1 && i == Find([d] + es, PEER_ID, 0)
    ensures forall j :: 0 <= j < |es| ==> (Hidden(es[j]) <==> j == i - 1)
  {
    var xs := [d] + es;
    i := Find(xs, PEER_ID, 0);
    assert i > 0;
    assert forall j :: 0 <= j < |es| ==> xs[j + 1] == es[j];
    assert i <= |es| ==> Hidden(es[i - 1]);
    OneHidden(es, i - 1);
  }

  /** What is left of a list without one of its elements; the first one stays. */
  lemma LeftWithout<T>(d: T, es: seq<T>, i: nat)
    requires 0 < i <= |es| + 1
    ensures var xs := [d] + es; var ps := if i < |xs| then xs[..i] + xs[i + 1..] else xs;
            && ps != []
            && (forall k :: 1 <= k < |ps| ==> var j := if k < i then k - 1 else k;
                    j < |es| && j != i - 1 && ps[k] == es[j])
            && (forall j :: 0 <= j < |es| && j != i - 1 ==> es[j] in ps[1..])
  {
    var xs := [d] + es;
    var ps := if i < |xs| then xs[..i] + xs[i + 1..] else xs;
    assert forall k :: 1 <= k < |ps| ==> ps[k] == es[if k < i then k - 1 else k];
    forall j | 0 <= j < |es| && j != i - 1
      ensures es[j] in ps[1..]
    {
      assert ps[1..][if j < i - 1 then j else j - 1] == es[j];
    }
  }

  /** The entry of the peer id is the only one of its name. */
  lemma OneHidden(es: seq<Property>, k: nat)
    requires Distinct(es) && k <= |es|
    ensures forall j :: 0 <= j < |es| && j != k && k < |es| && Hidden(es[k]) ==> !Hidden(es[j])
  {
    forall j | 0 <= j < |es| && j != k && k < |es| && Hidden(es[k]) && Hidden(es[j])
      ensures false
    {
      assert SameName(es[j].name, es[k].name) && SameName(es[k].name, es[j].name);
    }
  }

  // ---- What is read back ----

  lemma {:induction false} DecimalRead(n: nat)
    ensures Number(Decimal(n)) == n && Digits(Decimal(n)) == Decimal(n)
  {
    NumberOf(n);
    AllDigits(Decimal(n));
  }

  lemma {:induction false} NumberOf(n: nat)
    ensures Number(Decimal(n)) == n
  {
    var last := (n % 10) as char + '0';
    if n < 10 {
      assert Decimal(n) == "" + [last];
      NumberNext("", last);
    } else {
      NumberOf(n / 10);
      NumberNext(Decimal(n / 10), last);
    }
  }

  lemma NumberNext(t: string, c: char)
    requires (forall i :: 0 <= i < |t| ==> '0' <= t[i] <= '9') && '0' <= c <= '9'
    ensures Number(t + [c]) == 10 * Number(t) + (c as int - '0' as int)
  {
    assert (t + [c])[..|t|] == t;
  }

  lemma {:induction false} AllDigits(t: string)
    requires forall i :: 0 <= i < |t| ==> '0' <= t[i] <= '9'
    ensures Digits(t) == t
    decreases |t|
  {
    if t != "" {
      AllDigits(t[1..]);
    }
  }

  /** What the proxy can know of a variable: its value only if it is a constant. */
  function Shown(v: VariableDecl): VariableDecl {
    if v.access.ConstantAccess? then v else v.(value := "")
  }

  /** The value of a constant travels if it is neither empty nor too long; other variables always do. */
  lemma VariableRead(v: VariableDecl)
    ensures Read(VariableEntry(v)) ==
      if v.access.ConstantAccess? && (v.value == "" || |v.name| + 1 + |v.value| > 252) then Unreadable
      else Variable(Shown(v))
  {
    var e := VariableEntry(v);
    if v.access.ConstantAccess? && |v.name| + 1 + |v.value| <= 252 {
      assert e.value[0] == 'c' && e.value[1] == '/' && e.value[2..] == v.value;
    }
  }

  /** The port of a connector travels if it is a port other than 65535. */
  lemma ConnectorRead(c: ConnectorDecl)
    ensures Read(ConnectorEntry(c)) == if 0 < c.port < 0xffff then Connector(c) else Unreadable
  {
    var e := ConnectorEntry(c);
    hide Decimal, Digits, Number;
    assert e.value[0] == KindLetter(c.kind) && e.value[1] == '/' && e.value[2..] == Decimal(c.port);
    DecimalRead(c.port);
    assert e.value[2] == Decimal(c.port)[0];
  }

  lemma {:induction false} ExportedIs(ps: seq<Property>)
    ensures forall p :: p in Exported(ps) <==> p in ps && Exportable(p)
    decreases |ps|
  {
    if ps != [] {
      var n := |ps| - 1;
      ExportedIs(ps[..n]);
      LastOf(ps);
    }
  }

  lemma LastOf<T>(s: seq<T>)
    requires s != []
    ensures forall x :: x in s <==> x in s[..|s| - 1] || x == s[|s| - 1]
  {
    assert s == s[..|s| - 1] + [s[|s| - 1]];
  }

  predicate Readable(p: Property) { p.name == DESC || Read(p).Variable? || Read(p).Connector? }

  /** A variable or connector that these properties declare. */
  ghost predicate DeclaresVariable(ps: seq<Property>, v: VariableDecl) {
    exists p :: p in ps && p.name != DESC && Read(p) == Variable(v)
  }

  ghost predicate DeclaresConnector(ps: seq<Property>, c: ConnectorDecl) {
    exists p :: p in ps && p.name != DESC && Read(p) == Connector(c)
  }

  /** A description that has remained full was read from readable properties. */
  lemma {:induction false} FullIsReadable(d: Description, ps: seq<Property>)
    requires d.Description?
    ensures var r := ReadAll(d, ps); r.Description? && r.full <==> d.full && forall p :: p in ps ==> Readable(p)
    decreases |ps|
  {
    if ps != [] {
      var us, p := ps[..|ps| - 1], ps[|ps| - 1];
      FullIsReadable(d, us);
      LastOf(ps);
      hide Read;
      assert ReadAll(d, ps) == ReadNext(ReadAll(d, us), p);
      assert p in ps;
      assert (forall q :: q in ps ==> Readable(q)) <==> Readable(p) && forall q :: q in us ==> Readable(q);
    }
  }

  /** A description has what the properties declare and nothing else. */
  lemma {:induction false} KnowsDeclared(d: Description, ps: seq<Property>, v: VariableDecl, c: ConnectorDecl)
    requires d.Description? && d.variables == [] && d.connectors == [] && ReadAll(d, ps).Description?
    ensures var r := ReadAll(d, ps);
            (v in r.variables <==> DeclaresVariable(ps, v)) && (c in r.connectors <==> DeclaresConnector(ps, c))
    decreases |ps|
  {
    if ps != [] {
      KnowsDeclared(d, ps[..|ps| - 1], v, c);
      MoreDeclared(ps[..|ps| - 1], ps[|ps| - 1], v, c);
      SplitLast(ps);
      hide Read, DeclaresVariable, DeclaresConnector;
    }
  }

  lemma MoreDeclared(ps: seq<Property>, p: Property, v: VariableDecl, c: ConnectorDecl)
    ensures DeclaresVariable(ps + [p], v) <==> DeclaresVariable(ps, v) || (p.name != DESC && Read(p) == Variable(v))
    ensures DeclaresConnector(ps + [p], c) <==> DeclaresConnector(ps, c) || (p.name != DESC && Read(p) == Connector(c))
  {
    hide Read;
    assert forall q :: q in ps + [p] <==> q in ps || q == p;
  }

  lemma {:induction false} VariableEntriesAre(vs: seq<VariableDecl>, constant: bool)
    ensures forall e :: e in VariableEntries(vs, constant) <==>
              exists v :: v in vs && v.access.ConstantAccess? == constant && VariableEntry(v) == e
    decreases |vs|
  {
    if vs != [] {
      VariableEntriesAre(vs[..|vs| - 1], constant);
      LastOf(vs);
    }
  }

  /** What the proxy is given. */
  function Seen(vs: seq<VariableDecl>, cs: seq<ConnectorDecl>, max: nat): seq<Property> {
    Exported(Published(vs, cs, max))
  }

  predicate Fits(vs: seq<VariableDecl>, cs: seq<ConnectorDecl>, max: nat) {
    !AddAll(BLANK, Entries(vs, cs), max).full
  }

  lemma SeenIs(vs: seq<VariableDecl>, cs: seq<ConnectorDecl>, max: nat)
    requires Distinct(Entries(vs, cs))
    ensures var ps := Seen(vs, cs, max);
            && ps != [] && ps[0] == Property(DESC, if Fits(vs, cs, max) then "full" else "part")
            && (Fits(vs, cs, max) ==>
                  forall p :: p in ps && p.name != DESC <==> p in Entries(vs, cs) && !Hidden(p) && Exportable(p))
  {
    var all := Published(vs, cs, max);
    PublishedIs(vs, cs, max);
    ExportedIs(all);
    FirstExported(all);
    if Fits(vs, cs, max) {
      InEntries(Entries(vs, cs));
      hide Entries, Published, Exported;
      assert forall p :: p in all <==> p == all[0] || p in all[1..] by {
        assert all == [all[0]] + all[1..];
      }
      assert forall p :: p in all[1..] ==> p in Entries(vs, cs) && !Hidden(p);
    }
  }

  lemma {:induction false} FirstExported(ps: seq<Property>)
    requires ps != [] && Exportable(ps[0])
    ensures Exported(ps) != [] && Exported(ps)[0] == ps[0]
    decreases |ps|
  {
    if |ps| > 1 {
      FirstExported(ps[..|ps| - 1]);
    } else {
      assert Exported(ps[..0]) == [];
    }
  }

  lemma InEntries(es: seq<Property>)
    requires Distinct(es)
    ensures forall e :: e in es ==> e.name != DESC
    ensures forall e, f :: e in es && f in es && e.name == f.name ==> e == f
  {
    forall e, f | e in es && f in es && e.name == f.name
      ensures e == f
    {
      var i :| 0 <= i < |es| && es[i] == e;
      var j :| 0 <= j < |es| && es[j] == f;
      assert SameName(e.name, f.name);
    }
  }

  /**
   The proxy takes a description for full exactly if the record was never too
   long and every property that was exported can be read. If so, a variable or
   connector is known with its access, value, kind and port exactly if its
   property was short enough to be exported, and nothing else is known.
   */
  lemma FullDescription(vs: seq<VariableDecl>, cs: seq<ConnectorDecl>, max: nat)
    requires Distinct(Entries(vs, cs))
    ensures var d := Decoded(Seen(vs, cs, max));
            && (d.Description? && d.full <==>
                 Fits(vs, cs, max) && forall e :: e in Entries(vs, cs) && !Hidden(e) && Exportable(e) ==> Readable(e))
            && (d.Description? && d.full ==> Complete(vs, cs, d))
  {
    var ps := Seen(vs, cs, max);
    var d := Decoded(ps);
    SeenIs(vs, cs, max);
    DecodedFull(ps, Fits(vs, cs, max));
    hide Entries, Seen, Fits, Decoded, Exportable, Hidden;
    if d.Description? && d.full {
      AllKnown(ps);
      KnownIsComplete(vs, cs, ps, d);
    }
  }

  lemma DecodedFull(ps: seq<Property>, fits: bool)
    requires ps != [] && ps[0] == Property(DESC, if fits then "full" else "part")
    ensures var d := Decoded(ps);
            d.Description? && d.full <==> fits && forall p :: p in ps && p.name != DESC ==> Readable(p)
  {
    assert Find(ps, DESC, 0) == 0;
    FullIsReadable(Description(Desc(ps) == "full", [], []), ps);
    hide Read, ReadAll;
    assert (forall p :: p in ps ==> Readable(p)) <==> forall p :: p in ps && p.name != DESC ==> Readable(p);
  }

  lemma AllKnown(ps: seq<Property>)
    requires Decoded(ps).Description? && Decoded(ps).full
    ensures var d := Decoded(ps);
            && (forall v :: v in d.variables <==> DeclaresVariable(ps, v))
            && (forall c :: c in d.connectors <==> DeclaresConnector(ps, c))
            && (forall p :: p in ps ==> Readable(p))
  {
    var start := Description(Desc(ps) == "full", [], []);
    FullIsReadable(start, ps);
    hide ReadAll, DeclaresVariable, DeclaresConnector, Read;
    var anyV, anyC := VariableDecl("", ReadAccess, ""), ConnectorDecl("", AnInput, 0);
    forall v
      ensures v in Decoded(ps).variables <==> DeclaresVariable(ps, v)
    {
      KnowsDeclared(start, ps, v, anyC);
    }
    forall c
      ensures c in Decoded(ps).connectors <==> DeclaresConnector(ps, c)
    {
      KnowsDeclared(start, ps, anyV, c);
    }
  }

  /** Each declared variable and connector but the peer id is known exactly if its property is short enough. */
  ghost predicate Complete(vs: seq<VariableDecl>, cs: seq<ConnectorDecl>, d: Description)
    requires d.Description?
  {
    && (forall v :: v in vs && !SameName(v.name, PEER_ID)
          ==> (Shown(v) in d.variables <==> Exportable(VariableEntry(v))))
    && (forall c :: c in cs && !SameName(c.name, PEER_ID) ==> (c in d.connectors <==> Exportable(ConnectorEntry(c))))
    && (forall u :: u in d.variables ==> exists v :: v in vs && Shown(v) == u)
    && (forall c :: c in d.connectors ==> c in cs)
  }

  lemma EntriesAre(vs: seq<VariableDecl>, cs: seq<ConnectorDecl>)
    ensures forall v :: v in vs ==> VariableEntry(v) in Entries(vs, cs)
    ensures forall c :: c in cs ==> ConnectorEntry(c) in Entries(vs, cs)
    ensures forall e :: e in Entries(vs, cs) ==>
              (exists v :: v in vs && VariableEntry(v) == e) || (exists c :: c in cs && ConnectorEntry(c) == e)
  {
    VariableEntriesAre(vs, true);
    VariableEntriesAre(vs, false);
    forall c | c in cs
      ensures ConnectorEntry(c) in ConnectorEntries(cs)
    {
      var i :| 0 <= i < |cs| && cs[i] == c;
      assert ConnectorEntries(cs)[i] == ConnectorEntry(c);
    }
    forall e | e in ConnectorEntries(cs)
      ensures exists c :: c in cs && ConnectorEntry(c) == e
    {
      var i :| 0 <= i < |cs| && ConnectorEntries(cs)[i] == e;
      assert cs[i] in cs;
    }
  }

  lemma KnownIsComplete(vs: seq<VariableDecl>, cs: seq<ConnectorDecl>, ps: seq<Property>, d: Description)
    requires Distinct(Entries(vs, cs)) && d.Description?
    requires forall p :: p in ps && p.name != DESC <==> p in Entries(vs, cs) && !Hidden(p) && Exportable(p)
    requires forall p :: p in ps ==> Readable(p)
    requires forall v :: v in d.variables <==> DeclaresVariable(ps, v)
    requires forall c :: c in d.connectors <==> DeclaresConnector(ps, c)
    ensures Complete(vs, cs, d)
  {
    EntriesAre(vs, cs);
    InEntries(Entries(vs, cs));
    hide Entries, Distinct, SameName, Exportable, VariableEntry, ConnectorEntry, Read;
    forall v | v in vs && !SameName(v.name, PEER_ID)
      ensures Shown(v) in d.variables <==> Exportable(VariableEntry(v))
    {
      VariableKnown(Entries(vs, cs), ps, v);
    }
    forall c | c in cs && !SameName(c.name, PEER_ID)
      ensures c in d.connectors <==> Exportable(ConnectorEntry(c))
    {
      ConnectorKnown(Entries(vs, cs), ps, c);
    }
    forall u | u in d.variables
      ensures exists v :: v in vs && Shown(v) == u
    {
      var p :| p in ps && p.name != DESC && Read(p) == Variable(u);
      ReadOfVariable(vs, cs, p, u);
    }
    forall u | u in d.connectors
      ensures u in cs
    {
      var p :| p in ps && p.name != DESC && Read(p) == Connector(u);
      ReadOfConnector(vs, cs, p, u);
    }
  }

  lemma VariableKnown(es: seq<Property>, ps: seq<Property>, v: VariableDecl)
    requires VariableEntry(v) in es && !SameName(v.name, PEER_ID)
    requires forall e :: e in es ==> e.name != DESC
    requires forall e, f :: e in es && f in es && e.name == f.name ==> e == f
    requires forall p :: p in ps && p.name != DESC <==> p in es && !Hidden(p) && Exportable(p)
    requires forall p :: p in ps ==> Readable(p)
    ensures DeclaresVariable(ps, Shown(v)) <==> Exportable(VariableEntry(v))
  {
    var e := VariableEntry(v);
    VariableRead(v);
    NamesRead();
    hide VariableEntry, Read, Exportable, SameName;
    assert e.name == v.name by { EntryName(v); }
    if p :| p in ps && p.name != DESC && Read(p) == Variable(Shown(v)) {
      assert p.name == e.name;
    }
  }

  lemma EntryName(v: VariableDecl)
    ensures VariableEntry(v).name == v.name
  {
  }

  /** A property is read under its own name. */
  lemma NamesRead()
    ensures forall p: Property ::
              && (Read(p).Variable? ==> Read(p).decl.name == p.name)
              && (Read(p).Connector? ==> Read(p).connector.name == p.name)
  {
  }

  lemma ConnectorKnown(es: seq<Property>, ps: seq<Property>, c: ConnectorDecl)
    requires ConnectorEntry(c) in es && !SameName(c.name, PEER_ID)
    requires forall e :: e in es ==> e.name != DESC
    requires forall e, f :: e in es && f in es && e.name == f.name ==> e == f
    requires forall p :: p in ps && p.name != DESC <==> p in es && !Hidden(p) && Exportable(p)
    requires forall p :: p in ps ==> Readable(p)
    ensures DeclaresConnector(ps, c) <==> Exportable(ConnectorEntry(c))
  {
    var e := ConnectorEntry(c);
    ConnectorRead(c);
    NamesRead();
    assert e.name == c.name;
    hide ConnectorEntry, Read, Exportable, SameName;
    if p :| p in ps && p.name != DESC && Read(p) == Connector(c) {
      assert p.name == e.name;
    }
  }

  lemma ReadOfVariable(vs: seq<VariableDecl>, cs: seq<ConnectorDecl>, p: Property, u: VariableDecl)
    requires p in Entries(vs, cs) && Read(p) == Variable(u)
    ensures exists v :: v in vs && Shown(v) == u
  {
    EntriesAre(vs, cs);
    hide Entries;
    if v :| v in vs && VariableEntry(v) == p {
      VariableRead(v);
    } else {
      var c :| c in cs && ConnectorEntry(c) == p;
      ConnectorRead(c);
    }
  }

  lemma ReadOfConnector(vs: seq<VariableDecl>, cs: seq<ConnectorDecl>, p: Property, u: ConnectorDecl)
    requires p in Entries(vs, cs) && Read(p) == Connector(u)
    ensures u in cs
  {
    EntriesAre(vs, cs);
    hide Entries;
    if v :| v in vs && VariableEntry(v) == p {
      VariableRead(v);
    } else {
      var c :| c in cs && ConnectorEntry(c) == p;
      ConnectorRead(c);
    }
  }

  // ---- Lengths ----

  /**
   The entry of a constant keeps within the 255 bytes of section 6.1 of
   RFC 6763 exactly if its name leaves room for the shortest value; it is lost
   on export exactly if name, equals sign and value make 252 bytes, or the name
   alone does.
   */
  lemma ConstantLimits(v: VariableDecl)
    requires v.access.ConstantAccess?
    ensures var e := VariableEntry(v);
            && (|e.name| + 1 + |e.value| <= 255 <==> |v.name| <= 253)
            && (!Exportable(e) <==> |v.name| + 1 + |v.value| == 252 || |v.name| >= 252)
  {
  }

  function Blanks(n: nat): string { seq(n, _ => ' ') }

  /** A constant that is lost although the description is taken for full. */
  lemma LostConstant(max: nat)
    requires max >= 824
    ensures var v := VariableDecl("key", ConstantAccess, Blanks(248));
            var d := Decoded(Seen([v], [], max));
            d.Description? && d.full && v !in d.variables
  {
    var v := VariableDecl("key", ConstantAccess, Blanks(248));
    var e := VariableEntry(v);
    OneEntry(v);
    LostEntry(e, max);
    ConstantLimits(v);
    LostLong([v], max, v);
  }

  lemma LostLong(vs: seq<VariableDecl>, max: nat, v: VariableDecl)
    requires Distinct(Entries(vs, [])) && Fits(vs, [], max) && v in vs && v.access.ConstantAccess?
          && !SameName(v.name, PEER_ID)
    requires !Exportable(VariableEntry(v)) && forall e :: e in Entries(vs, []) ==> e == VariableEntry(v)
    ensures var d := Decoded(Seen(vs, [], max)); d.Description? && d.full && v !in d.variables
  {
    FullDescription(vs, [], max);
    assert Complete(vs, [], Decoded(Seen(vs, [], max)));
    assert Shown(v) == v;
  }

  lemma OneEntry(v: VariableDecl)
    requires v.access.ConstantAccess?
    ensures Entries([v], []) == [VariableEntry(v)]
  {
    assert [] + [v] == [v];
    MoreEntries([], v, true);
    MoreEntries([], v, false);
    hide VariableEntries, VariableEntry;
    assert VariableEntries([], true) == [] == VariableEntries([], false) by { NoEntries(); }
    assert ConnectorEntries([]) == [];
  }

  lemma NoEntries()
    ensures VariableEntries([], true) == [] == VariableEntries([], false)
  {
  }

  lemma MoreEntries(vs: seq<VariableDecl>, v: VariableDecl, constant: bool)
    ensures VariableEntries(vs + [v], constant) ==
              VariableEntries(vs, constant) + if v.access.ConstantAccess? == constant then [VariableEntry(v)] else []
  {
    assert (vs + [v])[..|vs|] == vs;
  }

  lemma MoreAdded(r: Record, es: seq<Property>, e: Property, max: nat)
    ensures AddAll(r, es + [e], max) == Add(AddAll(r, es, max), e, max)
  {
    assert (es + [e])[..|es|] == es;
  }

  lemma MoreLength(ps: seq<Property>, p: Property)
    ensures TxtLength(ps + [p]) == TxtLength(ps) + Length(p)
  {
    assert (ps + [p])[..|ps|] == ps;
  }

  lemma LostEntry(e: Property, max: nat)
    requires e.name == "key" && |e.value| == 250 && max >= 824
    ensures Distinct([e]) && !Hidden(e) && !AddAll(BLANK, [e], max).full
  {
    hide AddAll, TxtLength, Find;
    assert [] + [e] == [e] && [] + BLANK.props == BLANK.props;
    MoreAdded(BLANK, [], e, max);
    MoreLength([], BLANK.props[0]);
    MoreLength(BLANK.props, e);
    FindNone(BLANK.props, e.name, 0);
    NothingAdded(max);
    assert TxtLength([]) == 0 by { NoLength(); }
    assert Put(BLANK.props, e.name, e.value) == BLANK.props + [e];
  }

  lemma NothingAdded(max: nat)
    ensures AddAll(BLANK, [], max) == BLANK
  {
  }

  lemma NoLength()
    ensures TxtLength([]) == 0
  {
  }
}

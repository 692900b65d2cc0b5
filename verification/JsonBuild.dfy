/**
 What the callback of Json/json_spirit_reader.cpp makes of a sequence of
 events, as a fold over trees. The node being filled is always reached from the
 root by following last children, so a level says which one it is.
 */
module JsonBuild {
  import opened Basics
  import opened JsonTypes
  import opened JsonGrammar

  /** `root` is `value_` once something was begun, `level` locates `current_p`, `name` is `name_`. */
  datatype Builder = Builder(root: Option<Json>, level: nat, name: Text)

  const EMPTY_BUILDER := Builder(None, 0, [])

  predicate HasChild(j: Json) { (j.Arr? && j.items != []) || (j.Obj? && j.members != []) }

  function LastChild(j: Json): (c: Json)
    requires HasChild(j)
    ensures c < j
  {
    if j.Arr? then Last(j.items) else assert Last(j.members) < j; Last(j.members).value
  }

  function WithLastChild(j: Json, c: Json): Json
    requires HasChild(j)
  {
    if j.Arr? then Arr(Chop(j.items) + [c]) else Obj(Chop(j.members) + [Pair(Last(j.members).name, c)])
  }

  /** A container lies `level` steps down the path of last children. */
  predicate OnPath(j: Json, level: nat)
    decreases level
  {
    if level == 0 then j.Arr? || j.Obj? else HasChild(j) && OnPath(LastChild(j), level - 1)
  }

  function NodeAt(j: Json, level: nat): (n: Json)
    requires OnPath(j, level)
    ensures n.Arr? || n.Obj?
    decreases level
  {
    if level == 0 then j else NodeAt(LastChild(j), level - 1)
  }

  /** `push_back` on a container: objects take the current name as the key. */
  function Append(j: Json, name: Text, c: Json): Json
    requires j.Arr? || j.Obj?
  {
    if j.Arr? then Arr(j.items + [c]) else Obj(j.members + [Pair(name, c)])
  }

  /** `add_to_current` seen from the root. */
  function AddAt(j: Json, level: nat, name: Text, c: Json): (r: Json)
    requires OnPath(j, level)
    ensures OnPath(r, level)
    decreases level
  {
    if level == 0 then Append(j, name, c)
    else WithLastChild(j, AddAt(LastChild(j), level - 1, name, c))
  }

  predicate Ready(b: Builder) { b.root.Some? && OnPath(b.root.value, b.level) }

  function Add(b: Builder, c: Json): Option<Builder> {
    if Ready(b) then Some(b.(root := Some(AddAt(b.root.value, b.level, b.name, c)))) else None
  }

  function Begin(b: Builder, c: Json): Option<Builder> {
    if b.root.None? then Some(b.(root := Some(c), level := 0))
    else if Ready(b) then Some(b.(root := Some(AddAt(b.root.value, b.level, b.name, c)), level := b.level + 1))
    else None
  }

  function End(b: Builder): Option<Builder> {
    if b.root.None? then None
    else Some(b.(level := if b.level == 0 then 0 else b.level - 1))
  }

  /** One call of the callback; None where the source would dereference a null pointer or fail an assertion. */
  function Apply(b: Builder, e: Event): Option<Builder> {
    match e
    case ArrayBegin => Begin(b, Arr([]))
    case ObjectBegin => Begin(b, Obj([]))
    case ArrayEnd | ObjectEnd => End(b)
    case KeyEvent(k) => if Ready(b) && NodeAt(b.root.value, b.level).Obj? then Some(b.(name := k)) else None
    case IntegerEvent(v) => Add(b, Int(Wrap32(v)))
    case FloatEvent(t) => Add(b, Real(t))
    case NullEvent => Add(b, Null)
    case TrueEvent => Add(b, Bool(true))
    case FalseEvent => Add(b, Bool(false))
    case StringEvent(s) => Add(b, Str(s))
  }

  function Build(b: Builder, es: seq<Event>): Option<Builder>
    decreases |es|
  {
    if es == [] then Some(b)
    else
      match Apply(b, es[0])
      case None => None
      case Some(b1) => Build(b1, es[1..])
  }

  lemma {:induction false} BuildConcat(b: Builder, xs: seq<Event>, ys: seq<Event>)
    ensures Build(b, xs + ys) == match Build(b, xs) case None => None case Some(m) => Build(m, ys)
    decreases |xs|
  {
    if xs == [] {
      assert xs + ys == ys;
    } else {
      assert (xs + ys)[0] == xs[0] && (xs + ys)[1..] == xs[1..] + ys;
      if Apply(b, xs[0]).Some? {
        BuildConcat(Apply(b, xs[0]).value, xs[1..], ys);
      }
    }
  }

  lemma BuildOne(b: Builder, e: Event)
    ensures Build(b, [e]) == Apply(b, e)
  {
    assert [e][1..] == [];
    if Apply(b, e).Some? {
      assert Build(Apply(b, e).value, []) == Apply(b, e);
    }
  }

  // ---- Filling a container in place ----

  /** Where a container is being filled: the root, or a fresh last child somewhere below it. */
  datatype Spot = Top | Under(root: Json, level: nat, name: Text)

  predicate SpotOk(s: Spot) { s.Under? ==> OnPath(s.root, s.level) }

  function Level(s: Spot): nat { if s.Top? then 0 else s.level + 1 }

  /** The whole tree with `j` at the spot. */
  function Put(s: Spot, j: Json): Json
    requires SpotOk(s)
  {
    if s.Top? then j else AddAt(s.root, s.level, s.name, j)
  }

  lemma {:induction false} AddedChild(j: Json, level: nat, name: Text, c: Json)
    requires OnPath(j, level) && (c.Arr? || c.Obj?)
    ensures var r := AddAt(j, level, name, c); OnPath(r, level + 1) && NodeAt(r, level + 1) == c
    decreases level
  {
    var r := AddAt(j, level, name, c);
    if level == 0 {
      assert LastChild(r) == c;
    } else {
      AddedChild(LastChild(j), level - 1, name, c);
      assert LastChild(r) == AddAt(LastChild(j), level - 1, name, c);
    }
  }

  lemma Relast(j: Json, c: Json, x: Json)
    requires HasChild(j)
    ensures var r := WithLastChild(j, c); HasChild(r) && LastChild(r) == c && WithLastChild(r, x) == WithLastChild(j, x)
  {
    if j.Arr? {
      assert Chop(Chop(j.items) + [c]) == Chop(j.items);
    } else {
      assert Chop(Chop(j.members) + [Pair(Last(j.members).name, c)]) == Chop(j.members);
    }
  }

  lemma AppendLast(j: Json, name: Text, c: Json, x: Json)
    requires j.Arr? || j.Obj?
    ensures var r := Append(j, name, c); HasChild(r) && LastChild(r) == c && WithLastChild(r, x) == Append(j, name, x)
  {
    if j.Arr? {
      assert Chop(j.items + [c]) == j.items;
    } else {
      assert Chop(j.members + [Pair(name, c)]) == j.members;
    }
  }

  /** Appending to a child just added is adding the longer child. */
  lemma {:induction false} AppendToAdded(j: Json, level: nat, name: Text, c: Json, key: Text, x: Json)
    requires OnPath(j, level) && (c.Arr? || c.Obj?)
    ensures OnPath(AddAt(j, level, name, c), level + 1)
    ensures AddAt(AddAt(j, level, name, c), level + 1, key, x) == AddAt(j, level, name, Append(c, key, x))
    decreases level
  {
    if level == 0 {
      AppendLast(j, name, c, Append(c, key, x));
      AddAtUnder(AddAt(j, 0, name, c), 1, key, x);
    } else {
      AppendToAdded(LastChild(j), level - 1, name, c, key, x);
      AppendBelow(j, level, name, c, key, x);
    }
  }

  /** The two clauses of the definition of AddAt, one level at a time. */
  lemma AddAtUnder(j: Json, level: nat, name: Text, c: Json)
    requires level > 0 && HasChild(j) && OnPath(LastChild(j), level - 1)
    ensures OnPath(j, level) && AddAt(j, level, name, c) == WithLastChild(j, AddAt(LastChild(j), level - 1, name, c))
  {
  }

  lemma PathUnder(j: Json, level: nat)
    requires level > 0 && OnPath(j, level)
    ensures HasChild(j) && OnPath(LastChild(j), level - 1)
  {
  }

  lemma AppendBelow(j: Json, level: nat, name: Text, c: Json, key: Text, x: Json)
    requires level > 0 && OnPath(j, level) && (c.Arr? || c.Obj?)
    requires var l := LastChild(j);
             && OnPath(AddAt(l, level - 1, name, c), level)
             && AddAt(AddAt(l, level - 1, name, c), level, key, x) == AddAt(l, level - 1, name, Append(c, key, x))
    ensures OnPath(AddAt(j, level, name, c), level + 1)
    ensures AddAt(AddAt(j, level, name, c), level + 1, key, x) == AddAt(j, level, name, Append(c, key, x))
  {
    hide AddAt, OnPath, WithLastChild, Append, HasChild, LastChild;
    PathUnder(j, level);
    var l := LastChild(j);
    AddAtUnder(j, level, name, c);
    AddAtUnder(j, level, name, Append(c, key, x));
    var inner := AddAt(l, level - 1, name, c);
    Relast(j, inner, AddAt(l, level - 1, name, Append(c, key, x)));
    AddAtUnder(WithLastChild(j, inner), level + 1, key, x);
  }

  lemma PutAppend(s: Spot, c: Json, key: Text, x: Json)
    requires SpotOk(s) && (c.Arr? || c.Obj?)
    ensures OnPath(Put(s, c), Level(s)) && NodeAt(Put(s, c), Level(s)) == c
    ensures AddAt(Put(s, c), Level(s), key, x) == Put(s, Append(c, key, x))
  {
    if s.Under? {
      AddedChild(s.root, s.level, s.name, c);
      AppendToAdded(s.root, s.level, s.name, c, key, x);
    }
  }

  // ---- The events of a derivation build its tree ----

  /** The state while the container `c` at spot `s` is being filled. */
  predicate Filling(b: Builder, s: Spot, c: Json) {
    SpotOk(s) && b.root == Some(Put(s, c)) && b.level == Level(s)
  }

  /** Adding to the container `c`. */
  ghost predicate Adds(b: Builder, es: seq<Event>, s: Spot, c: Json) {
    Build(b, es).Some? && Filling(Build(b, es).value, s, c)
  }

  lemma {:induction false} ValueBuilds(b: Builder, s: Spot, c: Json, v: Value)
    requires ValueOk(v) && Filling(b, s, c) && (c.Arr? || c.Obj?)
    ensures Adds(b, ValueEvents(v), s, Append(c, b.name, Tree(v)))
    decreases v, 1
  {
    if IsContainer(v) {
      PutAppend(s, c, b.name, Tree(v));
      var u := Under(Put(s, c), b.level, b.name);
      ContainerBuilds(b, u, v);
      assert Put(u, Tree(v)) == Put(s, Append(c, b.name, Tree(v)));
    } else {
      LeafBuilds(b, s, c, v);
    }
  }

  lemma LeafBuilds(b: Builder, s: Spot, c: Json, v: Value)
    requires ValueOk(v) && !IsContainer(v) && Filling(b, s, c) && (c.Arr? || c.Obj?)
    ensures Adds(b, ValueEvents(v), s, Append(c, b.name, Tree(v)))
  {
    var e := LeafEvent(v);
    PutAppend(s, c, b.name, Tree(v));
    BuildOne(b, e);
    LeafAdded(b, v, e);
    hide Put, Append, AddAt, NodeAt, OnPath, Apply, Build, Tree, ValueEvents;
  }

  lemma LeafEvent(v: Value) returns (e: Event)
    requires ValueOk(v) && !IsContainer(v)
    ensures ValueEvents(v) == [e]
  {
    e := ValueEvents(v)[0];
  }

  lemma LeafAdded(b: Builder, v: Value, e: Event)
    requires ValueOk(v) && !IsContainer(v) && ValueEvents(v) == [e]
    ensures Apply(b, e) == Add(b, Tree(v))
  {
    hide Add;
    assert ValueEvents(v)[0] == e;
  }

  /** The events of a container: it is begun at the spot `u`, filled and left. */
  lemma {:induction false} ContainerBuilds(b: Builder, u: Spot, v: Value)
    requires ValueOk(v) && IsContainer(v)
    requires if u.Top? then b.root.None?
             else b.root == Some(u.root) && b.level == u.level && b.name == u.name && SpotOk(u)
    ensures var r := Build(b, ValueEvents(v));
            r.Some? && r.value.root == Some(Put(u, Tree(v))) && r.value.level == (if u.Top? then 0 else u.level)
    decreases v, 0
  {
    var open := if v.EmptyArray? || v.ArrayValue? then ArrayBegin else ObjectBegin;
    var c := if open.ArrayBegin? then Arr([]) else Obj([]);
    var close := if open.ArrayBegin? then ArrayEnd else ObjectEnd;
    var inner: seq<Event> := if v.ArrayValue? then ElementsEvents(v.elements)
                             else if v.ObjectValue? then MembersEvents(v.members) else [];
    assert ValueEvents(v) == [open] + (inner + [close]);
    BuildOne(b, open);
    BuildConcat(b, [open], inner + [close]);
    var b1 := Apply(b, open).value;
    assert Filling(b1, u, c);
    if v.ArrayValue? {
      ElementsBuild(b1, u, [], v.elements);
      assert [] + ElementsTrees(v.elements) == ElementsTrees(v.elements);
    } else if v.ObjectValue? {
      MembersBuild(b1, u, [], v.members);
      assert [] + MembersPairs(v.members) == MembersPairs(v.members);
    }
    assert Adds(b1, inner, u, Tree(v));
    var b2 := Build(b1, inner).value;
    BuildConcat(b1, inner, [close]);
    BuildOne(b2, close);
  }

  lemma AddsMore(b: Builder, xs: seq<Event>, s: Spot, c: Json, ys: seq<Event>, d: Json)
    requires Adds(b, xs, s, c) && Adds(Build(b, xs).value, ys, s, d)
    ensures Adds(b, xs + ys, s, d)
  {
    hide Filling;
    BuildConcat(b, xs, ys);
  }

  lemma ElementsTreesAre(xs: seq<Json>, e: Elements)
    requires ElementsOk(e)
    ensures xs + ElementsTrees(e) ==
              if e.rest.Some? then xs + [Tree(e.value)] + ElementsTrees(e.rest.value) else xs + [Tree(e.value)]
    ensures e.rest.None? ==> ElementsEvents(e) == ValueEvents(e.value)
  {
    hide Tree, ValueEvents;
    if e.rest.Some? {
      Assoc(xs, [Tree(e.value)], ElementsTrees(e.rest.value));
    } else {
      NoneAfter([Tree(e.value)]);
      NoneAfter(ValueEvents(e.value));
    }
  }

  lemma {:induction false} ElementsBuild(b: Builder, s: Spot, xs: seq<Json>, e: Elements)
    requires ElementsOk(e) && Filling(b, s, Arr(xs))
    ensures Adds(b, ElementsEvents(e), s, Arr(xs + ElementsTrees(e)))
    decreases e, 0
  {
    hide ValueEvents, Tree, Build, Filling;
    ValueBuilds(b, s, Arr(xs), e.value);
    var xs1 := xs + [Tree(e.value)];
    ElementsTreesAre(xs, e);
    if e.rest.Some? {
      ElementsBuild(Build(b, ValueEvents(e.value)).value, s, xs1, e.rest.value);
      AddsMore(b, ValueEvents(e.value), s, Arr(xs1), ElementsEvents(e.rest.value),
          Arr(xs1 + ElementsTrees(e.rest.value)));
    }
  }

  lemma FirstPair(b: Builder, s: Spot, ps: seq<Pair>, k: Text, es: seq<Event>, j: Json)
    requires Filling(b, s, Obj(ps)) && Adds(b.(name := k), es, s, Obj(ps + [Pair(k, j)]))
    ensures Adds(b, [KeyEvent(k)] + es, s, Obj(ps + [Pair(k, j)]))
  {
    hide Build, Put;
    PutAppend(s, Obj(ps), k, Null);
    BuildOne(b, KeyEvent(k));
    BuildConcat(b, [KeyEvent(k)], es);
  }

  lemma MembersPairsAre(ps: seq<Pair>, m: Members)
    requires MembersOk(m)
    ensures var first := Pair(ItemsBytes(m.key), Tree(m.value));
            ps + MembersPairs(m) == if m.rest.Some? then ps + [first] + MembersPairs(m.rest.value) else ps + [first]
    ensures m.rest.None? ==> MembersEvents(m) == [KeyEvent(ItemsBytes(m.key))] + ValueEvents(m.value)
  {
    hide Tree, ValueEvents, ItemsBytes;
    var first := Pair(ItemsBytes(m.key), Tree(m.value));
    if m.rest.Some? {
      Assoc(ps, [first], MembersPairs(m.rest.value));
    } else {
      NoneAfter([first]);
      NoneAfter([KeyEvent(ItemsBytes(m.key))] + ValueEvents(m.value));
    }
  }

  lemma {:induction false} MembersBuild(b: Builder, s: Spot, ps: seq<Pair>, m: Members)
    requires MembersOk(m) && Filling(b, s, Obj(ps))
    ensures Adds(b, MembersEvents(m), s, Obj(ps + MembersPairs(m)))
    decreases m, 0
  {
    var k := ItemsBytes(m.key);
    assert Filling(b.(name := k), s, Obj(ps));
    hide ValueEvents, Tree, Build, ItemsBytes, ItemsOk, Filling;
    ValueBuilds(b.(name := k), s, Obj(ps), m.value);
    FirstPair(b, s, ps, k, ValueEvents(m.value), Tree(m.value));
    var ps1 := ps + [Pair(k, Tree(m.value))];
    var first := [KeyEvent(k)] + ValueEvents(m.value);
    MembersPairsAre(ps, m);
    if m.rest.Some? {
      MembersBuild(Build(b, first).value, s, ps1, m.rest.value);
      AddsMore(b, first, s, Obj(ps1), MembersEvents(m.rest.value), Obj(ps1 + MembersPairs(m.rest.value)));
    }
  }

  /** Feeding the events of a document to an empty builder yields the tree of the document. */
  lemma DocumentBuilds(d: Document)
    requires DocumentOk(d)
    ensures var r := Build(EMPTY_BUILDER, ValueEvents(d.value));
            r.Some? && r.value.root == Some(Tree(d.value)) && r.value.level == 0
  {
    ContainerBuilds(EMPTY_BUILDER, Top, d.value);
  }
}

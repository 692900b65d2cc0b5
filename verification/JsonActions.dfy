/**
 `Semantic_actions` of Json/json_spirit_reader.cpp on a heap of values. The
 class keeps raw pointers: to the node being filled and, on a stack, to its
 ancestors. A `push_back` may move every element of the vector it appends to;
 the model then replaces those elements by fresh deep copies, so a pointer to a
 moved element would no longer point into the tree. The proof shows that the
 saved pointers always do, and that each action is the fold of JsonBuild.
 */
module JsonActions {
  import opened Basics
  import opened JsonTypes
  import opened JsonBuild

  /** The tree of a container from its kind, its keys and its children. */
  function Make(isArray: bool, names: seq<Text>, kids: seq<Json>): (j: Json)
    requires !isArray ==> |names| == |kids|
    ensures j.Arr? || j.Obj?
  {
    if isArray then Arr(kids) else Obj(seq(|kids|, i requires 0 <= i < |kids| => Pair(names[i], kids[i])))
  }

  // ---- Open containers as values ----

  /** An open container: its keys and its finished children. The next open container is its last child. */
  datatype Frame = Frame(isArray: bool, names: seq<Text>, done: seq<Json>)

  /** `open` says whether a further, unfinished child follows the finished ones. */
  predicate FrameOk(f: Frame, open: bool) {
    if f.isArray then f.names == [] else |f.names| == |f.done| + if open then 1 else 0
  }

  predicate FramesOk(fs: seq<Frame>) {
    fs != [] && forall i :: 0 <= i < |fs| ==> FrameOk(fs[i], i < |fs| - 1)
  }

  /** The tree of a nest of open containers, outermost first. */
  function TreeOf(fs: seq<Frame>): (j: Json)
    requires FramesOk(fs)
    ensures j.Arr? || j.Obj?
    decreases |fs|
  {
    if |fs| == 1 then Make(fs[0].isArray, fs[0].names, fs[0].done)
    else Make(fs[0].isArray, fs[0].names, fs[0].done + [TreeOf(fs[1..])])
  }

  lemma TreeOfOne(f: Frame)
    requires FrameOk(f, false)
    ensures FramesOk([f]) && TreeOf([f]) == Make(f.isArray, f.names, f.done)
  {
  }

  lemma MakeLast(isArray: bool, names: seq<Text>, kids: seq<Json>, c: Json, d: Json)
    requires !isArray ==> |names| == |kids| + 1
    ensures var j := Make(isArray, names, kids + [c]);
            HasChild(j) && LastChild(j) == c && WithLastChild(j, d) == Make(isArray, names, kids + [d])
  {
    var j := Make(isArray, names, kids + [c]);
    if isArray {
      assert Chop(kids + [c]) == kids;
    } else {
      var r := Make(isArray, names, kids + [d]);
      assert |j.members| == |r.members| == |kids| + 1;
      assert forall i :: 0 <= i < |kids| ==> j.members[i] == r.members[i];
      assert WithLastChild(j, d).members == r.members;
    }
  }

  lemma MakeAppend(isArray: bool, names: seq<Text>, kids: seq<Json>, name: Text, c: Json)
    requires if isArray then names == [] else |names| == |kids|
    ensures Append(Make(isArray, names, kids), name, c)
         == Make(isArray, if isArray then [] else names + [name], kids + [c])
  {
    if !isArray {
      var a := Append(Make(isArray, names, kids), name, c).members;
      var b := Make(isArray, names + [name], kids + [c]).members;
      assert |a| == |b|;
      assert forall i :: 0 <= i < |a| ==> a[i] == b[i];
    }
  }

  /** The frame after `push_back` of a finished child. */
  function Grown(f: Frame, name: Text, c: Json): Frame {
    Frame(f.isArray, if f.isArray then [] else f.names + [name], f.done + [c])
  }

  /** The frame whose unfinished last child has just been appended. */
  function Opened(f: Frame, name: Text): Frame {
    Frame(f.isArray, if f.isArray then [] else f.names + [name], f.done)
  }

  lemma {:induction false} GrowLast(fs: seq<Frame>, name: Text, c: Json)
    requires FramesOk(fs)
    ensures OnPath(TreeOf(fs), |fs| - 1) && (NodeAt(TreeOf(fs), |fs| - 1).Arr? <==> Last(fs).isArray)
    ensures FramesOk(Chop(fs) + [Grown(Last(fs), name, c)])
    ensures AddAt(TreeOf(fs), |fs| - 1, name, c) == TreeOf(Chop(fs) + [Grown(Last(fs), name, c)])
    decreases |fs|
  {
    var gs := Chop(fs) + [Grown(Last(fs), name, c)];
    GrownOk(fs, name, c);
    if |fs| == 1 {
      assert gs == [Grown(fs[0], name, c)];
      MakeAppend(fs[0].isArray, fs[0].names, fs[0].done, name, c);
    } else {
      hide TreeOf, AddAt, OnPath, NodeAt, FramesOk, Make;
      assert Last(fs[1..]) == Last(fs);
      GrowLast(fs[1..], name, c);
      assert gs[0] == fs[0] && gs[1..] == Chop(fs[1..]) + [Grown(Last(fs), name, c)];
      GrowUnder(fs, gs, name, c);
    }
  }

  lemma GrownOk(fs: seq<Frame>, name: Text, c: Json)
    requires FramesOk(fs)
    ensures FramesOk(Chop(fs) + [Grown(Last(fs), name, c)])
    ensures |fs| > 1 ==> FramesOk(fs[1..])
  {
  }

  /** What happens below the outermost container happens in it. */
  lemma GrowUnder(fs: seq<Frame>, gs: seq<Frame>, name: Text, c: Json)
    requires FramesOk(fs) && FramesOk(gs) && |fs| == |gs| > 1 && gs[0] == fs[0]
    requires FramesOk(fs[1..]) && FramesOk(gs[1..]) && OnPath(TreeOf(fs[1..]), |fs| - 2)
    requires AddAt(TreeOf(fs[1..]), |fs| - 2, name, c) == TreeOf(gs[1..])
    ensures OnPath(TreeOf(fs), |fs| - 1) && NodeAt(TreeOf(fs), |fs| - 1) == NodeAt(TreeOf(fs[1..]), |fs| - 2)
    ensures AddAt(TreeOf(fs), |fs| - 1, name, c) == TreeOf(gs)
  {
    MakeLast(fs[0].isArray, fs[0].names, fs[0].done, TreeOf(fs[1..]), TreeOf(gs[1..]));
    hide Make;
  }

  /** An unfinished last child is a finished one once its frame is folded. */
  lemma {:induction false} FoldLast(fs: seq<Frame>)
    requires FramesOk(fs) && |fs| >= 2
    ensures var f, p := Last(fs), fs[|fs| - 2];
            var gs := fs[..|fs| - 2] + [Frame(p.isArray, p.names, p.done + [Make(f.isArray, f.names, f.done)])];
            FramesOk(gs) && TreeOf(gs) == TreeOf(fs)
    decreases |fs|
  {
    var f, p := Last(fs), fs[|fs| - 2];
    var g := Frame(p.isArray, p.names, p.done + [Make(f.isArray, f.names, f.done)]);
    var gs := fs[..|fs| - 2] + [g];
    if |fs| == 2 {
      assert gs == [g];
    } else {
      FoldLast(fs[1..]);
      assert gs[0] == fs[0];
      assert gs[1..] == fs[1..][..|fs| - 3] + [g];
    }
  }

  /** Beginning a container appends an empty one. */
  lemma OpenLast(fs: seq<Frame>, name: Text, isArray: bool)
    requires FramesOk(fs)
    ensures var gs := Chop(fs) + [Opened(Last(fs), name), Frame(isArray, [], [])];
            && OnPath(TreeOf(fs), |fs| - 1) && FramesOk(gs)
            && TreeOf(gs) == AddAt(TreeOf(fs), |fs| - 1, name, if isArray then Arr([]) else Obj([]))
  {
    var c := if isArray then Arr([]) else Obj([]);
    var gs := Chop(fs) + [Opened(Last(fs), name), Frame(isArray, [], [])];
    OpenedOk(fs, name, isArray);
    LastTwo(Chop(fs), Opened(Last(fs), name), Frame(isArray, [], []));
    assert Make(isArray, [], []) == c;
    hide TreeOf, AddAt, OnPath, FramesOk, Chop, Last, Make;
    GrowLast(fs, name, c);
    FoldLast(gs);
  }

  lemma OpenedOk(fs: seq<Frame>, name: Text, isArray: bool)
    requires FramesOk(fs)
    ensures FramesOk(Chop(fs) + [Opened(Last(fs), name), Frame(isArray, [], [])])
  {
  }

  lemma OneByOne<T>(s: seq<T>, a: T, b: T)
    ensures s + [a, b] == s + [a] + [b]
  {
  }

  lemma LastTwo<T>(s: seq<T>, a: T, b: T)
    ensures var r := s + [a, b]; Last(r) == b && r[|r| - 2] == a && r[..|r| - 2] == s
  {
  }

  // ---- Values in memory ----

  /** A json_spirit::Value. */
  class Cell {
    /** The value itself, when it is not a container. */
    var leaf: Json
    var isContainer: bool
    var isArray: bool
    /** The keys of an object. */
    var names: seq<Text>
    /** The elements of an array, the values of an object. */
    var kids: seq<Cell>
    /** The trees of the finished children, and all the cells they are made of. */
    ghost var done: seq<Json>
    ghost var below: set<Cell>
    /** Of a finished value: its tree. */
    ghost var tree: Json

    constructor (leaf: Json)
      requires !leaf.Arr? && !leaf.Obj?
      ensures Complete() && tree == leaf && below == {}
    {
      this.leaf, isContainer, isArray, names, kids := leaf, false, false, [], [];
      done, below, tree := [], {}, leaf;
    }

    constructor Empty(isArray: bool)
      ensures Open(null) && Shape() == Frame(isArray, [], []) && below == {}
    {
      leaf, isContainer, this.isArray, names, kids := Null, true, isArray, [], [];
      done, below, tree := [], {}, Null;
    }

    constructor Of(isArray: bool, names: seq<Text>, kids: seq<Cell>, ghost done: seq<Json>, ghost below: set<Cell>)
      requires FrameOk(Frame(isArray, names, done), false) && Finished(kids, done, below)
      ensures Complete() && tree == Make(isArray, names, done) && this.below == below
    {
      leaf, isContainer, this.isArray, this.names, this.kids := Null, true, isArray, names, kids;
      this.done, this.below, tree := done, below, Make(isArray, names, done);
    }

    /** The cells `ks` are finished values with the given trees, made of cells in `below`. */
    static ghost predicate Finished(ks: seq<Cell>, trees: seq<Json>, below: set<Cell>)
      reads below
      decreases below, 1
    {
      && |trees| == |ks|
      && forall i :: 0 <= i < |ks| ==>
        ks[i] in below && ks[i].below <= below - {ks[i]} && ks[i].Complete() && ks[i].tree == trees[i]
    }

    static lemma FinishedMore(ks: seq<Cell>, trees: seq<Json>, below: set<Cell>, c: Cell)
      requires Finished(ks, trees, below) && c.Complete()
      ensures Finished(ks + [c], trees + [c.tree], below + {c} + c.below)
    {
    }

    /** A finished value. */
    ghost predicate Complete()
      reads this, below
      decreases below, 2
    {
      && this !in below
      && if isContainer then
           && FrameOk(Frame(isArray, names, done), false)
           && tree == Make(isArray, names, done)
           && Finished(kids, done, below)
         else
           tree == leaf && !leaf.Arr? && !leaf.Obj?
    }

    ghost function Shape(): (f: Frame)
      reads this
    {
      Frame(isArray, names, done)
    }

    /**
     An open container: its last child is the next open one, if there is one,
     and its other children are finished.
     */
    ghost predicate Open(next: Cell?)
      reads this, below
    {
      && isContainer && this !in below && FrameOk(Shape(), next != null)
      && (next != null ==> kids != [] && Last(kids) == next)
      && Finished(if next != null then Chop(kids) else kids, done, below)
    }

    /** The value in memory is the container `j`, finished all the way down. */
    ghost predicate Holds(j: Json)
      reads this, below
    {
      Open(null) && j == Make(isArray, names, done)
    }

    /** The part of `push_back` that may move the elements of the vector. */
    method Reallocate()
      requires Open(null)
      modifies this
      ensures Open(null) && Shape() == old(Shape()) && fresh(below - old(below))
    {
      var moved: bool := *;
      if moved {
        kids, below := CopyAll(kids, done, below);
      }
    }

    /** `push_back` of a finished value. */
    method Push(name: Text, c: Cell)
      requires Open(null) && c.Complete() && c != this && this !in c.below
      modifies this
      ensures Open(null) && Shape() == Grown(old(Shape()), name, c.tree) && fresh(below - old(below) - {c} - c.below)
    {
      Reallocate();
      kids, done, below := kids + [c], done + [c.tree], below + {c} + c.below;
      if !isArray {
        names := names + [name];
      }
    }

    /** `push_back` of a container that is then filled in place. */
    method PushOpen(name: Text, c: Cell)
      requires Open(null) && c != this
      modifies this
      ensures Open(c) && Shape() == Opened(old(Shape()), name) && fresh(below - old(below))
    {
      Reallocate();
      assert Chop(kids + [c]) == kids;
      kids := kids + [c];
      if !isArray {
        names := names + [name];
      }
    }

    /** The copy constructor of Value: everything below is copied too. */
    method Copy() returns (c: Cell)
      requires Complete()
      ensures c.Complete() && c.tree == tree && fresh(c) && fresh(c.below)
      decreases below, 2
    {
      if !isContainer {
        c := new Cell(leaf);
      } else {
        var ks, all := CopyAll(kids, done, below);
        c := new Cell.Of(isArray, names, ks, done, all);
      }
    }

    /** Copies of a vector of finished values, as a reallocation makes them. */
    static method CopyAll(ks: seq<Cell>, ghost trees: seq<Json>, ghost below: set<Cell>)
        returns (cs: seq<Cell>, ghost all: set<Cell>)
      requires Finished(ks, trees, below)
      ensures Finished(cs, trees, all) && fresh(all)
      decreases below, 1
    {
      cs, all := [], {};
      for n := 0 to |ks|
        invariant |cs| == n && fresh(all) && Finished(cs, trees[..n], all)
      {
        var c := ks[n].Copy();
        cs, all := cs + [c], all + {c} + c.below;
        assert trees[..n + 1] == trees[..n] + [trees[n]];
      }
      assert trees[..|ks|] == trees;
    }

    /** `value_ = Array()` or `value_ = Object()`. */
    method Assign(isArray: bool)
      modifies this
      ensures Open(null) && Shape() == Frame(isArray, [], []) && below == {}
    {
      isContainer, this.isArray, names, kids := true, isArray, [], [];
      done, below := [], {};
    }

    /** The open child of an open container is finished: nothing moves. */
    ghost method Adopt(c: Cell)
      requires Open(c) && c.Open(null) && c != this && this !in c.below && c !in below
      modifies c`tree, this`done, this`below
      ensures Open(null) && below == old(below) + {c} + c.below
      ensures var f, g := old(Shape()), old(c.Shape());
              Shape() == Frame(f.isArray, f.names, f.done + [Make(g.isArray, g.names, g.done)])
    {
      assert kids == Chop(kids) + [c];
      c.tree := Make(c.isArray, c.names, c.done);
      assert Finished(c.kids, c.done, c.below) && Finished(Chop(kids), done, below);
      assert c.Complete();
      FinishedMore(Chop(kids), done, below, c);
      done, below := done + [c.tree], below + {c} + c.below;
    }
  }

  // ---- Nests of open containers ----

  /**
   The cells `spine` are open containers, each the last child of the one before;
   the last child of the last one is `tail`. Everything they hold lies in
   `cells`, and no open container hangs below a finished child.
   */
  ghost predicate Chain(spine: seq<Cell>, frames: seq<Frame>, cells: set<Cell>, tail: Cell?)
    reads spine, set i, o | 0 <= i < |spine| && o in spine[i].below :: o
  {
    && |frames| == |spine|
    && (forall i :: 0 <= i < |spine| ==> spine[i] in cells && spine[i].below <= cells)
    && (forall i :: 0 <= i < |spine| ==> spine[i].Open(Next(spine, i, tail)) && spine[i].Shape() == frames[i])
    && (forall i, j :: 0 <= i < |spine| && 0 <= j < |spine| ==> spine[j] !in spine[i].below)
    && (forall i, j :: 0 <= i < j < |spine| ==> spine[i] != spine[j])
  }

  function Next(spine: seq<Cell>, i: nat, tail: Cell?): (c: Cell?) {
    if i + 1 < |spine| then spine[i + 1] else tail
  }

  lemma ChainFrames(spine: seq<Cell>, frames: seq<Frame>, cells: set<Cell>)
    requires Chain(spine, frames, cells, null) && spine != []
    ensures FramesOk(frames) && |frames| == |spine|
  {
    forall i | 0 <= i < |frames|
      ensures FrameOk(frames[i], i < |frames| - 1)
    {
      assert spine[i].Open(Next(spine, i, null));
    }
  }

  /** The innermost container and the others. */
  lemma ChainSplit(spine: seq<Cell>, frames: seq<Frame>, cells: set<Cell>, tail: Cell?)
    requires Chain(spine, frames, cells, tail) && spine != []
    ensures Chain(Chop(spine), Chop(frames), cells, Last(spine))
    ensures Last(spine).Open(tail) && Last(spine).Shape() == Last(frames)
    ensures Last(spine) in cells && Last(spine).below <= cells
    ensures Away(Last(spine), Chop(spine))
  {
    hide Cell.Open;
    var n := |spine| - 1;
    assert Next(spine, n, tail) == tail;
    forall i | 0 <= i < n
      ensures Next(spine, i, tail) == Next(Chop(spine), i, Last(spine))
    {
    }
    assert forall i :: 0 <= i < n ==> Chop(spine)[i] == spine[i] && Chop(frames)[i] == frames[i];
  }

  /** `c` is none of the cells `spine`, and neither holds the other below finished children. */
  ghost predicate Away(c: Cell, spine: seq<Cell>)
    reads c, spine
  {
    && c !in c.below
    && forall i :: 0 <= i < |spine| ==> spine[i] != c && c !in spine[i].below && spine[i] !in c.below
  }

  lemma ChainJoin(spine: seq<Cell>, frames: seq<Frame>, cells: set<Cell>, c: Cell, f: Frame, tail: Cell?,
      all: set<Cell>)
    requires Chain(spine, frames, cells, c) && Away(c, spine)
    requires c.Open(tail) && c.Shape() == f && cells + {c} + c.below <= all
    ensures Chain(spine + [c], frames + [f], all, tail)
  {
    hide Cell.Open, Cell.Shape;
    var n := |spine|;
    assert Next(spine + [c], n, tail) == tail;
    forall i | 0 <= i < n
      ensures Next(spine + [c], i, tail) == Next(spine, i, c)
    {
    }
    assert forall i :: 0 <= i < n ==> (spine + [c])[i] == spine[i] && (frames + [f])[i] == frames[i];
  }

  /** A container opened inside another. */
  lemma ChainOpen(spine: seq<Cell>, frames: seq<Frame>, cells: set<Cell>, p: Cell, f: Frame, c: Cell, g: Frame,
      all: set<Cell>)
    requires Chain(spine, frames, cells, p) && Away(p, spine) && p.Open(c) && p.Shape() == f
    requires c.Open(null) && c.Shape() == g && c.below == {} && Away(c, spine) && c != p && c !in p.below
    requires cells + {p, c} + p.below <= all
    ensures Chain(spine + [p, c], frames + [f, g], all, null)
  {
    hide Chain, Cell.Open, Cell.Shape;
    ChainJoin(spine, frames, cells, p, f, c, all);
    ChainJoin(spine + [p], frames + [f], all, c, g, null, all);
    assert spine + [p] + [c] == spine + [p, c] && frames + [f] + [g] == frames + [f, g];
  }

  lemma ChainOne(spine: seq<Cell>, frames: seq<Frame>, cells: set<Cell>, tail: Cell?)
    requires Chain(spine, frames, cells, tail) && spine != []
    ensures spine[0] == Last(spine) <==> |spine| == 1
  {
    assert 0 < |spine| - 1 ==> spine[0] != spine[|spine| - 1];
  }

  // ---- The actions ----

  class SemanticActions {
    /** `value_`, `current_p` (null before anything is begun), `stack_` and `name_`. */
    const value: Cell
    var current: Cell?
    var stack: seq<Cell>
    var name: Text
    /** The open containers, outermost first, and all the cells of the tree. */
    ghost var spine: seq<Cell>
    ghost var frames: seq<Frame>
    ghost var cells: set<Cell>

    /**
     The pointers saved on the stack are the open containers: this is where a
     pointer to an element that has moved would show.
     */
    ghost predicate Valid()
      reads this, spine, set i, o | 0 <= i < |spine| && o in spine[i].below :: o
    {
      && spine == (if current == null then [] else stack + [current])
      && (current == null ==> stack == [])
      && (current != null ==> spine[0] == value)
      && Chain(spine, frames, cells, null)
    }

    /** The fold state this object stands for. */
    ghost function Abs(): Builder
      requires Valid()
      reads this, spine, set i, o | 0 <= i < |spine| && o in spine[i].below :: o
    {
      if current == null then Builder(None, 0, name)
      else
        ChainFrames(spine, frames, cells);
        Builder(Some(TreeOf(frames)), |stack|, name)
    }

    constructor (value: Cell)
      ensures Valid() && Abs() == EMPTY_BUILDER && this.value == value && fresh(cells)
    {
      this.value, current, stack, name := value, null, [], [];
      spine, frames, cells := [], [], {};
    }

    /** `add_to_current` for a value that is not a container. */
    method AddLeaf(j: Json)
      requires Valid() && current != null && !j.Arr? && !j.Obj?
      modifies this, current
      ensures Valid() && fresh(cells - old(cells))
      ensures Add(old(Abs()), j) == Some(Abs())
    {
      hide Cell.Complete, Cell.Shape, Chain, TreeOf, AddAt, OnPath, NodeAt, Grown, FramesOk;
      ChainFrames(spine, frames, cells);
      ChainSplit(spine, frames, cells, null);
      GrowLast(frames, name, j);
      var c := new Cell(j);
      assert Chop(spine) == stack;
      current.Push(name, c);
      ghost var f := Grown(Last(frames), name, j);
      ChainJoin(stack, Chop(frames), cells, current, f, null, cells + {c} + current.below);
      frames := Chop(frames) + [f];
      cells := cells + {c} + current.below;
    }

    /** `begin_compound`. */
    method BeginCompound(isArray: bool)
      requires Valid()
      modifies this, value, current
      ensures Valid() && fresh(cells - old(cells) - {value})
      ensures Begin(old(Abs()), if isArray then Arr([]) else Obj([])) == Some(Abs())
    {
      hide Cell.Complete, Cell.Shape, TreeOf, AddAt, OnPath, NodeAt, Opened, FramesOk;
      if current == null {
        value.Assign(isArray);
        current := value;
        frames, spine, cells := [Frame(isArray, [], [])], [value], {value};
        TreeOfOne(frames[0]);
        assert TreeOf(frames) == if isArray then Arr([]) else Obj([]);
      } else {
        BeginInner(isArray);
      }
    }

    /** `push_back` of an empty container to the current one. */
    method PushContainer(isArray: bool) returns (c: Cell, ghost fs: seq<Frame>, ghost all: set<Cell>)
      requires Valid() && current != null
      modifies current
      ensures fresh(all - cells) && (stack + [current])[0] == value && Chain(stack + [current, c], fs, all, null)
      ensures FramesOk(frames) && FramesOk(fs) && |frames| == |stack| + 1 && OnPath(TreeOf(frames), |frames| - 1)
      ensures TreeOf(fs) == AddAt(TreeOf(frames), |frames| - 1, name, if isArray then Arr([]) else Obj([]))
    {
      hide Cell.Complete, Cell.Shape, Chain, TreeOf, AddAt, OnPath, NodeAt, Opened, FramesOk, Make;
      ChainFrames(spine, frames, cells);
      ChainSplit(spine, frames, cells, null);
      OpenLast(frames, name, isArray);
      c := new Cell.Empty(isArray);
      assert Chop(spine) == stack && Last(spine) == current;
      hide Chop, Last;
      var p: Cell := current;
      p.PushOpen(name, c);
      var f, g := Opened(Last(frames), name), Frame(isArray, [], []);
      all := cells + {c} + p.below;
      ChainOpen(stack, Chop(frames), cells, p, f, c, g, all);
      fs := Chop(frames) + [f, g];
    }

    method BeginInner(isArray: bool)
      requires Valid() && current != null
      modifies this, current
      ensures Valid() && fresh(cells - old(cells))
      ensures Begin(old(Abs()), if isArray then Arr([]) else Obj([])) == Some(Abs())
    {
      hide Chain, TreeOf, AddAt, OnPath, FramesOk;
      var c;
      ghost var fs, all;
      c, fs, all := PushContainer(isArray);
      Enter(c, fs, all);
    }

    /** The pointer of the open container is saved, and `c` becomes the current one. */
    method Enter(c: Cell, ghost fs: seq<Frame>, ghost all: set<Cell>)
      requires current != null && (stack + [current])[0] == value && Chain(stack + [current, c], fs, all, null)
      modifies this`stack, this`current, this`spine, this`frames, this`cells
      ensures Valid() && cells == all
      ensures FramesOk(fs) && Abs() == Builder(Some(TreeOf(fs)), |old(stack)| + 1, name)
    {
      hide Chain, TreeOf, FramesOk;
      var p: Cell := current;
      ChainFrames(stack + [p, c], fs, all);
      OneByOne(stack, p, c);
      spine, frames, cells := stack + [p, c], fs, all;
      stack := stack + [p];
      current := c;
    }

    /** The container that is left becomes a finished element of the one around it. */
    ghost method AdoptLast() returns (f: Frame)
      requires Valid() && current != null && current != value
      modifies current, stack
      ensures stack != [] && stack[0] == value && |frames| == |stack| + 1 && FramesOk(frames)
      ensures FramesOk(Chop(Chop(frames)) + [f]) && Chain(stack, Chop(Chop(frames)) + [f], cells, null)
      ensures TreeOf(Chop(Chop(frames)) + [f]) == TreeOf(frames)
    {
      hide Cell.Complete, Cell.Shape, Chain, TreeOf, AddAt, OnPath, NodeAt, Opened, FramesOk, Make;
      ChainFrames(spine, frames, cells);
      ChainSplit(spine, frames, cells, null);
      ChainOne(spine, frames, cells, null);
      assert Chop(spine) == stack;
      FoldLast(frames);
      assert frames[..|frames| - 2] == Chop(Chop(frames)) && frames[|frames| - 2] == Last(Chop(frames));
      var p, q := Last(Chop(frames)), Last(stack);
      ChainSplit(stack, Chop(frames), cells, current);
      var g := Last(frames);
      f := Frame(p.isArray, p.names, p.done + [Make(g.isArray, g.names, g.done)]);
      q.Adopt(current);
      ChainJoin(Chop(stack), Chop(Chop(frames)), cells, q, f, null, cells);
      assert Chop(stack) + [q] == stack;
    }

    /** `end_compound`. */
    method EndCompound()
      requires Valid() && current != null
      modifies this, current, stack
      ensures Valid() && fresh(cells - old(cells))
      ensures End(old(Abs())) == Some(Abs())
    {
      hide Chain, TreeOf;
      ChainOne(spine, frames, cells, null);
      if current != value {
        EndInner();
      }
    }

    method EndInner()
      requires Valid() && current != null && current != value
      modifies this, current, stack
      ensures Valid() && fresh(cells - old(cells))
      ensures End(old(Abs())) == Some(Abs())
    {
      hide Chain, TreeOf;
      ghost var f := AdoptLast();
      assert Chop(stack) + [Last(stack)] == stack;
      current := Last(stack);
      stack := Chop(stack);
      spine, frames := stack + [current], Chop(Chop(frames)) + [f];
    }

    /** What the callback can modify. */
    lemma ChainCells()
      requires Valid() && current != null
      ensures current in cells && forall i :: 0 <= i < |stack| ==> stack[i] in cells
    {
      assert forall i :: 0 <= i < |stack| ==> stack[i] == spine[i];
      assert current == spine[|stack|];
    }

    /** `json_calback`. A key goes to `name_`, everything else into the tree. */
    method Callback(e: Event)
      requires Valid() && Apply(Abs(), e).Some?
      modifies this, value, cells
      ensures Valid() && fresh(cells - old(cells) - {value})
      ensures Apply(old(Abs()), e) == Some(Abs()) && current != null
    {
      if current != null {
        ChainCells();
      }
      hide Chain, TreeOf, OnPath, NodeAt, AddAt;
      match e {
        case ArrayBegin => BeginCompound(true);
        case ObjectBegin => BeginCompound(false);
        case ArrayEnd => EndCompound();
        case ObjectEnd => EndCompound();
        case KeyEvent(k) => name := k;
        case IntegerEvent(v) => AddLeaf(Int(Wrap32(v)));
        case FloatEvent(t) => AddLeaf(Real(t));
        case NullEvent => AddLeaf(Null);
        case TrueEvent => AddLeaf(Bool(true));
        case FalseEvent => AddLeaf(Bool(false));
        case StringEvent(s) => AddLeaf(Str(s));
      }
    }

    /** The callback calls of one character, in order. */
    method Feed(es: seq<Event>)
      requires Valid() && Build(Abs(), es).Some?
      modifies this, value, cells
      ensures Valid() && fresh(cells - old(cells) - {value})
      ensures Build(old(Abs()), es) == Some(Abs())
      ensures current == null ==> old(current) == null && unchanged(value)
    {
      for n := 0 to |es|
        invariant Valid() && fresh(cells - old(cells) - {value})
        invariant Build(Abs(), es[n..]) == Build(old(Abs()), es)
        invariant current == null ==> old(current) == null && unchanged(value)
      {
        assert es[n..][0] == es[n] && es[n..][1..] == es[n + 1..];
        Callback(es[n]);
      }
    }

    /** Once the outermost container is the current one again, `value_` is the tree. */
    lemma AtRoot()
      requires Valid() && Abs().root.Some? && Abs().level == 0
      ensures value.Holds(Abs().root.value) && value.below <= cells && value !in value.below
    {
      assert spine == [value];
      assert spine[0].Open(Next(spine, 0, null));
    }
  }
}

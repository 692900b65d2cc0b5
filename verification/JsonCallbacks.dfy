/**
 Parser and tree builder together: on every text, accepted or not, no callback
 call finds the builder without a current node, and a key only arrives while an
 object is being filled.
 */
module JsonCallbacks {
  import opened Basics
  import opened JsonTypes
  import opened JsonMachine
  import opened JsonInvariant
  import opened JsonBuild
  import JsonTheorems

  /** The open containers of the tree have the kinds that the mode stack says. */
  predicate Matches(j: Json, ms: seq<Mode>)
    decreases |ms|
  {
    && ms != []
    && (if ms[0] == Array then j.Arr? else j.Obj?)
    && (|ms| > 1 ==> HasChild(j) && Matches(LastChild(j), ms[1..]))
  }

  /** The builder follows the parser. */
  predicate Follows(b: Builder, s: Core)
    requires s.modes != []
  {
    if s.state == GO then b.root.None?
    else
      && b.root.Some?
      && if |s.modes| == 1 then b.level == 0 && OnPath(b.root.value, 0)
         else b.level == |s.modes| - 2 && Matches(b.root.value, s.modes[1..])
  }

  lemma {:induction false} MatchesPath(j: Json, ms: seq<Mode>)
    requires Matches(j, ms)
    ensures OnPath(j, |ms| - 1)
    ensures NodeAt(j, |ms| - 1).Arr? <==> Last(ms) == Array
    decreases |ms|
  {
    if |ms| > 1 {
      MatchesPath(LastChild(j), ms[1..]);
    }
  }

  lemma {:induction false} MatchesAdd(j: Json, ms: seq<Mode>, name: Text, c: Json)
    requires Matches(j, ms)
    ensures OnPath(j, |ms| - 1) && Matches(AddAt(j, |ms| - 1, name, c), ms)
    decreases |ms|
  {
    MatchesPath(j, ms);
    if |ms| > 1 {
      MatchesAdd(LastChild(j), ms[1..], name, c);
      Relast(j, AddAt(LastChild(j), |ms| - 2, name, c), c);
    }
  }

  lemma {:induction false} MatchesBegin(j: Json, ms: seq<Mode>, name: Text, c: Json, m: Mode)
    requires Matches(j, ms) && (if m == Array then c.Arr? else c.Obj?)
    ensures OnPath(j, |ms| - 1) && Matches(AddAt(j, |ms| - 1, name, c), ms + [m])
    decreases |ms|
  {
    MatchesPath(j, ms);
    var r := AddAt(j, |ms| - 1, name, c);
    if |ms| > 1 {
      MatchesBegin(LastChild(j), ms[1..], name, c, m);
      Relast(j, AddAt(LastChild(j), |ms| - 2, name, c), c);
      assert (ms + [m])[1..] == ms[1..] + [m];
    } else {
      AppendLast(j, name, c, c);
      assert (ms + [m])[1..] == [m];
      assert Matches(c, [m]);
    }
  }

  lemma {:induction false} MatchesChop(j: Json, ms: seq<Mode>)
    requires Matches(j, ms) && |ms| > 1
    ensures Matches(j, Chop(ms))
    decreases |ms|
  {
    if |ms| > 2 {
      MatchesChop(LastChild(j), ms[1..]);
      assert Chop(ms)[1..] == Chop(ms[1..]);
    }
  }

  /** A key and an object are the same kind of container. */
  lemma {:induction false} MatchesFlip(j: Json, ms: seq<Mode>, m: Mode)
    requires Matches(j, ms) && Last(ms) != Array && m != Array
    ensures Matches(j, Chop(ms) + [m])
    decreases |ms|
  {
    if |ms| > 1 {
      MatchesFlip(LastChild(j), ms[1..], m);
      assert (Chop(ms) + [m])[1..] == Chop(ms[1..]) + [m];
    } else {
      assert Chop(ms) + [m] == [m];
    }
  }

  // ---- One call of the callback ----

  predicate IsScalar(e: Event) {
    e.IntegerEvent? || e.FloatEvent? || e.NullEvent? || e.TrueEvent? || e.FalseEvent? || e.StringEvent?
  }

  lemma ScalarApplies(b: Builder, e: Event, ms: seq<Mode>)
    requires IsScalar(e) && b.root.Some? && Matches(b.root.value, ms) && b.level == |ms| - 1
    ensures var r := Apply(b, e);
            r.Some? && r.value.root.Some? && Matches(r.value.root.value, ms) && r.value.level == b.level
  {
    var c := match e
      case IntegerEvent(v) => Int(Wrap32(v))
      case FloatEvent(t) => Real(t)
      case TrueEvent => Bool(true)
      case FalseEvent => Bool(false)
      case StringEvent(s) => Str(s)
      case _ => Null;
    MatchesPath(b.root.value, ms);
    MatchesAdd(b.root.value, ms, b.name, c);
    hide Matches, OnPath, AddAt;
  }

  /** Reporting a pending value. */
  lemma FlushApplies(b: Builder, p: Pending, buf: Text, ms: seq<Mode>)
    requires b.root.Some? && Matches(b.root.value, ms) && b.level == |ms| - 1
    ensures var r := Build(b, Flush(p, buf));
            r.Some? && r.value.root.Some? && Matches(r.value.root.value, ms) && r.value.level == b.level
  {
    var es := Flush(p, buf);
    if p != Nothing {
      assert |es| == 1 && IsScalar(es[0]) && es == [es[0]];
      ScalarApplies(b, es[0], ms);
      BuildOne(b, es[0]);
    }
  }

  lemma EndApplies(b: Builder, e: Event)
    requires (e == ArrayEnd || e == ObjectEnd) && b.root.Some?
    ensures Build(b, [e]) == Some(b.(level := if b.level == 0 then 0 else b.level - 1))
  {
    hide Build;
    BuildOne(b, e);
  }

  /** The calls that a step adds to the log. */
  predicate Extends(s: Core, o: Outcome, es: seq<Event>) {
    (if o.Go? then o.core.log else o.log) == s.log + es
  }

  // ---- The actions ----

  lemma TailMore<T>(s: seq<T>, x: T)
    requires s != []
    ensures (s + [x])[1..] == s[1..] + [x]
  {
  }

  lemma TailChop<T>(s: seq<T>, x: T)
    requires |s| >= 2
    ensures Chop(s)[1..] == Chop(s[1..]) && (Chop(s) + [x])[1..] == Chop(s[1..]) + [x]
  {
  }

  /** The builder takes the calls, and follows the parser if the character is read. */
  ghost predicate Takes(b: Builder, es: seq<Event>, o: Outcome) {
    Build(b, es).Some? && (o.Go? ==> o.core.modes != [] && Follows(Build(b, es).value, o.core))
  }

  lemma OpenTakes(b: Builder, s: Core, c: int, code: Code)
    requires s.modes != [] && Follows(b, s) && code in {ObjectOpen, ArrayOpen}
    requires s.state == GO ==> |s.modes| == 1
    requires s.state != GO ==> |s.modes| >= 2
    ensures var e := if code == ObjectOpen then ObjectBegin else ArrayBegin;
            Extends(s, Act(s, c, code), [e]) && Takes(b, [e], Act(s, c, code))
  {
    var e := if code == ObjectOpen then ObjectBegin else ArrayBegin;
    OpenFollows(b, s, e, if code == ObjectOpen then Key else Array);
    hide Matches, OnPath, AddAt, Chop, NodeAt, Build;
  }

  /** Entering a container, the first one or one inside another. */
  lemma OpenFollows(b: Builder, s: Core, e: Event, m: Mode)
    requires s.modes != [] && Follows(b, s) && (e, m) in {(ObjectBegin, Key), (ArrayBegin, Array)}
    requires if s.state == GO then |s.modes| == 1 else |s.modes| >= 2
    ensures var r := Build(b, [e]);
            && r.Some? && r.value.root.Some? && r.value.level == |s.modes| - 1
            && Matches(r.value.root.value, (s.modes + [m])[1..])
  {
    BuildOne(b, e);
    if s.state == GO {
      assert (s.modes + [m])[1..] == [m];
    } else {
      var ms := s.modes[1..];
      MatchesPath(b.root.value, ms);
      MatchesBegin(b.root.value, ms, b.name, if m == Key then Obj([]) else Arr([]), m);
      TailMore(s.modes, m);
      hide Matches, OnPath, AddAt, NodeAt, Build;
    }
  }

  lemma CloseTakes(b: Builder, s: Core, c: int, code: Code, e: Event)
    requires s.modes != [] && Follows(b, s) && s.state != GO && s.modes[0] == Done
    requires (code, e) in {(ObjectClose, ObjectEnd), (ArrayClose, ArrayEnd)}
    requires |s.modes| == 1 ==> s.pending == Nothing
    ensures var es := Flush(s.pending, Chop(s.buf)) + [e];
            Extends(s, Act(s, c, code), es) && Takes(b, es, Act(s, c, code))
  {
    var f := Flush(s.pending, Chop(s.buf));
    if |s.modes| == 1 {
      assert f == [] && f + [e] == [e];
      EndApplies(b, e);
    } else {
      CloseFollows(b, s, f, e);
    }
    hide Matches, OnPath, Build, Flush, Chop;
  }

  /** Leaving a container, after a pending value has been added to it. */
  lemma CloseFollows(b: Builder, s: Core, f: seq<Event>, e: Event)
    requires |s.modes| >= 2 && Follows(b, s) && s.state != GO && f == Flush(s.pending, Chop(s.buf))
    requires e == ObjectEnd || e == ArrayEnd
    ensures Build(b, f + [e]).Some? && Follows(Build(b, f + [e]).value, Closed(s, f + [e]))
  {
    var ms := s.modes[1..];
    hide Build, Flush;
    BuildConcat(b, f, [e]);
    FlushApplies(b, s.pending, Chop(s.buf), ms);
    var b1 := Build(b, f).value;
    EndApplies(b1, e);
    if |ms| > 1 {
      MatchesChop(b1.root.value, ms);
      TailChop(s.modes, Key);
    } else {
      MatchesPath(b1.root.value, ms);
    }
    hide Matches, OnPath;
  }

  lemma EmptyCloseTakes(b: Builder, s: Core, c: int)
    requires s.modes != [] && Follows(b, s) && s.state != GO && |s.modes| >= 2
    ensures Extends(s, Act(s, c, EmptyObjectEnd), [ObjectEnd]) && Takes(b, [ObjectEnd], Act(s, c, EmptyObjectEnd))
  {
    var ms := s.modes[1..];
    EndApplies(b, ObjectEnd);
    if |ms| > 1 {
      MatchesChop(b.root.value, ms);
      assert Chop(s.modes)[1..] == Chop(ms);
    } else {
      MatchesPath(b.root.value, ms);
    }
    hide Matches, OnPath, Build;
  }

  lemma StringTakes(b: Builder, s: Core, c: int)
    requires s.modes != [] && Follows(b, s) && s.state != GO && |s.modes| >= 2 && s.pending == StringType
    ensures exists es :: Extends(s, Act(s, c, StringEnd), es) && Takes(b, es, Act(s, c, StringEnd))
  {
    hide Matches, OnPath, Flush;
    var ms := s.modes[1..];
    var es: seq<Event>;
    MatchesPath(b.root.value, ms);
    if TopIs(s, Key) {
      es := [KeyEvent(Chop(s.buf))];
      BuildOne(b, es[0]);
    } else if TopIs(s, Array) || TopIs(s, Object) {
      es := Flush(s.pending, Chop(s.buf));
      FlushApplies(b, s.pending, Chop(s.buf), ms);
    } else {
      es := [];
      assert s.log + [] == s.log;
    }
    assert Extends(s, Act(s, c, StringEnd), es) && Takes(b, es, Act(s, c, StringEnd));
  }

  lemma SeparatorTakes(b: Builder, s: Core, c: int)
    requires s.modes != [] && Follows(b, s) && s.state != GO && (|s.modes| == 1 ==> s.pending == Nothing)
    ensures var es := Flush(s.pending, Chop(s.buf));
            Extends(s, Act(s, c, Separator), es) && (|s.modes| >= 2 ==> Takes(b, es, Act(s, c, Separator)))
    ensures |s.modes| == 1 && s.modes[0] == Done ==> Takes(b, Flush(s.pending, Chop(s.buf)), Act(s, c, Separator))
  {
    if |s.modes| >= 2 {
      SeparatorFollows(b, s, c);
    }
    hide Matches, OnPath, Flush, Build;
  }

  lemma SeparatorFollows(b: Builder, s: Core, c: int)
    requires |s.modes| >= 2 && Follows(b, s) && s.state != GO
    ensures Takes(b, Flush(s.pending, Chop(s.buf)), Act(s, c, Separator))
  {
    var ms := s.modes[1..];
    hide Act, Matches, OnPath, Flush, Build, Chop;
    SeparatorModes(s, c);
    FlushApplies(b, s.pending, Chop(s.buf), ms);
    TailChop(s.modes, Key);
    if Last(s.modes) == Object {
      MatchesFlip(Build(b, Flush(s.pending, Chop(s.buf))).value.root.value, ms, Key);
    }
  }

  lemma SeparatorModes(s: Core, c: int)
    requires |s.modes| >= 2
    ensures var o := Act(s, c, Separator);
            o.Go? ==>
              && o.core.state != GO
              && o.core.modes == if Last(s.modes) == Object then Chop(s.modes) + [Key] else s.modes
  {
    hide Flush, Chop;
  }

  lemma KeyEndIs(s: Core, c: int)
    ensures Act(s, c, KeyEnd)
         == if TopIs(s, Key) then Go(s.(state := VA, modes := Chop(s.modes) + [Object], buf := Chop(s.buf)))
            else Halt(NoError, s.log)
  {
    hide Chop;
  }

  lemma KeyEndTakes(b: Builder, s: Core, c: int)
    requires s.modes != [] && Follows(b, s) && s.state != GO && |s.modes| >= 2
    ensures Extends(s, Act(s, c, KeyEnd), []) && Takes(b, [], Act(s, c, KeyEnd))
  {
    var ms := s.modes[1..];
    assert s.log + [] == s.log;
    if TopIs(s, Key) {
      MatchesFlip(b.root.value, ms, Object);
      assert (Chop(s.modes) + [Object])[1..] == Chop(ms) + [Object];
    }
    KeyEndIs(s, c);
    hide Matches, OnPath, Act, Chop, Last;
  }

  /** Codes that make no call and keep the mode stack. */
  lemma SilentTakes(b: Builder, s: Core, c: int, code: Code)
    requires s.modes != [] && Follows(b, s)
    requires code in {Bad, CommentBegin, Uc, Ex, Mx, Zx, Ix, De, Df, Sb, Nu, Fa, Tr} || code.To?
    requires code.To? ==> (code.state == GO <==> s.state == GO)
    requires !code.To? && !code.Bad? && !code.CommentBegin? ==> s.state != GO
    ensures Extends(s, Act(s, c, code), []) && Takes(b, [], Act(s, c, code))
  {
    assert s.log + [] == s.log;
    hide Matches, OnPath;
  }

  // ---- Whole texts ----

  lemma OpenPlaces(s: Core)
    requires Inv(s) && (s.state in {VA, AR, OB, CO, KE} || StringState(s.state))
    ensures s.modes[0] == Done && |s.modes| >= 2
  {
  }

  lemma ClosePlaces(s: Core)
    requires Inv(s)
    ensures s.modes != [] && s.modes[0] == Done && (s.state == GO ==> |s.modes| == 1)
    ensures s.state in {OK, ZE, IT, FR, FX, E3, AR} && |s.modes| == 1 ==> s.pending == Nothing
  {
  }

  lemma GoRow(k: Class, st: State)
    requires Transition(GO, k) == To(st)
    ensures st == GO
  {
  }

  lemma StepTakes(b: Builder, s: Core, c: int) returns (es: seq<Event>)
    requires Inv(s) && Follows(b, s)
    ensures Extends(s, Step(s, c), es) && Takes(b, es, Step(s, c))
  {
    ClosePlaces(s);
    hide Inv, Follows, Act, Takes, Transition, AddChar, ClassOf, Build;
    es := [];
    assert s.log + [] == s.log;
    if c < 0 || ClassOf(c).None? || AddChar(s, c, ClassOf(c).value).None? {
      assert Takes(b, [], Step(s, c)) by { HaltTakes(b, Step(s, c)); }
      return;
    }
    var k := ClassOf(c).value;
    var s1 := AddChar(s, c, k).value;
    AddCharFeeds(s, c, k);
    FollowsFed(b, s, s1, c, k);
    es := ActTakes(b, s, s1, c, k);
  }

  lemma HaltTakes(b: Builder, o: Outcome)
    requires o.Halt?
    ensures Takes(b, [], o)
  {
  }

  lemma FollowsFed(b: Builder, s: Core, s1: Core, c: int, k: Class)
    requires s.modes != [] && Fed(s, s1, c, k) && Follows(b, s)
    ensures s1.state == s.state && s1.modes == s.modes && s1.pending == s.pending && s1.log == s.log && Follows(b, s1)
  {
  }

  /** Where an action can be taken, and with what pending. */
  predicate Placed(s: Core, code: Code) {
    && s.modes != [] && s.modes[0] == Done && (s.state == GO ==> |s.modes| == 1)
    && (code in {ObjectOpen, ArrayOpen} ==> s.state == GO || |s.modes| >= 2)
    && (code in {ObjectClose, ArrayClose, Separator} ==> s.state != GO && (|s.modes| == 1 ==> s.pending == Nothing))
    && (code in {EmptyObjectEnd, StringEnd, KeyEnd} ==> s.state != GO && |s.modes| >= 2)
    && (code == StringEnd ==> s.pending == StringType)
    && (code.To? ==> (code.state == GO <==> s.state == GO))
    && (code in {Uc, Ex, Mx, Zx, Ix, De, Df, Sb, Nu, Fa, Tr} ==> s.state != GO)
  }

  lemma StepPlaced(s: Core, s1: Core, c: int, k: Class)
    requires Inv(s) && c >= 0 && ClassOf(c) == Some(k) && AddChar(s, c, k) == Some(s1)
    requires s1.state == s.state && s1.modes == s.modes && s1.pending == s.pending
    ensures Placed(s1, Transition(s.state, k))
  {
    var code := Transition(s.state, k);
    AlwaysReady(s, c, k);
    ClosePlaces(s);
    hide Inv, AddChar, ClassOf;
    if code.To? {
      if s.state == GO { GoRow(k, code.state); } else { JsonTheorems.RowLeaves(s.state, k); }
    } else if !code.Bad? && !code.CommentBegin? {
      CloserRows(s.state, k);
      if s.state in {VA, AR, OB, CO, KE} || StringState(s.state) { OpenPlaces(s); }
    }
    hide Transition;
  }

  lemma ActTakes(b: Builder, s: Core, s1: Core, c: int, k: Class) returns (es: seq<Event>)
    requires Inv(s) && s.modes != [] && c >= 0 && ClassOf(c) == Some(k) && AddChar(s, c, k) == Some(s1)
          && Follows(b, s1)
    requires s1.state == s.state && s1.modes == s.modes && s1.pending == s.pending && s1.log == s.log
    ensures Extends(s, Act(s1, c, Transition(s.state, k)), es) && Takes(b, es, Act(s1, c, Transition(s.state, k)))
  {
    hide Inv, Follows, Act, Takes, Transition, AddChar, ClassOf, Build, Flush;
    var code := Transition(s.state, k);
    StepPlaced(s, s1, c, k);
    if code in {ObjectOpen, ArrayOpen} {
      es := [if code == ObjectOpen then ObjectBegin else ArrayBegin];
      OpenTakes(b, s1, c, code);
    } else if code in {ObjectClose, ArrayClose} {
      var e := if code == ObjectClose then ObjectEnd else ArrayEnd;
      es := Flush(s1.pending, Chop(s1.buf)) + [e];
      CloseTakes(b, s1, c, code, e);
    } else if code == EmptyObjectEnd {
      es := [ObjectEnd];
      EmptyCloseTakes(b, s1, c);
    } else if code == StringEnd {
      StringTakes(b, s1, c);
      es :| Extends(s1, Act(s1, c, StringEnd), es) && Takes(b, es, Act(s1, c, StringEnd));
    } else if code == Separator {
      es := Flush(s1.pending, Chop(s1.buf));
      SeparatorTakes(b, s1, c);
    } else if code == KeyEnd {
      es := [];
      KeyEndTakes(b, s1, c);
    } else {
      es := [];
      SilentTakes(b, s1, c, code);
    }
  }

  lemma {:induction false} RunTakes(b: Builder, s: Core, t: Text) returns (es: seq<Event>)
    requires Inv(s) && Follows(b, s)
    ensures Extends(s, Run(s, t), es) && Build(b, es).Some?
    decreases |t|
  {
    hide Inv, Follows, Step, Apply;
    if t == [] {
      es := [];
    } else {
      es := StepTakes(b, s, t[0]);
      if Step(s, t[0]).Go? {
        StepInv(s, t[0]);
        var more := RunTakes(Build(b, es).value, Step(s, t[0]).core, t[1..]);
        BuildConcat(b, es, more);
        es := es + more;
      }
    }
  }

  /**
   Whatever the text, the calls made before it is accepted or refused can all
   be taken by the builder: no null pointer, no failed assertion.
   */
  lemma NeverStuck(depth: int, t: Text)
    requires depth >= 1
    ensures var r := Run(Init(depth), t);
            Build(EMPTY_BUILDER, if r.Go? then r.core.log else r.log).Some?
  {
    InitInv(depth);
    hide Inv, Step;
    var es := RunTakes(EMPTY_BUILDER, Init(depth), t);
    assert [] + es == es;
  }
}

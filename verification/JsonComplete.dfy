/**
 The converse of JsonSound: whatever the parser accepts is generated by the
 grammar. Each lemma takes a piece of a derivation off an accepted text.
 */
module JsonComplete {
  import opened Basics
  import opened JsonTypes
  import opened JsonMachine
  import opened JsonGrammar
  import opened JsonRuns
  import opened JsonSound
  import Utf8

  /** From `s`, the rest `t` of a text is accepted and the whole log is then `es`. */
  ghost predicate Parses(s: Core, t: Text, es: seq<Event>) {
    var r := Run(s, t);
    r.Go? && r.core.state == OK && r.core.modes == [Done] && r.core.log == es
  }

  lemma ParsesStep(s: Core, t: Text, es: seq<Event>)
    requires Parses(s, t, es) && t != []
    ensures Step(s, t[0]).Go? && Parses(Step(s, t[0]).core, t[1..], es)
  {
    hide Step;
  }

  lemma ParsesMore(s: Core, t: Text, es: seq<Event>)
    requires Parses(s, t, es) && (s.state != OK || |s.modes| != 1)
    ensures t != []
  {
    hide Step;
  }

  lemma ParsesAfter(s: Core, a: Text, m: Core, b: Text, es: seq<Event>)
    requires Parses(s, a + b, es) && Leads(s, a, m)
    ensures Parses(m, b, es)
  {
    hide Step;
    RunConcat(s, a, b);
  }

  // ---- White space ----

  lemma {:induction false} SkipWhite(s: Core, t: Text, es: seq<Event>) returns (w: Text, rest: Text)
    requires Parses(s, t, es) && SkipsWhite(s.state) && s == At(s.state, s.modes, s.depth, s.log)
    ensures t == w + rest && AllWhite(w) && Parses(s, rest, es) && (rest == [] || !IsWhite(rest[0]))
    decreases |t|
  {
    hide Parses, Step;
    if t == [] || !IsWhite(t[0]) {
      w, rest := [], t;
    } else {
      ParsesStep(s, t, es);
      WhiteStep(s, t[0]);
      w, rest := SkipWhite(s, t[1..], es);
      w := [t[0]] + w;
    }
  }

  lemma WhiteStep(s: Core, c: int)
    requires IsWhite(c) && SkipsWhite(s.state) && s == At(s.state, s.modes, s.depth, s.log)
    ensures Step(s, c) == Go(s)
  {
  }

  // ---- Reporting a waiting value ----

  lemma {:induction false} SettleParses(s: Core, t: Text, es: seq<Event>)
    requires Settling(s) && |s.modes| >= 2 && Parses(s, t, es)
    requires s.state == OK || (t != [] && (IsWhite(t[0]) || IsDelimiter(t[0])))
    ensures Parses(Settle(s), t, es)
    decreases |t|
  {
    hide Parses, Step, Settling, Settle;
    ParsesMore(s, t, es) by { SettlingShape(s); }
    ParsesStep(s, t, es);
    if IsWhite(t[0]) {
      SettlingWhite(s, t[0]);
      var r := Step(s, t[0]).core;
      SettleParses(r, t[1..], es);
      SettleShape(s);
      WhiteStep(Settle(s), t[0]);
      ParsesCons(Settle(s), t, Settle(s), es);
    } else {
      if !IsDelimiter(t[0]) {
        SettledStep(s, t[0]);
      }
      SettlingDelimiter(s, t[0]);
      ParsesCons(Settle(s), t, Step(s, t[0]).core, es);
    }
  }

  lemma SettlingShape(s: Core)
    requires Settling(s) && |s.modes| >= 2
    ensures s.state != OK || |s.modes| != 1
  {
  }

  lemma SettleShape(s: Core)
    ensures Settle(s) == At(OK, s.modes, s.depth, s.log + Flush(s.pending, s.buf))
  {
  }

  lemma ParsesCons(s: Core, t: Text, r: Core, es: seq<Event>)
    requires t != [] && Step(s, t[0]) == Go(r) && Parses(r, t[1..], es)
    ensures Parses(s, t, es)
  {
    hide Step;
  }

  /** A character that is read has a class, and its table entry is neither an error nor a comment. */
  lemma Allowed(s: Core, c: int)
    requires Step(s, c).Go?
    ensures c >= 0 && ClassOf(c).Some?
    ensures var code := Transition(s.state, ClassOf(c).value); !code.Bad? && !code.CommentBegin?
  {
    hide Transition, ClassOf;
  }

  /** In state OK nothing but white space and delimiters is read. */
  lemma SettledStep(s: Core, c: int)
    requires s.state == OK && Step(s, c).Go?
    ensures IsWhite(c) || IsDelimiter(c)
  {
    Allowed(s, c);
    hide Step;
  }

  // ---- Literals ----

  /** What is still missing of a literal. */
  function Remaining(st: State): Text {
    match st
    case N1 => [117, 108, 108]
    case N2 => [108, 108]
    case N3 => [108]
    case T1 => [114, 117, 101]
    case T2 => [117, 101]
    case T3 => [101]
    case F1 => [97, 108, 115, 101]
    case F2 => [108, 115, 101]
    case F3 => [115, 101]
    case F4 => [101]
    case _ => []
  }

  predicate InLiteral(st: State) { st in {N1, N2, N3, T1, T2, T3, F1, F2, F3, F4} }

  lemma LiteralOnly(s: Core, c: int)
    requires InLiteral(s.state) && Step(s, c).Go?
    ensures c == Remaining(s.state)[0]
  {
    Allowed(s, c);
    hide Step;
  }

  function NextLiteral(st: State): State {
    match st
    case N1 => N2
    case N2 => N3
    case T1 => T2
    case T2 => T3
    case F1 => F2
    case F2 => F3
    case F3 => F4
    case _ => OK
  }

  lemma LiteralNext(s: Core)
    requires InLiteral(s.state) && !s.escaped && !s.pending.Nothing?
    ensures Remaining(s.state) != []
    ensures var c := Remaining(s.state)[0]; var r := NextLiteral(s.state);
            && Step(s, c) == Go(s.(state := r, buf := s.buf + [c]))
            && Remaining(s.state) == [c] + Remaining(r) && (InLiteral(r) || r == OK)
  {
    hide Moves, Step, Transition, ClassOf;
    NullMoves();
    TrueMoves();
    FalseMoves();
    var c := Remaining(s.state)[0];
    assert Moves(s.state, c, NextLiteral(s.state));
    Move(s, c, NextLiteral(s.state));
  }

  lemma {:induction false} TakeLiteral(s: Core, t: Text, es: seq<Event>) returns (rest: Text)
    requires Parses(s, t, es) && !s.escaped && !s.pending.Nothing? && (InLiteral(s.state) || s.state == OK)
    ensures t == Remaining(s.state) + rest
    decreases |t|
  {
    hide Parses, Step, Remaining, NextLiteral;
    if s.state == OK {
      assert Remaining(OK) == [] by { OkRemaining(); }
      rest := t;
    } else {
      ParsesMore(s, t, es);
      ParsesStep(s, t, es);
      LiteralOnly(s, t[0]);
      LiteralNext(s);
      rest := TakeLiteral(Step(s, t[0]).core, t[1..], es);
    }
  }

  lemma OkRemaining()
    ensures Remaining(OK) == []
  {
  }

  /** The states in which a value may start. */
  predicate ValuePlace(st: State, modes: seq<Mode>) {
    (st == VA || st == AR) && InContainer(modes) && |modes| >= 2
  }

  /** The literal a first letter can begin. */
  function LiteralOf(c: int): Value { if c == 110 then NullValue else if c == 116 then TrueValue else FalseValue }

  lemma LiteralRun(st: State, modes: seq<Mode>, depth: int, log: seq<Event>, c: int)
    requires ValuePlace(st, modes) && c in {110, 116, 102}
    ensures Leads(At(st, modes, depth, log), ValueText(LiteralOf(c)),
          Inside(OK, modes, StartPending(c), ValueText(LiteralOf(c)), depth, log))
  {
    hide Leads;
    if c == 110 { NullRun(st, modes, depth, log); }
    else if c == 116 { TrueRun(st, modes, depth, log); }
    else { FalseRun(st, modes, depth, log); }
  }

  /** Once its first letter is read, the rest of a literal has to follow. */
  lemma LiteralParts(c: int)
    requires c in {110, 116, 102}
    ensures ValueText(LiteralOf(c)) == [c] + Remaining(StartState(c))
  {
  }

  lemma LiteralText(st: State, modes: seq<Mode>, depth: int, log: seq<Event>, t: Text, es: seq<Event>)
      returns (rest: Text)
    requires ValuePlace(st, modes) && Parses(At(st, modes, depth, log), t, es)
    requires t != [] && t[0] in {110, 116, 102}
    ensures t == ValueText(LiteralOf(t[0])) + rest
  {
    hide Parses, Step, Act, Leads;
    var first := Inside(StartState(t[0]), modes, StartPending(t[0]), [t[0]], depth, log);
    LiteralParts(t[0]);
    hide Remaining, ValueText, LiteralOf;
    StartStep(st, modes, depth, log, t[0]);
    StartAct(Inside(st, modes, Nothing, [t[0]], depth, log), t[0]);
    ParsesStep(At(st, modes, depth, log), t, es);
    rest := TakeLiteral(first, t[1..], es);
  }

  lemma InvertLiteral(st: State, modes: seq<Mode>, depth: int, log: seq<Event>, t: Text, es: seq<Event>)
      returns (v: Value, rest: Text)
    requires ValuePlace(st, modes) && Parses(At(st, modes, depth, log), t, es)
    requires t != [] && t[0] in {110, 116, 102}
    ensures ValueOk(v) && Depth(v) == 0 && t == ValueText(v) + rest
    ensures Parses(At(OK, modes, depth, log + ValueEvents(v)), rest, es)
  {
    v := LiteralOf(t[0]);
    assert ValueEvents(v) == Flush(StartPending(t[0]), ValueText(v));
    hide Parses, Step, Act, Leads, ValueText;
    rest := LiteralText(st, modes, depth, log, t, es);
    var last := Inside(OK, modes, StartPending(t[0]), ValueText(v), depth, log);
    LiteralRun(st, modes, depth, log, t[0]);
    ParsesAfter(At(st, modes, depth, log), ValueText(v), last, rest, es);
    SettleParses(last, rest, es);
  }

  // ---- Numbers ----

  lemma {:induction false} TakeDigits(t: Text) returns (ds: Text, rest: Text)
    ensures t == ds + rest && AllDigits(ds) && (rest == [] || !IsDigit(rest[0]))
    ensures t != [] && IsDigit(t[0]) ==> ds != [] && ds[0] == t[0]
    decreases |t|
  {
    if t == [] || !IsDigit(t[0]) {
      ds, rest := [], t;
    } else {
      ds, rest := TakeDigits(t[1..]);
      ds := [t[0]] + ds;
    }
  }

  /** After a minus sign, and after the sign of an exponent, only a digit is read. */
  lemma DigitOnly(s: Core, c: int)
    requires (s.state == MI || s.state == E2) && Step(s, c).Go?
    ensures IsDigit(c)
  {
    Allowed(s, c);
    hide Step;
  }

  lemma SignOrDigit(s: Core, c: int)
    requires s.state == E1 && Step(s, c).Go?
    ensures IsDigit(c) || c == 43 || c == 45
  {
    Allowed(s, c);
    hide Step;
  }

  lemma NumberClasses(c: int)
    requires ClassOf(c).Some?
    ensures var k := ClassOf(c).value;
            && ((k.Digit? || k.Zero?) <==> IsDigit(c)) && (k.Point? <==> c == 46)
            && ((k.LowE? || k.UpE?) <==> (c == 101 || c == 69))
            && ((k.Space? || k.White?) <==> IsWhite(c))
            && ((k.Comma? || k.RCurb? || k.RSqrb?) <==> IsDelimiter(c))
  {
  }

  lemma AfterValueFollow(k: Class)
    requires !AfterValue(k).Bad? && !AfterValue(k).CommentBegin?
    ensures k in {Space, White, Comma, RCurb, RSqrb}
  {
  }

  /** What can follow in each number state. */
  lemma NumberFollow(s: Core, c: int)
    requires s.state in {ZE, IT, FR, FX, E3} && Step(s, c).Go?
    ensures || IsWhite(c) || IsDelimiter(c)
            || (s.state != ZE && IsDigit(c))
            || ((s.state == ZE || s.state == IT) && c == 46)
            || (s.state in {IT, FR, FX} && (c == 101 || c == 69))
  {
    Allowed(s, c);
    NumberClasses(c);
    hide Step, ClassOf, AfterValue, IsWhite, IsDelimiter, IsDigit;
    var k := ClassOf(c).value;
    if Transition(s.state, k) == AfterValue(k) {
      AfterValueFollow(k);
    }
  }

  /** The sign and the whole part of a number. */
  lemma InvertWhole(st: State, modes: seq<Mode>, depth: int, log: seq<Event>, t: Text, es: seq<Event>)
      returns (n: Number, rest: Text)
    requires ValuePlace(st, modes) && Parses(At(st, modes, depth, log), t, es)
    requires t != [] && (t[0] == 45 || IsDigit(t[0]))
    ensures NumberOk(n) && n.fraction.None? && n.exponent.None? && t == WholeText(n) + rest
    ensures Parses(Inside(WholeState(n), modes, IntegerType, WholeText(n), depth, log), rest, es)
    ensures rest != [] && (WholeState(n) == IT ==> !IsDigit(rest[0]))
  {
    var s := At(st, modes, depth, log);
    var u := t;
    if t[0] == 45 {
      LiteralStart(st, modes, depth, log, 45);
      hide Parses, Step, Leads;
      var minus := Inside(MI, modes, IntegerType, [45], depth, log);
      u := t[1..];
      assert t == [45] + u;
      ParsesAfter(s, [45], minus, u, es);
      ParsesMore(minus, u, es);
      ParsesStep(minus, u, es);
      DigitOnly(minus, u[0]);
    }
    hide Parses, Step, Leads;
    var ds: Text;
    if u[0] == 48 {
      ds, rest := [48], u[1..];
    } else {
      ds, rest := TakeDigits(u);
    }
    n := Number(t[0] == 45, ds, None, None);
    assert t == WholeText(n) + rest;
    WholeRun(st, modes, depth, log, n);
    var r := Inside(WholeState(n), modes, IntegerType, WholeText(n), depth, log);
    ParsesAfter(s, WholeText(n), r, rest, es);
    ParsesMore(r, rest, es);
  }

  lemma InvertFraction(n: Number, modes: seq<Mode>, depth: int, log: seq<Event>, buf: Text, t: Text, es: seq<Event>)
      returns (f: Number, rest: Text)
    requires NumberOk(n) && n.fraction.None? && n.exponent.None? && |modes| >= 2
    requires Parses(Inside(WholeState(n), modes, IntegerType, buf, depth, log), t, es)
    requires t != [] && (WholeState(n) == IT ==> !IsDigit(t[0]))
    ensures NumberOk(f) && f == n.(fraction := f.fraction) && t == FractionText(f.fraction) + rest
    ensures Parses(Inside(FractionState(f), modes, FractionPending(f.fraction), buf + FractionText(f.fraction),
          depth, log), rest, es)
    ensures rest != [] && (FractionState(f) != ZE ==> !IsDigit(rest[0])) && (f.fraction.None? ==> rest[0] != 46)
  {
    hide Parses, Step, Leads;
    if t[0] != 46 {
      f, rest := n, t;
      assert buf + [] == buf;
    } else {
      var ds;
      ds, rest := TakeDigits(t[1..]);
      f := n.(fraction := Some(ds));
      assert t == FractionText(f.fraction) + rest;
      FractionRun(modes, buf, depth, log, f);
      var r := Inside(FractionState(f), modes, FloatType, buf + FractionText(f.fraction), depth, log);
      ParsesAfter(Inside(WholeState(n), modes, IntegerType, buf, depth, log), FractionText(f.fraction), r, rest, es);
      ParsesMore(r, rest, es);
    }
  }

  /** The letter and the sign of an exponent. */
  lemma InvertSign(s: Core, t: Text, es: seq<Event>) returns (sign: Text, u: Text)
    requires !s.escaped && s.state in {IT, FR, FX} && s.surrogate == 0
    requires s.pending == if s.state == IT then IntegerType else FloatType
    requires Parses(s, t, es) && t != [] && (t[0] == 101 || t[0] == 69)
    ensures sign in {[], [43], [45]} && t == [t[0]] + sign + u
    ensures u != [] && IsDigit(u[0])
  {
    LetterStep(s, t[0]);
    SignMoves();
    hide Parses, Step, Leads, Moves, IsDigit;
    var e1 := Inside(E1, s.modes, FloatType, s.buf + [t[0]], s.depth, s.log);
    ParsesStep(s, t, es);
    u := t[1..];
    ParsesMore(e1, u, es);
    ParsesStep(e1, u, es);
    SignOrDigit(e1, u[0]);
    if IsDigit(u[0]) {
      sign := [];
      SplitHead(t);
    } else {
      sign := [u[0]];
      SplitTwo(t);
      Move(e1, u[0], E2);
      hide Inside;
      var e2 := Step(e1, u[0]).core;
      u := u[1..];
      ParsesMore(e2, u, es);
      ParsesStep(e2, u, es);
      DigitOnly(e2, u[0]);
    }
  }

  lemma SplitHead<T>(t: seq<T>)
    requires t != []
    ensures t == [t[0]] + [] + t[1..]
  {
  }

  lemma SplitTwo<T>(t: seq<T>)
    requires |t| >= 2
    ensures t == [t[0]] + [t[1..][0]] + t[1..][1..]
  {
  }

  lemma InvertExponent(s: Core, t: Text, es: seq<Event>) returns (e: Exponent, rest: Text)
    requires !s.escaped && s.state in {IT, FR, FX} && s.surrogate == 0
    requires s.pending == if s.state == IT then IntegerType else FloatType
    requires Parses(s, t, es) && t != [] && (t[0] == 101 || t[0] == 69)
    ensures ExponentOk(e) && t == ExponentText(e) + rest
    ensures Parses(Inside(E3, s.modes, FloatType, s.buf + ExponentText(e), s.depth, s.log), rest, es)
    ensures rest != [] && !IsDigit(rest[0])
  {
    hide Parses, Step, Leads;
    var sign, u := InvertSign(s, t, es);
    var ds;
    ds, rest := TakeDigits(u);
    e := Exponent(t[0], sign, ds);
    assert t == ExponentText(e) + rest;
    ExponentRun(s, e);
    var r := Inside(E3, s.modes, FloatType, s.buf + ExponentText(e), s.depth, s.log);
    ParsesAfter(s, ExponentText(e), r, rest, es);
    ParsesMore(r, rest, es);
  }

  /** The sign, the whole part and the fraction of a number. */
  lemma InvertDecimal(st: State, modes: seq<Mode>, depth: int, log: seq<Event>, t: Text, es: seq<Event>)
      returns (f: Number, rest: Text)
    requires ValuePlace(st, modes) && Parses(At(st, modes, depth, log), t, es)
    requires t != [] && (t[0] == 45 || IsDigit(t[0]))
    ensures NumberOk(f) && f.exponent.None? && t == NumberText(f) + rest
    ensures Parses(Inside(FractionState(f), modes, NumberPending(f), NumberText(f), depth, log), rest, es)
    ensures rest != [] && (FractionState(f) != ZE ==> !IsDigit(rest[0])) && (f.fraction.None? ==> rest[0] != 46)
  {
    hide Parses, Step, Leads, NumberOk, IsDigit, WholeText, NumberText;
    var n, t1 := InvertWhole(st, modes, depth, log, t, es);
    f, rest := InvertFraction(n, modes, depth, log, WholeText(n), t1, es);
    DecimalText(n, f);
    Assoc(WholeText(n), FractionText(f.fraction), rest);
    hide FractionText, FractionState;
  }

  lemma DecimalText(n: Number, f: Number)
    requires f == n.(fraction := f.fraction) && n.exponent.None?
    ensures NumberText(f) == WholeText(n) + FractionText(f.fraction)
  {
  }

  lemma InvertNumber(st: State, modes: seq<Mode>, depth: int, log: seq<Event>, t: Text, es: seq<Event>)
      returns (v: Value, rest: Text)
    requires ValuePlace(st, modes) && Parses(At(st, modes, depth, log), t, es)
    requires t != [] && (t[0] == 45 || IsDigit(t[0]))
    ensures ValueOk(v) && Depth(v) == 0 && t == ValueText(v) + rest
    ensures Parses(At(OK, modes, depth, log + ValueEvents(v)), rest, es)
  {
    hide Parses, Step, Leads, NumberOk, IsDigit, At, NumberText, ExponentText;
    var f;
    f, rest := InvertDecimal(st, modes, depth, log, t, es);
    if FractionState(f) != ZE && (rest[0] == 101 || rest[0] == 69) {
      var s := Inside(FractionState(f), modes, NumberPending(f), NumberText(f), depth, log);
      DecimalState(f);
      var e, t3 := InvertExponent(s, rest, es);
      GrownNumber(f, e);
      f := f.(exponent := Some(e));
      assert t == NumberText(f) + t3;
      rest := t3;
    }
    NumberSettles(f, modes, depth, log, rest, es);
    v := NumberValue(f);
  }

  lemma DecimalState(f: Number)
    requires NumberOk(f) && f.exponent.None? && FractionState(f) != ZE
    ensures FractionState(f) in {IT, FR, FX}
    ensures NumberPending(f) == if FractionState(f) == IT then IntegerType else FloatType
  {
  }

  lemma GrownNumber(f: Number, e: Exponent)
    requires NumberOk(f) && f.exponent.None? && ExponentOk(e) && FractionState(f) != ZE
    ensures NumberOk(f.(exponent := Some(e)))
    ensures NumberState(f.(exponent := Some(e))) == E3
    ensures NumberPending(f.(exponent := Some(e))) == FloatType
    ensures NumberText(f.(exponent := Some(e))) == NumberText(f) + ExponentText(e)
  {
  }

  lemma NumberSettles(n: Number, modes: seq<Mode>, depth: int, log: seq<Event>, rest: Text, es: seq<Event>)
    requires NumberOk(n) && |modes| >= 2
    requires Parses(Inside(NumberState(n), modes, NumberPending(n), NumberText(n), depth, log), rest, es)
    requires rest != [] && (NumberState(n) != ZE ==> !IsDigit(rest[0]))
    requires n.exponent.None? ==> (n.fraction.None? ==> rest[0] != 46)
    requires n.exponent.None? && NumberState(n) != ZE ==> rest[0] != 101 && rest[0] != 69
    ensures Parses(At(OK, modes, depth, log + [NumberEvent(n)]), rest, es)
  {
    hide Parses, Step;
    var s := Inside(NumberState(n), modes, NumberPending(n), NumberText(n), depth, log);
    ParsesStep(s, rest, es);
    NumberFollow(s, rest[0]);
    SettleParses(s, rest, es);
    NumberFlush(n);
  }

  // ---- Strings ----

  lemma HexOnly(s: Core, c: int)
    requires s.state in {U1, U2, U3, U4} && Step(s, c).Go?
    ensures IsHex(c)
  {
    Allowed(s, c);
    hide Step;
    var k := ClassOf(c).value;
    assert HexClass(k);
    hide Transition;
  }

  function NextHex(st: State): State { if st == U1 then U2 else if st == U2 then U3 else U4 }

  lemma HexDigit(s: Core, t: Text, es: seq<Event>)
    requires s.state in {U1, U2, U3, U4} && !s.escaped && s.pending == StringType && Parses(s, t, es)
    ensures t != [] && IsHex(t[0])
    ensures s.state != U4 ==> Parses(s.(state := NextHex(s.state), buf := s.buf + [t[0]]), t[1..], es)
  {
    hide Parses, Step, Moves;
    ParsesMore(s, t, es);
    ParsesStep(s, t, es);
    HexOnly(s, t[0]);
    if s.state != U4 {
      HexMoves(t[0]);
      Move(s, t[0], NextHex(s.state));
    }
  }

  lemma InvertHex(modes: seq<Mode>, high: int, buf: Text, depth: int, log: seq<Event>, t: Text, es: seq<Event>)
      returns (d: Text, u: Text)
    requires Parses(Hexing(U1, modes, high, buf, depth, log), t, es)
    ensures FourHex(d) && t == d + u
    ensures var r := DecodeUnicode(Hexing(U4, modes, high, buf + d, depth, log)); r.Go? && Parses(r.core, u, es)
  {
    hide Parses, Step, DecodeUnicode;
    var s := Hexing(U1, modes, high, buf, depth, log);
    HexDigit(s, t, es);
    var s2 := s.(state := U2, buf := buf + [t[0]]);
    HexDigit(s2, t[1..], es);
    var s3 := s2.(state := U3, buf := s2.buf + [t[1]]);
    HexDigit(s3, t[2..], es) by { assert t[1..][1..] == t[2..]; }
    var s4 := s3.(state := U4, buf := s3.buf + [t[2]]);
    HexDigit(s4, t[3..], es) by { assert t[2..][1..] == t[3..]; }
    d, u := t[..4], t[4..];
    assert t == d + u;
    FourHexRun(modes, high, buf, depth, log, d);
    ParsesEnds(s, d, DecodeUnicode(Hexing(U4, modes, high, buf + d, depth, log)), u, es);
  }

  lemma ParsesEnds(s: Core, a: Text, r: Outcome, b: Text, es: seq<Event>)
    requires Ends(s, a, r) && Parses(s, a + b, es)
    ensures r.Go? && Parses(r.core, b, es)
  {
    hide Step;
    RunConcat(s, a, b);
  }

  /** Inside a string: what each of the special states reads. */
  lemma EscapeOnly(s: Core, c: int)
    requires s.state == ES && s.escaped && Step(s, c).Go?
    ensures IsEscape(c) || c == 117
  {
  }

  lemma SecondBackslash(s: Core, c: int)
    requires s.state == D1 && Step(s, c).Go?
    ensures c == BACKSLASH
  {
    Allowed(s, c);
    hide Step;
  }

  lemma SecondU(s: Core, c: int)
    requires s.state == D2 && Step(s, c).Go?
    ensures c == 117
  {
    Allowed(s, c);
    hide Step;
  }

  lemma StringCharacter(s: Core, c: int)
    requires s.state == ST && Step(s, c).Go?
    ensures c == QUOTE || c == BACKSLASH || IsRaw(c)
  {
    Allowed(s, c);
    hide Step;
  }

  lemma BackslashStep(modes: seq<Mode>, buf: Text, depth: int, log: seq<Event>)
    ensures var s := Quoted(modes, buf, depth, log);
            Step(s, BACKSLASH) == Go(s.(state := ES, escaped := true, buf := buf + [92]))
  {
  }

  lemma DoubleStep(modes: seq<Mode>, high: int, buf: Text, depth: int, log: seq<Event>)
    ensures var s := Hexing(D1, modes, high, buf, depth, log);
            Step(s, BACKSLASH) == Go(Hexing(D2, modes, high, buf + [92], depth, log))
  {
  }

  lemma InvertItem(modes: seq<Mode>, buf: Text, depth: int, log: seq<Event>, t: Text, es: seq<Event>)
      returns (i: Item, u: Text)
    requires Parses(Quoted(modes, buf, depth, log), t, es) && t != [] && t[0] != QUOTE
    ensures ItemOk(i) && t == ItemText(i) + u && |u| < |t|
    ensures Parses(Quoted(modes, buf + ItemBytes(i), depth, log), u, es)
  {
    hide Parses, Step, DecodeUnicode, Leads;
    var s := Quoted(modes, buf, depth, log);
    ParsesStep(s, t, es);
    StringCharacter(s, t[0]);
    if t[0] != BACKSLASH {
      i, u := Raw(t[0]), t[1..];
    } else {
      BackslashStep(modes, buf, depth, log);
      var e := s.(state := ES, escaped := true, buf := buf + [92]);
      ParsesMore(e, t[1..], es);
      ParsesStep(e, t[1..], es);
      EscapeOnly(e, t[1]);
      if t[1] != 117 {
        i, u := Escape(t[1]), t[2..];
      } else {
        assert t == [92, 117] + t[2..];
        EscapeU(modes, buf, depth, log);
        ParsesAfter(s, [92, 117], Hexing(U1, modes, 0, buf + [92, 117], depth, log), t[2..], es);
        i, u := InvertUnicode(modes, buf, depth, log, t[2..], es);
      }
    }
    assert t == ItemText(i) + u;
    ItemRun(modes, buf, depth, log, i);
    ParsesAfter(s, ItemText(i), Quoted(modes, buf + ItemBytes(i), depth, log), u, es);
  }

  lemma InvertUnicode(modes: seq<Mode>, buf: Text, depth: int, log: seq<Event>, t: Text, es: seq<Event>)
      returns (i: Item, u: Text)
    requires Parses(Hexing(U1, modes, 0, buf + [92, 117], depth, log), t, es)
    ensures ItemOk(i) && [92, 117] + t == ItemText(i) + u
  {
    hide Parses, Step, DecodeUnicode;
    var d;
    d, u := InvertHex(modes, 0, buf + [92, 117], depth, log, t, es);
    DecodeUnit(modes, 0, buf, depth, log, d);
    if Utf8.IsHigh(Unit(d)) {
      var l, w := InvertLow(modes, Unit(d), buf, depth, log, u, es);
      i := Surrogates(d, l);
      assert [92, 117] + t == [92, 117] + d + ([92, 117] + l + w);
      assert [92, 117] + t == ItemText(i) + w;
      u := w;
    } else {
      i := Unicode(d);
      assert [92, 117] + t == ItemText(i) + u;
    }
  }

  lemma InvertLow(modes: seq<Mode>, high: int, buf: Text, depth: int, log: seq<Event>, t: Text, es: seq<Event>)
      returns (l: Text, u: Text)
    requires Utf8.IsHigh(high) && Parses(Hexing(D1, modes, high, buf, depth, log), t, es)
    ensures FourHex(l) && Utf8.IsLow(Unit(l)) && t == [92, 117] + l + u
  {
    hide Parses, Step, DecodeUnicode, Leads;
    var d1 := Hexing(D1, modes, high, buf, depth, log);
    ParsesMore(d1, t, es);
    ParsesStep(d1, t, es);
    SecondBackslash(d1, t[0]);
    DoubleStep(modes, high, buf, depth, log);
    var d2 := Hexing(D2, modes, high, buf + [92], depth, log);
    ParsesMore(d2, t[1..], es);
    ParsesStep(d2, t[1..], es);
    SecondU(d2, t[1]);
    assert t == [92, 117] + t[2..];
    SecondEscape(modes, high, buf, depth, log);
    ParsesAfter(d1, [92, 117], Hexing(U1, modes, high, buf + [92, 117], depth, log), t[2..], es);
    l, u := InvertHex(modes, high, buf + [92, 117], depth, log, t[2..], es);
    DecodeUnit(modes, high, buf, depth, log, l);
  }

  lemma {:induction false} InvertItems(modes: seq<Mode>, buf: Text, depth: int, log: seq<Event>, t: Text,
      es: seq<Event>)
      returns (items: seq<Item>, rest: Text)
    requires Parses(Quoted(modes, buf, depth, log), t, es)
    ensures ItemsOk(items) && t == ItemsText(items) + [QUOTE] + rest
    ensures Parses(Quoted(modes, buf + ItemsBytes(items), depth, log), [QUOTE] + rest, es)
    decreases |t|
  {
    hide Parses, Step, ItemText, ItemBytes, ItemOk;
    ParsesMore(Quoted(modes, buf, depth, log), t, es);
    if t[0] == QUOTE {
      items, rest := [], t[1..];
      assert t == [QUOTE] + rest;
      assert buf + [] == buf;
    } else {
      var i, u := InvertItem(modes, buf, depth, log, t, es);
      var more;
      more, rest := InvertItems(modes, buf + ItemBytes(i), depth, log, u, es);
      items := [i] + more;
      assert items[1..] == more;
      assert buf + ItemBytes(i) + ItemsBytes(more) == buf + ItemsBytes(items);
      assert t == ItemText(i) + (ItemsText(more) + [QUOTE] + rest);
    }
  }

  /** A whole string in a place where a quote opens one. */
  lemma InvertQuoted(st: State, modes: seq<Mode>, depth: int, log: seq<Event>, t: Text, es: seq<Event>)
      returns (items: seq<Item>, rest: Text)
    requires st in {OB, KE, VA, AR} && Parses(At(st, modes, depth, log), t, es) && t != [] && t[0] == QUOTE
    ensures ItemsOk(items) && t == StringText(items) + rest
  {
    OpenQuote(st, modes, depth, log);
    hide Parses, Step, Leads, At, Quoted, ItemsText, ItemsOk;
    assert t == [QUOTE] + t[1..];
    ParsesAfter(At(st, modes, depth, log), [QUOTE], Quoted(modes, [], depth, log), t[1..], es);
    items, rest := InvertItems(modes, [], depth, log, t[1..], es);
    Enclose(t, [QUOTE], ItemsText(items), [QUOTE], rest);
  }

  lemma Enclose(t: Text, a: Text, b: Text, c: Text, rest: Text)
    requires t == a + (b + c + rest)
    ensures t == a + b + c + rest
  {
  }

  lemma OpenQuote(st: State, modes: seq<Mode>, depth: int, log: seq<Event>)
    requires st in {OB, KE, VA, AR}
    ensures Leads(At(st, modes, depth, log), [QUOTE], Quoted(modes, [], depth, log))
  {
    One(At(st, modes, depth, log), QUOTE, Quoted(modes, [], depth, log));
  }

  lemma InvertString(st: State, modes: seq<Mode>, depth: int, log: seq<Event>, t: Text, es: seq<Event>)
      returns (v: Value, rest: Text)
    requires ValuePlace(st, modes) && Parses(At(st, modes, depth, log), t, es) && t != [] && t[0] == QUOTE
    ensures ValueOk(v) && Depth(v) == 0 && t == ValueText(v) + rest
    ensures Parses(At(OK, modes, depth, log + ValueEvents(v)), rest, es)
  {
    hide Parses, Step, Leads, ItemsOk;
    var items;
    items, rest := InvertQuoted(st, modes, depth, log, t, es);
    StringRun(st, modes, depth, log, items);
    ParsesAfter(At(st, modes, depth, log), StringText(items),
        At(OK, modes, depth, log + [StringEvent(ItemsBytes(items))]), rest, es);
    v := StringValue(items);
  }

  lemma InvertKey(st: State, modes: seq<Mode>, depth: int, log: seq<Event>, t: Text, es: seq<Event>)
      returns (items: seq<Item>, rest: Text)
    requires (st == OB || st == KE) && Parses(At(st, modes + [Key], depth, log), t, es) && t != [] && t[0] == QUOTE
    ensures ItemsOk(items) && t == StringText(items) + rest
    ensures Parses(At(CO, modes + [Key], depth, log + [KeyEvent(ItemsBytes(items))]), rest, es)
  {
    hide Parses, Step, Leads, ItemsOk;
    items, rest := InvertQuoted(st, modes + [Key], depth, log, t, es);
    KeyRun(st, modes + [Key], depth, log, items);
    ParsesAfter(At(st, modes + [Key], depth, log), StringText(items),
                At(CO, modes + [Key], depth, log + [KeyEvent(ItemsBytes(items))]), rest, es);
  }

  // ---- Containers ----

  /** The characters that start a value. */
  predicate StartsValue(c: int) { c in {LBRACE, LBRACKET, QUOTE, 110, 116, 102, 45} || IsDigit(c) }

  lemma ValueFirst(s: Core, c: int)
    requires (s.state == VA || s.state == AR) && Step(s, c).Go? && !IsWhite(c) && !(s.state == AR && c == RBRACKET)
    ensures StartsValue(c)
  {
    Allowed(s, c);
    StartColumns(s.state, ClassOf(c).value);
    StartChars(c);
    hide Step, Transition, ClassOf, ValueStart;
  }

  lemma StartColumns(st: State, k: Class)
    requires (st == VA || st == AR) && !Transition(st, k).Bad? && !Transition(st, k).CommentBegin?
    ensures k.Space? || k.White? || (st == AR && k.RSqrb?) || !(ValueStart(k).Bad? || ValueStart(k).CommentBegin?)
  {
    hide TextRow, DigitRow, LetterRow, ValueStart;
  }

  lemma StartChars(c: int)
    requires c >= 0 && ClassOf(c).Some?
    ensures var k := ClassOf(c).value;
            && (k.Space? || k.White? ==> IsWhite(c)) && (k.RSqrb? ==> c == RBRACKET)
            && (!ValueStart(k).Bad? && !ValueStart(k).CommentBegin? ==> StartsValue(c))
  {
  }

  lemma TopFirst(s: Core, c: int)
    requires s.state == GO && Step(s, c).Go? && !IsWhite(c)
    ensures c == LBRACE || c == LBRACKET
  {
    Allowed(s, c);
    hide Step;
  }

  lemma KeyFirst(s: Core, c: int)
    requires (s.state == OB || s.state == KE) && Step(s, c).Go? && !IsWhite(c)
    ensures c == QUOTE || (s.state == OB && c == RBRACE)
  {
    Allowed(s, c);
    hide Step;
  }

  lemma ColonFirst(s: Core, c: int)
    requires s.state == CO && Step(s, c).Go? && !IsWhite(c)
    ensures c == COLON
  {
    Allowed(s, c);
    hide Step;
  }

  /** An opening bracket is only read when the nesting limit allows one more level. */
  lemma OpenLimit(st: State, modes: seq<Mode>, depth: int, log: seq<Event>, c: int)
    requires st in {GO, VA, AR} && (c == LBRACE || c == LBRACKET) && Step(At(st, modes, depth, log), c).Go?
    ensures |modes| != depth + 1
  {
  }

  /** A closing bracket must match the innermost open container. */
  lemma CloserMatches(modes: seq<Mode>, m: Mode, depth: int, log: seq<Event>, c: int)
    requires (m == Array || m == Object) && IsDelimiter(c) && Step(At(OK, modes + [m], depth, log), c).Go?
    ensures c == COMMA || c == (if m == Array then RBRACKET else RBRACE)
  {
    hide DecodeUnicode, Chop, Flush;
  }

  lemma {:induction false} InvertValue(st: State, modes: seq<Mode>, depth: int, log: seq<Event>, t: Text,
      es: seq<Event>)
      returns (v: Value, rest: Text)
    requires ValuePlace(st, modes) && |modes| <= depth + 1 && Parses(At(st, modes, depth, log), t, es)
    requires t != [] ==> !IsWhite(t[0]) && !(st == AR && t[0] == RBRACKET)
    ensures ValueOk(v) && |modes| - 1 + Depth(v) <= depth && t == ValueText(v) + rest && |rest| < |t|
    ensures Parses(At(OK, modes, depth, log + ValueEvents(v)), rest, es)
    decreases |t|, 1
  {
    hide Parses, Step;
    var s := At(st, modes, depth, log);
    ParsesMore(s, t, es);
    ParsesStep(s, t, es);
    ValueFirst(s, t[0]);
    if t[0] == LBRACE || t[0] == LBRACKET {
      v, rest := InvertContainer(st, modes, depth, log, t, es);
    } else if t[0] == QUOTE {
      v, rest := InvertString(st, modes, depth, log, t, es);
    } else if t[0] in {110, 116, 102} {
      v, rest := InvertLiteral(st, modes, depth, log, t, es);
    } else {
      v, rest := InvertNumber(st, modes, depth, log, t, es);
    }
    ScalarText(v);
  }

  lemma ScalarText(v: Value)
    requires ValueOk(v)
    ensures ValueText(v) != []
  {
  }

  lemma {:induction false} InvertContainer(st: State, modes: seq<Mode>, depth: int, log: seq<Event>, t: Text,
      es: seq<Event>)
      returns (v: Value, rest: Text)
    requires st in {GO, VA, AR} && modes != [] && |modes| <= depth + 1 && Parses(At(st, modes, depth, log), t, es)
    requires t != [] && (t[0] == LBRACE || t[0] == LBRACKET)
    ensures ValueOk(v) && IsContainer(v) && |modes| - 1 + Depth(v) <= depth && t == ValueText(v) + rest && |rest| < |t|
    ensures Parses(At(OK, modes, depth, log + ValueEvents(v)), rest, es)
    decreases |t|, 0
  {
    hide Parses, Step, Leads;
    var s := At(st, modes, depth, log);
    ParsesStep(s, t, es);
    OpenLimit(st, modes, depth, log, t[0]);
    if t[0] == LBRACKET {
      OpenArray(st, modes, depth, log);
      v, rest := InvertArray(modes, depth, log + [ArrayBegin], t[1..], es);
    } else {
      OpenObject(st, modes, depth, log);
      v, rest := InvertObject(modes, depth, log + [ObjectBegin], t[1..], es);
    }
    assert t == ValueText(v) + rest;
    ContainerRun(v, st, modes, depth, log);
    ParsesAfter(s, ValueText(v), At(OK, modes, depth, log + ValueEvents(v)), rest, es);
  }

  lemma {:induction false} InvertArray(modes: seq<Mode>, depth: int, log: seq<Event>, t: Text, es: seq<Event>)
      returns (v: Value, rest: Text)
    requires modes != [] && |modes| <= depth && Parses(At(AR, modes + [Array], depth, log), t, es)
    ensures ValueOk(v) && (v.EmptyArray? || v.ArrayValue?) && |modes| - 1 + Depth(v) <= depth
    ensures [LBRACKET] + t == ValueText(v) + rest && |rest| <= |t|
    decreases |t|, 3
  {
    hide Parses, Step, AllWhite, ElementsText, ElementsOk, ElementsDepth;
    var s := At(AR, modes + [Array], depth, log);
    var gap, u := SkipWhite(s, t, es);
    ParsesMore(s, u, es);
    if u[0] == RBRACKET {
      v, rest := EmptyArray(gap), u[1..];
      assert u == [RBRACKET] + rest;
    } else {
      var e, r := InvertElements(AR, gap, modes, depth, log, u, es);
      v, rest := ArrayValue(e), r[1..];
      assert r == [RBRACKET] + rest;
    }
    assert [LBRACKET] + t == ValueText(v) + rest;
  }

  lemma {:induction false} InvertElements(st: State, before: Text, modes: seq<Mode>, depth: int, log: seq<Event>,
      t: Text, es: seq<Event>)
      returns (e: Elements, rest: Text)
    requires (st == VA || st == AR) && modes != [] && |modes| <= depth
          && Parses(At(st, modes + [Array], depth, log), t, es)
    requires AllWhite(before) && (t != [] ==> !IsWhite(t[0]) && !(st == AR && t[0] == RBRACKET))
    ensures ElementsOk(e) && |modes| + ElementsDepth(e) <= depth && before + t == ElementsText(e) + rest
    ensures rest != [] && rest[0] == RBRACKET && |rest| <= |t|
    decreases |t|, 2
  {
    hide Parses, Step, ValueText, ValueOk, ValueEvents, AllWhite;
    var v, t2 := InvertValue(st, modes + [Array], depth, log, t, es);
    var log1 := log + ValueEvents(v);
    var after, c, u := InvertDelimiter(modes, Array, depth, log1, t2, es);
    if c == COMMA {
      CommaInArray(modes, depth, log1);
      var w, t3 := SkipWhite(At(VA, modes + [Array], depth, log1), u, es);
      var r;
      r, rest := InvertElements(VA, w, modes, depth, log1, t3, es);
      e := Elements(before, v, after, Some(r));
      assert before + t == before + ValueText(v) + after + ([COMMA] + ElementsText(r)) + rest;
    } else {
      e, rest := Elements(before, v, after, None), [c] + u;
      assert before + t == before + ValueText(v) + after + rest;
    }
  }

  /** White space and the delimiter after a value. */
  lemma InvertDelimiter(modes: seq<Mode>, m: Mode, depth: int, log: seq<Event>, t: Text, es: seq<Event>)
      returns (after: Text, c: int, u: Text)
    requires (m == Array || m == Object) && modes != [] && Parses(At(OK, modes + [m], depth, log), t, es)
    ensures AllWhite(after) && t == after + [c] + u
    ensures c == COMMA || c == (if m == Array then RBRACKET else RBRACE)
    ensures Step(At(OK, modes + [m], depth, log), c).Go? && Parses(Step(At(OK, modes + [m], depth, log), c).core, u, es)
  {
    hide Parses, Step;
    var s := At(OK, modes + [m], depth, log);
    var rest;
    after, rest := SkipWhite(s, t, es);
    ParsesMore(s, rest, es);
    ParsesStep(s, rest, es);
    SettledStep(s, rest[0]);
    CloserMatches(modes, m, depth, log, rest[0]);
    c, u := rest[0], rest[1..];
  }

  lemma {:induction false} InvertObject(modes: seq<Mode>, depth: int, log: seq<Event>, t: Text, es: seq<Event>)
      returns (v: Value, rest: Text)
    requires modes != [] && |modes| <= depth && Parses(At(OB, modes + [Key], depth, log), t, es)
    ensures ValueOk(v) && (v.EmptyObject? || v.ObjectValue?) && |modes| - 1 + Depth(v) <= depth
    ensures [LBRACE] + t == ValueText(v) + rest && |rest| <= |t|
    decreases |t|, 3
  {
    hide Parses, Step, AllWhite, MembersText, MembersOk, MembersDepth;
    var s := At(OB, modes + [Key], depth, log);
    var gap, u := SkipWhite(s, t, es);
    ParsesMore(s, u, es);
    if u[0] == RBRACE {
      v, rest := EmptyObject(gap), u[1..];
      assert u == [RBRACE] + rest;
    } else {
      var m, r := InvertMembers(OB, gap, modes, depth, log, u, es);
      v, rest := ObjectValue(m), r[1..];
      assert r == [RBRACE] + rest;
    }
    assert [LBRACE] + t == ValueText(v) + rest;
  }

  /** The key of a member and the colon after it. */
  lemma InvertHead(st: State, modes: seq<Mode>, depth: int, log: seq<Event>, t: Text, es: seq<Event>)
      returns (key: seq<Item>, gap: Text, lead: Text, rest: Text)
    requires (st == OB || st == KE) && Parses(At(st, modes + [Key], depth, log), t, es)
    requires t != [] ==> !IsWhite(t[0]) && !(st == OB && t[0] == RBRACE)
    ensures ItemsOk(key) && AllWhite(gap) && AllWhite(lead) && t == StringText(key) + gap + [COLON] + lead + rest
    ensures Parses(At(VA, modes + [Object], depth, log + [KeyEvent(ItemsBytes(key))]), rest, es)
    ensures rest != [] ==> !IsWhite(rest[0])
  {
    hide Parses, Step, AllWhite, StringText, ItemsOk, ItemsBytes;
    var s := At(st, modes + [Key], depth, log);
    ParsesMore(s, t, es);
    ParsesStep(s, t, es);
    KeyFirst(s, t[0]);
    var t1, t2;
    key, t1 := InvertKey(st, modes, depth, log, t, es);
    var log1 := log + [KeyEvent(ItemsBytes(key))];
    var co := At(CO, modes + [Key], depth, log1);
    gap, t2 := SkipWhite(co, t1, es);
    ParsesMore(co, t2, es);
    ParsesStep(co, t2, es);
    ColonFirst(co, t2[0]);
    ColonAfterKey(modes, depth, log1);
    lead, rest := SkipWhite(At(VA, modes + [Object], depth, log1), t2[1..], es);
    assert t2 == [COLON] + lead + rest;
    assert t == StringText(key) + gap + [COLON] + lead + rest;
  }

  lemma {:induction false} InvertMembers(st: State, before: Text, modes: seq<Mode>, depth: int, log: seq<Event>,
      t: Text, es: seq<Event>)
      returns (m: Members, rest: Text)
    requires (st == OB || st == KE) && modes != [] && |modes| <= depth
          && Parses(At(st, modes + [Key], depth, log), t, es)
    requires AllWhite(before) && (t != [] ==> !IsWhite(t[0]) && !(st == OB && t[0] == RBRACE))
    ensures MembersOk(m) && |modes| + MembersDepth(m) <= depth && before + t == MembersText(m) + rest
    ensures rest != [] && rest[0] == RBRACE && |rest| <= |t|
    decreases |t|, 2
  {
    hide Parses, Step, ValueText, ValueOk, ValueEvents, AllWhite, StringText, ItemsOk, ItemsBytes;
    var key, gap, lead, t1 := InvertHead(st, modes, depth, log, t, es);
    var log1 := log + [KeyEvent(ItemsBytes(key))];
    var v, t2 := InvertValue(VA, modes + [Object], depth, log1, t1, es);
    var log2 := log1 + ValueEvents(v);
    var after, c, u := InvertDelimiter(modes, Object, depth, log2, t2, es);
    MemberJoin(before, StringText(key), gap, lead, ValueText(v), after, [c] + u, t, t1, t2);
    if c == COMMA {
      CommaInObject(modes, depth, log2);
      var w, t3 := SkipWhite(At(KE, modes + [Key], depth, log2), u, es);
      var r;
      r, rest := InvertMembers(KE, w, modes, depth, log2, t3, es);
      m := Members(before, key, gap, lead, v, after, Some(r));
      Assoc([COMMA], MembersText(r), rest);
      Assoc(MemberHead(m), [COMMA] + MembersText(r), rest);
    } else {
      m, rest := Members(before, key, gap, lead, v, after, None), [c] + u;
      NoneAfter(MemberHead(m));
    }
  }

  /** The text of a member up to the comma or the bracket. */
  function MemberHead(m: Members): Text {
    m.before + StringText(m.key) + m.gap + [COLON] + m.lead + ValueText(m.value) + m.after
  }

  lemma MemberJoin(before: Text, key: Text, gap: Text, lead: Text, v: Text, after: Text, rest: Text, t: Text,
      t1: Text, t2: Text)
    requires t == key + gap + [COLON] + lead + t1 && t1 == v + t2 && t2 == after + rest
    ensures before + t == before + key + gap + [COLON] + lead + v + after + rest
    ensures |rest| <= |t|
  {
  }

  // ---- Documents ----

  /** A text accepted in state OK has a derivation, and its events are the callback calls. */
  lemma InvertDocument(depth: int, t: Text, es: seq<Event>) returns (d: Document)
    requires depth >= 1 && Parses(Init(depth), t, es)
    ensures DocumentOk(d) && Depth(d.value) <= depth && t == DocumentText(d) && es == ValueEvents(d.value)
  {
    hide Parses, Step;
    var s := Init(depth);
    assert s == At(GO, [Done], depth, []);
    var before, t1 := SkipWhite(s, t, es);
    ParsesMore(s, t1, es);
    ParsesStep(s, t1, es);
    TopFirst(s, t1[0]);
    var v, t2 := InvertContainer(GO, [Done], depth, [], t1, es);
    var r := At(OK, [Done], depth, [] + ValueEvents(v));
    var after, t3 := SkipWhite(r, t2, es);
    if t3 != [] {
      ParsesStep(r, t3, es);
      SettledStep(r, t3[0]);
      NothingOpen(r, t3[0]);
    }
    ParsesNil(r, t3, es);
    d := Document(before, v, after);
    assert [] + ValueEvents(v) == ValueEvents(v);
    assert t == before + ValueText(v) + after;
  }

  lemma NothingOpen(s: Core, c: int)
    requires s.state == OK && s.modes == [Done] && s == At(OK, s.modes, s.depth, s.log) && IsDelimiter(c)
    ensures !Step(s, c).Go?
  {
    DelimiterStep(s, c);
    hide Step;
    NoneToClose(s.(buf := s.buf + [c]), c, DelimiterCode(c));
  }

  lemma NoneToClose(s: Core, c: int, code: Code)
    requires s.modes == [Done] && (code.Separator? || code.ObjectClose? || code.ArrayClose?)
    ensures !Act(s, c, code).Go?
  {
    hide Chop, Flush;
  }

  lemma ParsesNil(s: Core, t: Text, es: seq<Event>)
    requires t == [] && Parses(s, t, es)
    ensures s.log == es
  {
  }
}

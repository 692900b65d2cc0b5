/**
 How the step function consumes the lexical pieces of the grammar. Each lemma
 follows one kind of token from an arbitrary surrounding state.
 */
module JsonRuns {
  import opened Basics
  import opened JsonTypes
  import opened JsonMachine
  import opened JsonGrammar
  import Utf8

  /** Reading `t` in state `s` succeeds and ends in `r`. */
  ghost predicate Leads(s: Core, t: Text, r: Core) { Run(s, t) == Go(r) }

  lemma RunConcat(s: Core, a: Text, b: Text)
    ensures Run(s, a + b) == (if Run(s, a).Go? then Run(Run(s, a).core, b) else Run(s, a))
    decreases |a|
  {
    if a == [] {
      assert a + b == b;
    } else {
      assert (a + b)[0] == a[0] && (a + b)[1..] == a[1..] + b;
      if Step(s, a[0]).Go? {
        RunConcat(Step(s, a[0]).core, a[1..], b);
      }
    }
  }

  lemma Then(s: Core, a: Text, m: Core, b: Text, r: Core)
    requires Leads(s, a, m) && Leads(m, b, r)
    ensures Leads(s, a + b, r)
  {
    RunConcat(s, a, b);
  }

  lemma ThenStep(s: Core, a: Text, m: Core, c: int, r: Core)
    requires Leads(s, a, m) && Step(m, c) == Go(r)
    ensures Leads(s, a + [c], r)
  {
    One(m, c, r);
    Then(s, a, m, [c], r);
  }

  lemma One(s: Core, c: int, r: Core)
    requires Step(s, c) == Go(r)
    ensures Leads(s, [c], r)
  {
    assert [c][1..] == [];
    assert Run(r, []) == Go(r);
  }

  /** Between two tokens: no value pending and an empty buffer. */
  function At(st: State, modes: seq<Mode>, depth: int, log: seq<Event>): Core {
    Core(st, modes, Nothing, false, 0, [], depth, log)
  }

  /** In the middle of a value of kind `p` whose text so far is `buf`. */
  function Inside(st: State, modes: seq<Mode>, p: Pending, buf: Text, depth: int, log: seq<Event>): Core {
    Core(st, modes, p, false, 0, buf, depth, log)
  }

  // ---- Characters that only move to another state and stay in the buffer ----

  ghost predicate Moves(st: State, c: int, r: State) {
    0 <= c < 256 && ClassOf(c).Some? && Transition(st, ClassOf(c).value) == To(r)
  }

  lemma Move(s: Core, c: int, r: State)
    requires !s.escaped && !s.pending.Nothing? && Moves(s.state, c, r)
    ensures Step(s, c) == Go(s.(state := r, buf := s.buf + [c]))
  {
    hide Transition, ClassOf;
  }

  lemma NullMoves()
    ensures Moves(N1, 117, N2) && Moves(N2, 108, N3) && Moves(N3, 108, OK)
  {
    hide Moves, Transition;
    LetterMove(N1, 117, N2);
    LetterMove(N2, 108, N3);
    LetterMove(N3, 108, OK);
  }

  lemma TrueMoves()
    ensures Moves(T1, 114, T2) && Moves(T2, 117, T3) && Moves(T3, 101, OK)
  {
    hide Moves, Transition;
    LetterMove(T1, 114, T2);
    LetterMove(T2, 117, T3);
    LetterMove(T3, 101, OK);
  }

  lemma FalseMoves()
    ensures Moves(F1, 97, F2) && Moves(F2, 108, F3) && Moves(F3, 115, F4) && Moves(F4, 101, OK)
  {
    hide Moves, Transition;
    LetterMove(F1, 97, F2);
    LetterMove(F2, 108, F3);
    LetterMove(F3, 115, F4);
    LetterMove(F4, 101, OK);
  }

  lemma HeadTail(a: Text, b: Text, ds: Text)
    requires ds != []
    ensures b + [ds[0]] + ds[1..] == b + ds && a + b + [ds[0]] + ds[1..] == a + (b + ds)
  {
    assert [ds[0]] + ds[1..] == ds;
  }

  lemma DigitMoves(c: int)
    requires IsDigit(c)
    ensures Moves(MI, c, if c == 48 then ZE else IT) && Moves(IT, c, IT)
    ensures Moves(FX, c, FR) && Moves(FR, c, FR)
    ensures Moves(E1, c, E3) && Moves(E2, c, E3) && Moves(E3, c, E3)
  {
    assert ClassOf(c) == Some(if c == 48 then Zero else Digit);
    var k := ClassOf(c).value;
    hide Moves, Transition, ClassOf, DigitRow;
    DigitColumn(MI, k);
    DigitColumn(IT, k);
    DigitColumn(FX, k);
    DigitColumn(FR, k);
    DigitColumn(E1, k);
    DigitColumn(E2, k);
    DigitColumn(E3, k);
    DigitMove(MI, c, if c == 48 then ZE else IT);
    DigitMove(IT, c, IT);
    DigitMove(FX, c, FR);
    DigitMove(FR, c, FR);
    DigitMove(E1, c, E3);
    DigitMove(E2, c, E3);
    DigitMove(E3, c, E3);
  }

  lemma DigitColumn(st: State, k: Class)
    requires k.Zero? || k.Digit?
    ensures st.MI? ==> DigitRow(st, k) == To(if k.Zero? then ZE else IT)
    ensures st.IT? ==> DigitRow(st, k) == To(IT)
    ensures st.FX? || st.FR? ==> DigitRow(st, k) == To(FR)
    ensures st.E1? || st.E2? || st.E3? ==> DigitRow(st, k) == To(E3)
  {
    hide AfterValue;
  }

  lemma LetterMove(st: State, c: int, r: State)
    requires (st.T1? || st.T2? || st.T3? || st.F1? || st.F2? || st.F3? || st.F4? || st.N1? || st.N2? || st.N3?)
    requires 0 <= c < 256 && ClassOf(c).Some? && LetterRow(st, ClassOf(c).value) == To(r)
    ensures Moves(st, c, r)
  {
    hide PlaceRow, TextRow, DigitRow, LetterRow, ClassOf;
  }

  lemma DigitMove(st: State, c: int, r: State)
    requires (st.MI? || st.IT? || st.FX? || st.FR? || st.E1? || st.E2? || st.E3?)
    requires 0 <= c < 256 && ClassOf(c).Some? && DigitRow(st, ClassOf(c).value) == To(r)
    ensures Moves(st, c, r)
  {
    hide PlaceRow, TextRow, DigitRow, LetterRow, ClassOf;
  }

  lemma SignMoves()
    ensures Moves(E1, 43, E2) && Moves(E1, 45, E2)
  {
    hide Moves, Transition;
    DigitMove(E1, 43, E2);
    DigitMove(E1, 45, E2);
  }

  lemma HexMoves(c: int)
    requires IsHex(c)
    ensures ClassOf(c).Some? && HexClass(ClassOf(c).value)
    ensures Moves(U1, c, U2) && Moves(U2, c, U3) && Moves(U3, c, U4)
    ensures Transition(U4, ClassOf(c).value) == Uc
  {
    hide PlaceRow, DigitRow, LetterRow;
  }

  lemma ThenMove(s: Core, t: Text, m: Core, c: int, r: State)
    requires Leads(s, t, m) && !m.escaped && !m.pending.Nothing? && Moves(m.state, c, r)
    ensures Leads(s, t + [c], m.(state := r, buf := m.buf + [c]))
  {
    hide Moves, Leads;
    Move(m, c, r);
    hide Step;
    ThenStep(s, t, m, c, m.(state := r, buf := m.buf + [c]));
  }

  /** The same, inside a lexeme that is the whole text so far. */
  lemma ThenLetter(s: Core, t: Text, st: State, modes: seq<Mode>, p: Pending, depth: int, log: seq<Event>, c: int,
      r: State)
    requires Leads(s, t, Inside(st, modes, p, t, depth, log)) && !p.Nothing? && Moves(st, c, r)
    ensures Leads(s, t + [c], Inside(r, modes, p, t + [c], depth, log))
  {
    ThenMove(s, t, Inside(st, modes, p, t, depth, log), c, r) by { hide Leads, Moves; }
    hide Leads, Moves;
  }

  // ---- White space ----

  predicate SkipsWhite(st: State) { st in {GO, OK, OB, KE, CO, VA, AR} }

  lemma {:induction false} WhiteRun(st: State, modes: seq<Mode>, depth: int, log: seq<Event>, w: Text)
    requires SkipsWhite(st) && AllWhite(w)
    ensures Leads(At(st, modes, depth, log), w, At(st, modes, depth, log))
    decreases |w|
  {
    if w != [] {
      assert Step(At(st, modes, depth, log), w[0]) == Go(At(st, modes, depth, log));
      WhiteRun(st, modes, depth, log, w[1..]);
    }
  }

  // ---- After a value: a number is only reported when its delimiter arrives ----

  /** A complete value has been read; a number or a literal may still wait in the buffer. */
  predicate Settling(s: Core) {
    && !s.escaped && s.surrogate == 0 && !s.pending.StringType?
    && s.state in {OK, ZE, IT, FR, FX, E3}
    && (s.pending.Nothing? ==> s.buf == [] && s.state == OK)
  }

  /** The state reached once the waiting value has been reported. */
  function Settle(s: Core): Core {
    At(OK, s.modes, s.depth, s.log + Flush(s.pending, s.buf))
  }

  predicate IsDelimiter(c: int) { c == COMMA || c == RBRACE || c == RBRACKET }

  lemma {:induction false} LexemeWhite(t: Text, w: int)
    requires IsWhite(w)
    ensures Lexeme(t + [w]) == Lexeme(t)
    decreases |t|
  {
    if t == [] {
      assert t + [w] == [w];
    } else {
      assert (t + [w])[0] == t[0] && (t + [w])[1..] == t[1..] + [w];
      LexemeWhite(t[1..], w);
    }
  }

  lemma {:induction false} LexemeWhole(t: Text)
    requires forall i :: 0 <= i < |t| ==> !IsWhite(t[i])
    ensures Lexeme(t) == t
    decreases |t|
  {
    if t != [] {
      LexemeWhole(t[1..]);
    }
  }

  lemma SettlingWhite(s: Core, w: int)
    requires Settling(s) && IsWhite(w)
    ensures Step(s, w).Go?
    ensures var r := Step(s, w).core; Settling(r) && r.state == OK && r.modes == s.modes && Settle(r) == Settle(s)
  {
    LexemeWhite(s.buf, w);
    WhiteStep(s, w);
    hide Step, Lexeme;
  }

  lemma WhiteStep(s: Core, w: int)
    requires Settling(s) && IsWhite(w)
    ensures Step(s, w) == Go(s.(state := OK, buf := if s.pending.Nothing? then s.buf else s.buf + [w]))
  {
    WhiteSettles(s.state, w);
    hide Transition, ClassOf;
  }

  lemma WhiteSettles(st: State, w: int)
    requires st in {OK, ZE, IT, FR, FX, E3} && IsWhite(w)
    ensures w >= 0 && ClassOf(w).Some? && (ClassOf(w).value.Space? || ClassOf(w).value.White?)
    ensures Transition(st, ClassOf(w).value) == To(OK)
  {
    hide TextRow, LetterRow;
  }

  lemma {:induction false} SettlingWhites(s: Core, w: Text)
    requires Settling(s) && AllWhite(w)
    ensures Run(s, w).Go?
    ensures var r := Run(s, w).core; Settling(r) && r.modes == s.modes && Settle(r) == Settle(s)
    decreases |w|
  {
    if w != [] {
      SettlingWhite(s, w[0]);
      SettlingWhites(Step(s, w[0]).core, w[1..]);
    }
  }

  /** A delimiter does to a waiting value what it does once the value has been reported. */
  lemma SettlingDelimiter(s: Core, c: int)
    requires Settling(s) && IsDelimiter(c)
    ensures Step(s, c) == Step(Settle(s), c)
  {
    DelimiterStep(s, c);
    DelimiterStep(Settle(s), c);
    NoneAfter(s.log + Flush(s.pending, s.buf));
    assert Flush(Nothing, []) == [];
    hide Step, Act, Chop, Flush;
    SameDelimiter(s.(buf := s.buf + [c]), Settle(s).(buf := [] + [c]), c, DelimiterCode(c));
  }

  /** A delimiter acts alike where what is reported comes to the same. */
  lemma SameDelimiter(s: Core, t: Core, c: int, code: Code)
    requires code.Separator? || code.ObjectClose? || code.ArrayClose?
    requires t.(state := s.state, pending := s.pending, buf := s.buf, log := s.log) == s
    requires s.log + Flush(s.pending, Chop(s.buf)) == t.log + Flush(t.pending, Chop(t.buf))
    ensures Act(s, c, code) == Act(t, c, code)
  {
    hide Chop, Flush;
    var f, g := Flush(s.pending, Chop(s.buf)), Flush(t.pending, Chop(t.buf));
    Assoc(s.log, f, [ObjectEnd]);
    Assoc(t.log, g, [ObjectEnd]);
    Assoc(s.log, f, [ArrayEnd]);
    Assoc(t.log, g, [ArrayEnd]);
  }

  /** The action of a delimiter. */
  function DelimiterCode(c: int): Code {
    if c == COMMA then Separator else if c == RBRACE then ObjectClose else ArrayClose
  }

  lemma DelimiterStep(s: Core, c: int)
    requires Settling(s) && IsDelimiter(c)
    ensures Chop(s.buf + [c]) == s.buf
    ensures Step(s, c) == Act(s.(buf := s.buf + [c]), c, DelimiterCode(c))
  {
    ChopSnoc(s.buf, c);
    hide Act, Chop, Flush;
    var k := ClassOf(c).value;
    assert AfterValue(k) == DelimiterCode(c);
    assert Transition(s.state, k) == AfterValue(k) by { hide TextRow, LetterRow, AfterValue; }
    hide Transition;
  }

  // ---- Literals ----

  lemma NullRun(st: State, modes: seq<Mode>, depth: int, log: seq<Event>)
    requires st == VA || st == AR
    ensures Leads(At(st, modes, depth, log), NULL_TEXT, Inside(OK, modes, NullType, NULL_TEXT, depth, log))
  {
    var s := At(st, modes, depth, log);
    LiteralStart(st, modes, depth, log, 110);
    NullMoves();
    assert [110] + [117] + [108] + [108] == NULL_TEXT;
    hide Leads, Step, Moves, Transition, ClassOf, Inside, At;
    ThenLetter(s, [110], N1, modes, NullType, depth, log, 117, N2);
    ThenLetter(s, [110] + [117], N2, modes, NullType, depth, log, 108, N3);
    ThenLetter(s, [110] + [117] + [108], N3, modes, NullType, depth, log, 108, OK);
  }

  lemma Four<T>(a: T, b: T, c: T, d: T)
    ensures [a] + [b] + [c] + [d] == [a, b, c, d]
  {
  }

  lemma TrueRun(st: State, modes: seq<Mode>, depth: int, log: seq<Event>)
    requires st == VA || st == AR
    ensures Leads(At(st, modes, depth, log), TRUE_TEXT, Inside(OK, modes, TrueType, TRUE_TEXT, depth, log))
  {
    var s := At(st, modes, depth, log);
    LiteralStart(st, modes, depth, log, 116);
    TrueMoves();
    Four(116, 114, 117, 101);
    hide Leads, Step, Moves, Transition, ClassOf, Inside, At;
    ThenLetter(s, [116], T1, modes, TrueType, depth, log, 114, T2);
    ThenLetter(s, [116] + [114], T2, modes, TrueType, depth, log, 117, T3);
    ThenLetter(s, [116] + [114] + [117], T3, modes, TrueType, depth, log, 101, OK);
  }

  lemma FalseRun(st: State, modes: seq<Mode>, depth: int, log: seq<Event>)
    requires st == VA || st == AR
    ensures Leads(At(st, modes, depth, log), FALSE_TEXT, Inside(OK, modes, FalseType, FALSE_TEXT, depth, log))
  {
    var s := At(st, modes, depth, log);
    LiteralStart(st, modes, depth, log, 102);
    FalseMoves();
    Four(102, 97, 108, 115);
    assert [102, 97, 108, 115] + [101] == FALSE_TEXT;
    hide Leads, Step, Moves, Transition, ClassOf, Inside, At;
    ThenLetter(s, [102], F1, modes, FalseType, depth, log, 97, F2);
    ThenLetter(s, [102] + [97], F2, modes, FalseType, depth, log, 108, F3);
    ThenLetter(s, [102] + [97] + [108], F3, modes, FalseType, depth, log, 115, F4);
    ThenLetter(s, [102] + [97] + [108] + [115], F4, modes, FalseType, depth, log, 101, OK);
  }

  /** The states entered by the first character of a literal or a number. */
  function StartState(c: int): State {
    if c == 110 then N1 else if c == 116 then T1 else if c == 102 then F1
    else if c == 45 then MI else if c == 48 then ZE else IT
  }

  function StartPending(c: int): Pending {
    if c == 110 then NullType else if c == 116 then TrueType else if c == 102 then FalseType else IntegerType
  }

  lemma LiteralStart(st: State, modes: seq<Mode>, depth: int, log: seq<Event>, c: int)
    requires (st == VA || st == AR) && (c in {110, 116, 102, 45} || IsDigit(c))
    ensures Leads(At(st, modes, depth, log), [c], Inside(StartState(c), modes, StartPending(c), [c], depth, log))
  {
    StartStep(st, modes, depth, log, c);
    StartAct(Inside(st, modes, Nothing, [c], depth, log), c);
    hide Step, Act;
    One(At(st, modes, depth, log), c, Inside(StartState(c), modes, StartPending(c), [c], depth, log));
  }

  lemma StartAct(s: Core, c: int)
    requires c in {110, 116, 102, 45} || IsDigit(c)
    ensures Act(s, c, ValueStart(ClassOf(c).value)) == Go(s.(state := StartState(c), pending := StartPending(c)))
  {
  }

  lemma StartStep(st: State, modes: seq<Mode>, depth: int, log: seq<Event>, c: int)
    requires (st == VA || st == AR) && (c in {110, 116, 102, 45} || IsDigit(c))
    ensures Step(At(st, modes, depth, log), c)
          == Act(Inside(st, modes, Nothing, [c], depth, log), c, ValueStart(ClassOf(c).value))
  {
    hide Act, ValueStart;
    var k := ClassOf(c).value;
    assert !k.Space? && !k.White? && !k.RSqrb?;
    assert [] + [c] == [c];
    assert AddChar(At(st, modes, depth, log), c, k) == Some(Inside(st, modes, Nothing, [c], depth, log));
  }

  // ---- Numbers ----

  /** Digits keep the number states IT, FR and E3. */
  lemma {:induction false} DigitsRun(st: State, modes: seq<Mode>, p: Pending, buf: Text, depth: int, log: seq<Event>,
      ds: Text)
    requires st == IT || st == FR || st == E3
    requires !p.Nothing? && AllDigits(ds)
    ensures Leads(Inside(st, modes, p, buf, depth, log), ds, Inside(st, modes, p, buf + ds, depth, log))
    decreases |ds|
  {
    if ds == [] {
      assert buf + ds == buf;
    } else {
      DigitStep(Inside(st, modes, p, buf, depth, log), ds[0]);
      hide Step, Leads;
      assert Leads(Inside(st, modes, p, buf, depth, log), [ds[0]], Inside(st, modes, p, buf + [ds[0]], depth, log)) by {
        One(Inside(st, modes, p, buf, depth, log), ds[0], Inside(st, modes, p, buf + [ds[0]], depth, log));
      }
      DigitsRun(st, modes, p, buf + [ds[0]], depth, log, ds[1..]);
      assert buf + [ds[0]] + ds[1..] == buf + ds && [ds[0]] + ds[1..] == ds;
      Then(Inside(st, modes, p, buf, depth, log), [ds[0]], Inside(st, modes, p, buf + [ds[0]], depth, log), ds[1..],
           Inside(st, modes, p, buf + ds, depth, log));
    }
  }

  lemma DigitStep(s: Core, d: int)
    requires s.state == IT || s.state == FR || s.state == E3
    requires !s.pending.Nothing? && !s.escaped && IsDigit(d)
    ensures Step(s, d) == Go(s.(buf := s.buf + [d]))
  {
    DigitMoves(d);
    Move(s, d, s.state);
    hide Step, Transition;
  }

  /** The state in which the optional minus sign and the whole part leave the parser. */
  function WholeState(n: Number): State
    requires NumberOk(n)
  {
    if n.whole[0] == 48 then ZE else IT
  }

  /** The sign and the first digit. */
  lemma HeadRun(st: State, modes: seq<Mode>, depth: int, log: seq<Event>, n: Number)
    requires (st == VA || st == AR) && NumberOk(n)
    ensures Leads(At(st, modes, depth, log), Head(n), Inside(WholeState(n), modes, IntegerType, Head(n), depth, log))
  {
    DigitMoves(n.whole[0]);
    hide Leads, Step, Moves;
    if n.negative {
      LiteralStart(st, modes, depth, log, 45);
      ThenMove(At(st, modes, depth, log), [45], Inside(MI, modes, IntegerType, [45], depth, log), n.whole[0],
          WholeState(n));
    } else {
      assert Head(n) == [n.whole[0]];
      LiteralStart(st, modes, depth, log, n.whole[0]);
    }
  }

  function Head(n: Number): Text
    requires NumberOk(n)
  {
    (if n.negative then [45] else []) + [n.whole[0]]
  }

  lemma WholeRun(st: State, modes: seq<Mode>, depth: int, log: seq<Event>, n: Number)
    requires (st == VA || st == AR) && NumberOk(n)
    ensures Leads(At(st, modes, depth, log), WholeText(n),
                  Inside(WholeState(n), modes, IntegerType, WholeText(n), depth, log))
  {
    var s, head := At(st, modes, depth, log), Head(n);
    var first := Inside(WholeState(n), modes, IntegerType, head, depth, log);
    HeadRun(st, modes, depth, log, n);
    assert WholeText(n) == head + n.whole[1..];
    hide Leads, Step, Moves, At, Inside, Head, WholeText;
    if n.whole[0] != 48 {
      DigitsRun(IT, modes, IntegerType, head, depth, log, n.whole[1..]);
      Then(s, head, first, n.whole[1..], Inside(IT, modes, IntegerType, WholeText(n), depth, log));
    } else {
      assert head + n.whole[1..] == head;
    }
  }

  function FractionText(f: Option<Text>): Text { if f.Some? then [46] + f.value else [] }

  function FractionState(n: Number): State
    requires NumberOk(n)
  {
    if n.fraction.None? then WholeState(n) else if n.fraction.value == [] then FX else FR
  }

  function FractionPending(f: Option<Text>): Pending { if f.Some? then FloatType else IntegerType }

  lemma Nil(s: Core)
    ensures Leads(s, [], s)
  {
  }

  lemma Dot(modes: seq<Mode>, buf: Text, depth: int, log: seq<Event>, n: Number)
    requires NumberOk(n)
    ensures Leads(Inside(WholeState(n), modes, IntegerType, buf, depth, log), [46],
                  Inside(FX, modes, FloatType, buf + [46], depth, log))
  {
    One(Inside(WholeState(n), modes, IntegerType, buf, depth, log), 46,
        Inside(FX, modes, FloatType, buf + [46], depth, log));
  }

  lemma FractionRun(modes: seq<Mode>, buf: Text, depth: int, log: seq<Event>, n: Number)
    requires NumberOk(n)
    ensures Leads(Inside(WholeState(n), modes, IntegerType, buf, depth, log), FractionText(n.fraction),
                  Inside(FractionState(n), modes, FractionPending(n.fraction), buf + FractionText(n.fraction), depth,
                      log))
  {
    var s := Inside(WholeState(n), modes, IntegerType, buf, depth, log);
    hide Leads, Step, Moves;
    if n.fraction.None? {
      assert buf + [] == buf;
      Nil(s);
    } else {
      var ds := n.fraction.value;
      var dot := Inside(FX, modes, FloatType, buf + [46], depth, log);
      Dot(modes, buf, depth, log, n);
      if ds == [] {
        assert [46] + ds == [46];
      } else {
        DigitMoves(ds[0]);
        HeadTail(buf, [46], ds);
        ThenMove(s, [46], dot, ds[0], FR);
        DigitsRun(FR, modes, FloatType, buf + [46] + [ds[0]], depth, log, ds[1..]);
        hide Inside;
        Then(s, [46] + [ds[0]], Inside(FR, modes, FloatType, buf + [46] + [ds[0]], depth, log), ds[1..],
             Inside(FR, modes, FloatType, buf + ([46] + ds), depth, log));
      }
    }
  }

  lemma LetterStep(s: Core, c: int)
    requires !s.escaped && (s.state == IT || s.state == FR || s.state == FX) && (c == 101 || c == 69)
    requires s.pending == if s.state == IT then IntegerType else FloatType
    ensures Step(s, c) == Go(s.(state := E1, pending := FloatType, buf := s.buf + [c]))
  {
    var k := ClassOf(c).value;
    assert k == if c == 101 then LowE else UpE;
    LetterCode(s.state, k);
    hide Transition, ClassOf;
  }

  lemma LetterCode(st: State, k: Class)
    requires (st == IT || st == FR || st == FX) && (k == LowE || k == UpE)
    ensures Transition(st, k) == if st == IT then De else To(E1)
  {
    hide PlaceRow, TextRow, LetterRow;
  }

  lemma ExponentRun(s: Core, e: Exponent)
    requires ExponentOk(e) && !s.escaped && (s.state == IT || s.state == FR || s.state == FX)
    requires s.surrogate == 0 && s.pending == if s.state == IT then IntegerType else FloatType
    ensures Leads(s, ExponentText(e), Inside(E3, s.modes, FloatType, s.buf + ExponentText(e), s.depth, s.log))
  {
    LetterStep(s, e.letter);
    DigitMoves(e.digits[0]);
    SignMoves();
    hide Leads, Step, Moves;
    var head := [e.letter] + e.sign;
    One(s, e.letter, Inside(E1, s.modes, FloatType, s.buf + [e.letter], s.depth, s.log));
    if e.sign == [] {
      assert head == [e.letter];
    } else {
      assert head == [e.letter] + [e.sign[0]];
      assert s.buf + [e.letter] + [e.sign[0]] == s.buf + head;
      ThenMove(s, [e.letter], Inside(E1, s.modes, FloatType, s.buf + [e.letter], s.depth, s.log), e.sign[0], E2);
    }
    ExponentDigits(s, head, if e.sign == [] then E1 else E2, e.digits);
    assert head + e.digits == ExponentText(e);
  }

  lemma ExponentDigits(s: Core, head: Text, st: State, ds: Text)
    requires (st == E1 || st == E2) && AllDigits(ds) && ds != []
    requires Leads(s, head, Inside(st, s.modes, FloatType, s.buf + head, s.depth, s.log))
    ensures Leads(s, head + ds, Inside(E3, s.modes, FloatType, s.buf + (head + ds), s.depth, s.log))
  {
    DigitMoves(ds[0]);
    HeadTail(s.buf, head, ds);
    hide Leads, Step, Moves;
    ThenMove(s, head, Inside(st, s.modes, FloatType, s.buf + head, s.depth, s.log), ds[0], E3);
    DigitsRun(E3, s.modes, FloatType, s.buf + head + [ds[0]], s.depth, s.log, ds[1..]);
    hide Inside;
    Then(s, head + [ds[0]], Inside(E3, s.modes, FloatType, s.buf + head + [ds[0]], s.depth, s.log), ds[1..],
         Inside(E3, s.modes, FloatType, s.buf + (head + ds), s.depth, s.log));
  }

  function NumberState(n: Number): State
    requires NumberOk(n)
  {
    if n.exponent.Some? then E3 else FractionState(n)
  }

  function NumberPending(n: Number): Pending { if IsReal(n) then FloatType else IntegerType }

  lemma NumberRun(st: State, modes: seq<Mode>, depth: int, log: seq<Event>, n: Number)
    requires (st == VA || st == AR) && NumberOk(n)
    ensures Leads(At(st, modes, depth, log), NumberText(n),
                  Inside(NumberState(n), modes, NumberPending(n), NumberText(n), depth, log))
  {
    hide Leads;
    hide Step;
    var s := At(st, modes, depth, log);
    var w := WholeText(n);
    var f := FractionText(n.fraction);
    WholeRun(st, modes, depth, log, n);
    FractionRun(modes, w, depth, log, n);
    var mid := Inside(FractionState(n), modes, FractionPending(n.fraction), w + f, depth, log);
    Then(s, w, Inside(WholeState(n), modes, IntegerType, w, depth, log), f, mid);
    if n.exponent.None? {
      assert NumberText(n) == w + f;
    } else {
      ExponentRun(mid, n.exponent.value);
      Then(s, w + f, mid, ExponentText(n.exponent.value), Inside(E3, modes, FloatType, NumberText(n), depth, log));
    }
  }

  /** No character of a number is white space, so its lexeme is its whole text. */
  lemma NumberFlush(n: Number)
    requires NumberOk(n)
    ensures Flush(NumberPending(n), NumberText(n)) == [NumberEvent(n)]
  {
    NoWhite(n);
    hide NumberText, Lexeme;
    LexemeWhole(NumberText(n));
  }

  lemma NoWhite(n: Number)
    requires NumberOk(n)
    ensures forall i :: 0 <= i < |NumberText(n)| ==> !IsWhite(NumberText(n)[i])
  {
    var w := WholeText(n);
    var f := FractionText(n.fraction);
    var e: Text := if n.exponent.Some? then ExponentText(n.exponent.value) else [];
    assert forall c :: c in w ==> !IsWhite(c);
    assert forall c :: c in f ==> !IsWhite(c);
    assert forall c :: c in e ==> !IsWhite(c);
    assert NumberText(n) == w + f + e;
    hide NumberText, WholeText, FractionText, ExponentText, IsWhite;
    assert forall i :: 0 <= i < |w + f + e| ==> (w + f + e)[i] in w || (w + f + e)[i] in f || (w + f + e)[i] in e;
  }

  // ---- Strings ----

  /** Inside a string: the decoded text so far is the buffer. */
  function Quoted(modes: seq<Mode>, buf: Text, depth: int, log: seq<Event>): Core {
    Inside(ST, modes, StringType, buf, depth, log)
  }

  /** While the digits of an escape are read: `high` is a surrogate waiting for its partner, or 0. */
  function Hexing(st: State, modes: seq<Mode>, high: int, buf: Text, depth: int, log: seq<Event>): Core {
    Core(st, modes, StringType, false, high, buf, depth, log)
  }

  /** Reading `t` in state `s` ends like `r`, which may be a refusal. */
  ghost predicate Ends(s: Core, t: Text, r: Outcome) { Run(s, t) == r }

  lemma ThenEnds(s: Core, t: Text, m: Core, c: int, r: Outcome)
    requires Leads(s, t, m) && Step(m, c) == r
    ensures Ends(s, t + [c], r)
  {
    RunConcat(s, t, [c]);
    assert [c][1..] == [];
  }

  lemma LastHex(s: Core, c: int)
    requires s.state == U4 && !s.escaped && s.pending == StringType && IsHex(c)
    ensures Step(s, c) == DecodeUnicode(s.(buf := s.buf + [c]))
  {
    hide DecodeUnicode, ClassOf, Transition;
    HexMoves(c);
    var k := ClassOf(c).value;
    assert AddChar(s, c, k) == Some(s.(buf := s.buf + [c]));
  }

  lemma HexMove(s: Core, t: Text, m: Core, c: int)
    requires Leads(s, t, m) && !m.escaped && m.pending == StringType && IsHex(c) && m.state in {U1, U2, U3}
    ensures Leads(s, t + [c],
                  m.(state := if m.state == U1 then U2 else if m.state == U2 then U3 else U4, buf := m.buf + [c]))
  {
    hide Leads, Step, Moves;
    HexMoves(c);
    ThenMove(s, t, m, c, if m.state == U1 then U2 else if m.state == U2 then U3 else U4);
  }

  lemma FourHexRun(modes: seq<Mode>, high: int, buf: Text, depth: int, log: seq<Event>, d: Text)
    requires FourHex(d)
    ensures Ends(Hexing(U1, modes, high, buf, depth, log), d,
                 DecodeUnicode(Hexing(U4, modes, high, buf + d, depth, log)))
  {
    hide Leads, Step, DecodeUnicode, Ends;
    var s := Hexing(U1, modes, high, buf, depth, log);
    Nil(s);
    HexMove(s, [], s, d[0]);
    HexMove(s, [] + [d[0]], Hexing(U2, modes, high, buf + [d[0]], depth, log), d[1]);
    HexMove(s, [] + [d[0]] + [d[1]], Hexing(U3, modes, high, buf + [d[0]] + [d[1]], depth, log), d[2]);
    var m := Hexing(U4, modes, high, buf + [d[0]] + [d[1]] + [d[2]], depth, log);
    LastHex(m, d[3]);
    ThenEnds(s, [] + [d[0]] + [d[1]] + [d[2]], m, d[3], Step(m, d[3]));
    assert [] + [d[0]] + [d[1]] + [d[2]] + [d[3]] == d;
    assert buf + [d[0]] + [d[1]] + [d[2]] + [d[3]] == buf + d;
  }

  lemma FourHexLeads(modes: seq<Mode>, high: int, buf: Text, depth: int, log: seq<Event>, d: Text, r: Core)
    requires FourHex(d) && DecodeUnicode(Hexing(U4, modes, high, buf + [92, 117] + d, depth, log)) == Go(r)
    ensures Leads(Hexing(U1, modes, high, buf + [92, 117], depth, log), d, r)
  {
    hide Step, DecodeUnicode;
    FourHexRun(modes, high, buf + [92, 117], depth, log, d);
  }

  /** The code unit that `decode_unicode_char` reads is the one the four digits spell. */
  lemma DecodeUnit(modes: seq<Mode>, high: int, buf: Text, depth: int, log: seq<Event>, d: Text)
    requires FourHex(d)
    ensures var r := DecodeUnicode(Hexing(U4, modes, high, buf + [92, 117] + d, depth, log));
            var u := Unit(d);
            r == if high != 0 then
                   if Utf8.IsLow(u) then Go(Quoted(modes, buf + Utf8.Encode(Utf8.Join(high, u)), depth, log))
                   else Halt(InvalidUnicode, log)
                 else if Utf8.IsHigh(u) then Go(Hexing(D1, modes, u, buf, depth, log))
                 else if Utf8.IsLow(u) then Halt(InvalidUnicode, log)
                 else Go(Quoted(modes, buf + Utf8.Encode(u), depth, log))
  {
    var b := buf + [92, 117] + d;
    var n := |b|;
    assert forall i :: n - 4 <= i < n ==> b[i] == d[i - (n - 4)];
    assert b[n - 4] == d[0] && b[n - 3] == d[1] && b[n - 2] == d[2] && b[n - 1] == d[3];
    assert b[..n - 6] == buf;
  }

  lemma EscapeRun(modes: seq<Mode>, buf: Text, depth: int, log: seq<Event>, c: int)
    requires IsEscape(c)
    ensures Leads(Quoted(modes, buf, depth, log), [92, c], Quoted(modes, buf + ItemBytes(Escape(c)), depth, log))
  {
    var es := Quoted(modes, buf, depth, log).(state := ES, escaped := true, buf := buf + [92]);
    One(Quoted(modes, buf, depth, log), 92, es);
    EscapedStep(es, c, buf);
    hide Leads, Step;
    ThenStep(Quoted(modes, buf, depth, log), [92], es, c, Quoted(modes, buf + ItemBytes(Escape(c)), depth, log));
    assert [92] + [c] == [92, c];
  }

  lemma EscapedStep(es: Core, c: int, buf: Text)
    requires IsEscape(c) && es.state == ES && es.escaped && es.buf == buf + [92]
    ensures Step(es, c) == Go(es.(state := ST, escaped := false, buf := buf + ItemBytes(Escape(c))))
  {
    ChopSnoc(buf, 92);
    EscapedAct(es, c);
    hide Act, Chop;
  }

  lemma EscapedAct(es: Core, c: int)
    requires IsEscape(c) && es.state == ES && es.escaped
    ensures 0 <= c < 256 && ClassOf(c).Some? && Transition(ES, ClassOf(c).value) == To(ST)
  {
  }

  lemma UnicodeRun(modes: seq<Mode>, buf: Text, depth: int, log: seq<Event>, d: Text)
    requires ItemOk(Unicode(d))
    ensures Leads(Quoted(modes, buf, depth, log), ItemText(Unicode(d)),
          Quoted(modes, buf + ItemBytes(Unicode(d)), depth, log))
  {
    hide Leads, Step, DecodeUnicode;
    EscapeU(modes, buf, depth, log);
    DecodeUnit(modes, 0, buf, depth, log, d);
    FourHexLeads(modes, 0, buf, depth, log, d, Quoted(modes, buf + ItemBytes(Unicode(d)), depth, log));
    Then(Quoted(modes, buf, depth, log), [92, 117], Hexing(U1, modes, 0, buf + [92, 117], depth, log), d,
         Quoted(modes, buf + ItemBytes(Unicode(d)), depth, log));
  }

  lemma SurrogatesRun(modes: seq<Mode>, buf: Text, depth: int, log: seq<Event>, h: Text, l: Text)
    requires ItemOk(Surrogates(h, l))
    ensures Leads(Quoted(modes, buf, depth, log), ItemText(Surrogates(h, l)),
                  Quoted(modes, buf + ItemBytes(Surrogates(h, l)), depth, log))
  {
    hide Leads, Step, DecodeUnicode;
    var s := Quoted(modes, buf, depth, log);
    var d1 := Hexing(D1, modes, Unit(h), buf, depth, log);
    var u1 := Hexing(U1, modes, Unit(h), buf + [92, 117], depth, log);
    var r := Quoted(modes, buf + ItemBytes(Surrogates(h, l)), depth, log);
    EscapeU(modes, buf, depth, log);
    DecodeUnit(modes, 0, buf, depth, log, h);
    FourHexLeads(modes, 0, buf, depth, log, h, d1);
    Then(s, [92, 117], Hexing(U1, modes, 0, buf + [92, 117], depth, log), h, d1);
    SecondEscape(modes, Unit(h), buf, depth, log);
    Then(s, [92, 117] + h, d1, [92, 117], u1);
    DecodeUnit(modes, Unit(h), buf, depth, log, l);
    FourHexLeads(modes, Unit(h), buf, depth, log, l, r);
    Then(s, [92, 117] + h + [92, 117], u1, l, r);
  }

  lemma ItemRun(modes: seq<Mode>, buf: Text, depth: int, log: seq<Event>, i: Item)
    requires ItemOk(i)
    ensures Leads(Quoted(modes, buf, depth, log), ItemText(i), Quoted(modes, buf + ItemBytes(i), depth, log))
  {
    match i
    case Raw(c) => One(Quoted(modes, buf, depth, log), c, Quoted(modes, buf + [c % 256], depth, log));
    case Escape(c) => EscapeRun(modes, buf, depth, log, c);
    case Unicode(d) => UnicodeRun(modes, buf, depth, log, d);
    case Surrogates(h, l) => SurrogatesRun(modes, buf, depth, log, h, l);
  }

  lemma BackslashStep(s: Core)
    requires s.state == ST && !s.escaped && s.pending == StringType
    ensures Step(s, 92) == Go(s.(state := ES, escaped := true, buf := s.buf + [92]))
  {
    assert ClassOf(92) == Some(Backs);
    assert Transition(ST, Backs) == Ex;
    hide ClassOf, Transition;
  }

  lemma UnicodeStep(s: Core, buf: Text)
    requires s.state == ES && s.escaped && Chop(s.buf) == buf
    ensures Step(s, 117) == Go(s.(state := U1, escaped := false, buf := buf + [92, 117]))
  {
    assert ClassOf(117) == Some(LowU);
    assert Transition(ES, LowU) == To(U1);
    hide ClassOf, Transition;
  }

  lemma EscapeU(modes: seq<Mode>, buf: Text, depth: int, log: seq<Event>)
    ensures Leads(Quoted(modes, buf, depth, log), [92, 117], Hexing(U1, modes, 0, buf + [92, 117], depth, log))
  {
    var s := Quoted(modes, buf, depth, log);
    var es := s.(state := ES, escaped := true, buf := buf + [92]);
    BackslashStep(s);
    ChopSnoc(buf, 92);
    UnicodeStep(es, buf);
    hide Leads, Step, Chop;
    One(s, 92, es);
    ThenStep(s, [92], es, 117, Hexing(U1, modes, 0, buf + [92, 117], depth, log));
    assert [92] + [117] == [92, 117];
  }

  lemma SecondEscape(modes: seq<Mode>, high: int, buf: Text, depth: int, log: seq<Event>)
    ensures Leads(Hexing(D1, modes, high, buf, depth, log), [92, 117],
          Hexing(U1, modes, high, buf + [92, 117], depth, log))
  {
    hide Leads;
    var s := Hexing(D1, modes, high, buf, depth, log);
    var d2 := Hexing(D2, modes, high, buf + [92], depth, log);
    One(s, 92, d2);
    assert buf + [92] + [117] == buf + [92, 117];
    ThenStep(s, [92], d2, 117, Hexing(U1, modes, high, buf + [92, 117], depth, log));
    assert [92] + [117] == [92, 117];
  }

  lemma {:induction false} ItemsRun(modes: seq<Mode>, buf: Text, depth: int, log: seq<Event>, items: seq<Item>)
    requires ItemsOk(items)
    ensures Leads(Quoted(modes, buf, depth, log), ItemsText(items), Quoted(modes, buf + ItemsBytes(items), depth, log))
    decreases |items|
  {
    hide Leads, Step, ItemBytes, ItemText, ItemOk;
    if items == [] {
      Nil(Quoted(modes, buf, depth, log));
      assert buf + [] == buf;
    } else {
      var b := buf + ItemBytes(items[0]);
      ItemRun(modes, buf, depth, log, items[0]);
      ItemsRun(modes, b, depth, log, items[1..]);
      assert b + ItemsBytes(items[1..]) == buf + ItemsBytes(items);
      Then(Quoted(modes, buf, depth, log), ItemText(items[0]), Quoted(modes, b, depth, log),
           ItemsText(items[1..]), Quoted(modes, buf + ItemsBytes(items), depth, log));
    }
  }

  /** A string up to, but not including, its closing quote. */
  lemma OpenStringRun(st: State, modes: seq<Mode>, depth: int, log: seq<Event>, items: seq<Item>)
    requires st in {OB, KE, VA, AR} && ItemsOk(items)
    ensures Leads(At(st, modes, depth, log), [QUOTE] + ItemsText(items), Quoted(modes, ItemsBytes(items), depth, log))
  {
    hide Leads;
    var s := At(st, modes, depth, log);
    One(s, QUOTE, Quoted(modes, [], depth, log));
    ItemsRun(modes, [], depth, log, items);
    assert [] + ItemsBytes(items) == ItemsBytes(items);
    Then(s, [QUOTE], Quoted(modes, [], depth, log), ItemsText(items), Quoted(modes, ItemsBytes(items), depth, log));
  }

  lemma QuoteKey(modes: seq<Mode>, b: Text, depth: int, log: seq<Event>)
    requires modes != [] && Last(modes) == Key
    ensures Step(Quoted(modes, b, depth, log), QUOTE) == Go(At(CO, modes, depth, log + [KeyEvent(b)]))
  {
    assert Chop(b + [QUOTE]) == b;
  }

  lemma QuoteValue(modes: seq<Mode>, b: Text, depth: int, log: seq<Event>)
    requires modes != [] && (Last(modes) == Array || Last(modes) == Object)
    ensures Step(Quoted(modes, b, depth, log), QUOTE) == Go(At(OK, modes, depth, log + [StringEvent(b)]))
  {
    assert Chop(b + [QUOTE]) == b;
  }

  lemma KeyRun(st: State, modes: seq<Mode>, depth: int, log: seq<Event>, items: seq<Item>)
    requires (st == OB || st == KE) && ItemsOk(items) && modes != [] && Last(modes) == Key
    ensures Leads(At(st, modes, depth, log), StringText(items),
                  At(CO, modes, depth, log + [KeyEvent(ItemsBytes(items))]))
  {
    OpenStringRun(st, modes, depth, log, items);
    var b := ItemsBytes(items);
    QuoteKey(modes, b, depth, log);
    hide Leads, Step, At, Quoted;
    ThenStep(At(st, modes, depth, log), [QUOTE] + ItemsText(items), Quoted(modes, b, depth, log), QUOTE,
             At(CO, modes, depth, log + [KeyEvent(b)]));
  }

  lemma StringRun(st: State, modes: seq<Mode>, depth: int, log: seq<Event>, items: seq<Item>)
    requires (st == VA || st == AR) && ItemsOk(items) && modes != [] && (Last(modes) == Array || Last(modes) == Object)
    ensures Leads(At(st, modes, depth, log), StringText(items),
                  At(OK, modes, depth, log + [StringEvent(ItemsBytes(items))]))
  {
    OpenStringRun(st, modes, depth, log, items);
    var b := ItemsBytes(items);
    QuoteValue(modes, b, depth, log);
    hide Leads, Step, At, Quoted;
    ThenStep(At(st, modes, depth, log), [QUOTE] + ItemsText(items), Quoted(modes, b, depth, log), QUOTE,
             At(OK, modes, depth, log + [StringEvent(b)]));
  }
}

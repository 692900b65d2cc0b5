/**
 What reading a text comes to, without the parser: which texts are read, what
 the digits of a number are worth, and why a character is refused.
 */
module JsonMeaning {
  import opened Basics
  import opened JsonTypes
  import opened JsonMachine
  import opened JsonGrammar
  import opened JsonRuns
  import opened JsonBuild
  import opened JsonPrint
  import opened JsonRoundTrip
  import JsonSound
  import JsonTheorems

  // ---- Which texts are read ----

  /** Section 2 of RFC 8259: blank, horizontal tab, line feed, carriage return. */
  predicate Blank(t: Text) { forall i :: 0 <= i < |t| ==> t[i] == 0x20 || t[i] == 0x09 || t[i] == 0x0A || t[i] == 0x0D }

  ghost predicate IsDocument(t: Text) {
    exists d: Document :: DocumentOk(d) && Depth(d.value) <= 127 && DocumentText(d) == t
  }

  /**
   A text is read exactly if it is one of the grammar, nested at most 127 deep,
   and leaves the value as it was exactly if it is blank. What counts is the
   text up to the first character that is not positive.
   */
  lemma ReadExactly(t: Text)
    ensures Read(t).Untouched? <==> Blank(UpToNul(t))
    ensures Read(t).Built? <==> IsDocument(UpToNul(t))
  {
    var u := UpToNul(t);
    hide Step, Depth, ValueText, ValueEvents, Tree;
    if Blank(u) {
      JsonSound.BlankAccepted(u, 127);
      assert Build(EMPTY_BUILDER, []) == Some(EMPTY_BUILDER);
    } else if Read(t).Untouched? {
      var es := Run(Init(MAX_DEPTH), u).core.log;
      JsonTheorems.AcceptsExactly(MAX_DEPTH, u, es);
      var d :| DocumentOk(d) && Depth(d.value) <= MAX_DEPTH && DocumentText(d) == u && ValueEvents(d.value) == es;
      ReadDocument(t, d);
    }
    if Read(t).Built? {
      var d := ReadInverts(t);
    }
    if d :| DocumentOk(d) && Depth(d.value) <= 127 && DocumentText(d) == u {
      ReadDocument(t, d);
    }
  }

  // ---- What digits are worth ----

  function Power10(n: nat): nat { if n == 0 then 1 else 10 * Power10(n - 1) }

  /** Each digit times the power of ten of its place. */
  function Places(t: Text): int {
    if t == [] then 0 else (t[0] - 0x30) * Power10(|t| - 1) + Places(t[1..])
  }

  lemma {:induction false} PlacesMore(t: Text, d: int)
    ensures Places(t + [d]) == 10 * Places(t) + (d - 0x30)
    decreases |t|
  {
    if t == [] {
      assert ([] + [d])[1..] == [];
    } else {
      assert (t + [d])[0] == t[0] && (t + [d])[1..] == t[1..] + [d];
      PlacesMore(t[1..], d);
      Tenfold(t[0] - 0x30, Power10(|t| - 1));
    }
  }

  lemma Tenfold(a: int, b: int)
    ensures a * (10 * b) == 10 * (a * b)
  {
  }

  lemma {:induction false} DigitsPlaced(t: Text)
    ensures DigitsValue(t) == Places(t)
    decreases |t|
  {
    if t != [] {
      DigitsPlaced(Chop(t));
      PlacesMore(Chop(t), Last(t));
      assert t == Chop(t) + [Last(t)];
    }
  }

  /** An integer is read as the number that its sign and its digits stand for, modulo 2^32. */
  lemma IntegersRead(n: Number)
    requires NumberOk(n) && !IsReal(n)
    ensures Tree(NumberValue(n)).Int?
    ensures var i, m := Tree(NumberValue(n)).i, if n.negative then -Places(n.whole) else Places(n.whole);
            -0x8000_0000 <= i < 0x8000_0000 && (i - m) % 0x1_0000_0000 == 0
  {
    DigitsPlaced(n.whole);
    ScansWhole(n);
    hide Places, DigitsValue, ScanInteger, Wrap32, NumberText;
  }

  lemma ScansWhole(n: Number)
    requires NumberOk(n) && !IsReal(n)
    ensures ScanInteger(NumberText(n)) == if n.negative then -DigitsValue(n.whole) else DigitsValue(n.whole)
  {
    hide DigitsValue;
    var t := NumberText(n);
    if n.negative {
      assert t[1..] == n.whole;
    } else {
      assert t == n.whole;
    }
  }

  /** An integer is printed with a minus sign if it is negative, and the digits of its amount without leading zeros. */
  lemma IntegersPrinted(i: int)
    ensures var t := if i < 0 then IntText(i)[1..] else IntText(i);
            && (i < 0 ==> IntText(i) != [] && IntText(i)[0] == 0x2D)
            && t != [] && (forall k :: 0 <= k < |t| ==> 0x30 <= t[k] <= 0x39) && (t[0] == 0x30 ==> |t| == 1)
            && Places(t) == if i < 0 then -i else i
  {
    var n := if i < 0 then -i else i;
    NatTextOk(n);
    NatTextZero(n);
    DigitsPlaced(NatText(n));
    assert i < 0 ==> IntText(i)[1..] == NatText(n);
    hide NatText, Places, DigitsValue;
  }

  // ---- Why a character is refused ----

  lemma CharClasses(c: int)
    requires c >= 0
    ensures (ClassOf(c) == Some(Space) || ClassOf(c) == Some(White)) ==> IsWhite(c)
    ensures (ClassOf(c) == Some(Quote) ==> c == QUOTE) && (ClassOf(c) == Some(Slash) ==> c == 0x2F)
    ensures (ClassOf(c) == Some(Colon) ==> c == COLON) && (ClassOf(c) == Some(RCurb) ==> c == RBRACE)
    ensures (ClassOf(c) == Some(LCurb) ==> c == LBRACE) && (ClassOf(c) == Some(LSqrb) ==> c == LBRACKET)
  {
  }

  lemma BadStep(s: Core, c: int)
    requires c >= 0 && !s.escaped && (ClassOf(c).None? || Transition(s.state, ClassOf(c).value).Bad?)
    ensures Step(s, c) == Halt(SyntaxError(s.state, c), s.log)
  {
    hide ClassOf, Transition, SyntaxError;
  }

  lemma BadColumn(st: State, k: Class)
    requires !k.Space? && !k.White? && !k.Slash?
    ensures st == OB && !k.Quote? && !k.RCurb? ==> Transition(st, k) == Bad
    ensures st == KE && !k.Quote? ==> Transition(st, k) == Bad
    ensures st == CO && !k.Colon? ==> Transition(st, k) == Bad
    ensures st == GO && !k.LCurb? && !k.LSqrb? ==> Transition(st, k) == Bad
  {
    hide TextRow, DigitRow, LetterRow;
  }

  /**
   Where a key or a colon is due, and where a text begins, the error says so.
   White space does no harm there, and a `/` begins a comment, which is refused
   without an error.
   */
  lemma RefusedBetween(st: State, modes: seq<Mode>, depth: int, log: seq<Event>, c: int)
    requires c >= 0 && c != 0x2F && !IsWhite(c)
    ensures var r := Step(At(st, modes, depth, log), c);
            && (st == OB && c != QUOTE && c != RBRACE ==> r == Halt(ExpectedKey, log))
            && (st == KE && c != QUOTE ==> r == Halt(ExpectedKey, log))
            && (st == CO && c != COLON ==> r == Halt(ExpectedColon, log))
            && (st == GO && (c == RBRACE || c == RBRACKET) ==> r == Halt(Unbalanced, log))
            && (st == GO && c != LBRACE && c != LBRACKET && c != RBRACE && c != RBRACKET ==>
                  r == Halt(InvalidChar, log))
  {
    CharClasses(c);
    hide ClassOf, Transition, Step;
    var s := At(st, modes, depth, log);
    if ClassOf(c).Some? {
      BadColumn(st, ClassOf(c).value);
    }
    if ClassOf(c).None? || Transition(st, ClassOf(c).value).Bad? {
      BadStep(s, c);
    }
  }

  /** A bracket that closes nothing, or the wrong container. */
  lemma RefusedBracket(s: Core, c: int)
    requires Settling(s) && s.modes != []
    requires (c == RBRACE && Last(s.modes) != Object) || (c == RBRACKET && Last(s.modes) != Array)
    ensures Step(s, c)
         == Halt(Unbalanced, s.log + Flush(s.pending, s.buf) + [if c == RBRACE then ObjectEnd else ArrayEnd])
  {
    DelimiterStep(s, c);
    hide Step, Flush, Chop;
    Assoc(s.log, Flush(s.pending, s.buf), [if c == RBRACE then ObjectEnd else ArrayEnd]);
  }

  /** One container too many. */
  lemma RefusedDepth(st: State, modes: seq<Mode>, depth: int, log: seq<Event>, c: int)
    requires st in {GO, VA, AR} && |modes| == depth + 1 && (c == LBRACE || c == LBRACKET)
    ensures Step(At(st, modes, depth, log), c)
         == Halt(NestingDepth, log + [if c == LBRACE then ObjectBegin else ArrayBegin])
  {
    var s := At(st, modes, depth, log);
    var k := if c == LBRACE then LCurb else LSqrb;
    assert ClassOf(c) == Some(k);
    OpenColumn(st, k);
    hide ClassOf, Transition;
  }

  lemma OpenColumn(st: State, k: Class)
    requires st in {GO, VA, AR} && (k.LCurb? || k.LSqrb?)
    ensures Transition(st, k) == if k.LCurb? then ObjectOpen else ArrayOpen
  {
    hide TextRow, DigitRow, LetterRow;
  }

  /** A backslash with a character behind it that is no escape. */
  lemma RefusedEscape(modes: seq<Mode>, buf: Text, depth: int, log: seq<Event>, c: int)
    requires c >= 0 && ClassOf(c).Some? && !IsEscape(c) && c != 117
    ensures Run(Quoted(modes, buf, depth, log), [BACKSLASH, c]) == Halt(InvalidEscape, log)
  {
    var s := Quoted(modes, buf, depth, log);
    BackslashStep(s);
    var r := Step(s, 92).core;
    assert Step(r, c) == Halt(InvalidEscape, log) by { hide ClassOf, Transition; }
    assert [BACKSLASH, c][1..] == [c] && [c][1..] == [];
    hide Step;
    assert Run(r, [c]) == Halt(InvalidEscape, log);
  }

  /** Inside a literal, a number or a `\u` escape the error names what is broken; an array misses its end. */
  lemma RefusedInside(s: Core, c: int)
    requires c >= 0 && !s.escaped && (ClassOf(c).None? || Transition(s.state, ClassOf(c).value).Bad?)
    ensures s.state in {N1, N2, N3, T1, T2, T3, F1, F2, F3, F4} ==> Step(s, c) == Halt(InvalidKeyword, s.log)
    ensures s.state in {MI, ZE, IT, FR, E1, E2, E3} ==> Step(s, c) == Halt(InvalidNumber, s.log)
    ensures s.state in {U1, U2, U3, U4, D1, D2} ==> Step(s, c) == Halt(InvalidUnicode, s.log)
    ensures s.state in {ST, OK, VA, FX} ==> Step(s, c) == Halt(InvalidChar, s.log)
    ensures s.state == AR ==> Step(s, c) == Halt(Unbalanced, s.log)
  {
    BadStep(s, c);
    hide Step;
  }
}

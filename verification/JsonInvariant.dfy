/**
 What holds of the parser after every character it reads: which mode may be on
 top in each state, what kind of value is pending, and what the buffer holds.
 */
module JsonInvariant {
  import opened Basics
  import opened JsonTypes
  import opened JsonMachine
  import opened JsonGrammar
  import JsonComplete
  import Utf8

  /** MODE_DONE at the bottom only; a key is only expected in the innermost container. */
  predicate ModesOk(m: seq<Mode>, depth: int) {
    && 1 <= |m| <= depth + 1 && m[0] == Done
    && (forall i :: 1 <= i < |m| ==> m[i] != Done)
    && (forall i :: 1 <= i < |m| - 1 ==> m[i] != Key)
  }

  predicate Quiet(s: Core) { s.pending == Nothing && s.buf == [] }

  /** The buffer ends with `\u` and `n` hexadecimal digits. */
  predicate HexTail(t: Text, n: nat) {
    && |t| >= n + 2 && t[|t| - n - 2] == 92 && t[|t| - n - 1] == 117
    && forall i :: |t| - n <= i < |t| ==> IsHex(t[i])
  }

  predicate StringState(st: State) { st in {ST, ES, U1, U2, U3, U4, D1, D2} }

  predicate LiteralOk(s: Core) {
    && (s.state in {N1, N2, N3} ==> s.pending == NullType && s.buf + JsonComplete.Remaining(s.state) == NULL_TEXT)
    && (s.state in {T1, T2, T3} ==> s.pending == TrueType && s.buf + JsonComplete.Remaining(s.state) == TRUE_TEXT)
    && (s.state in {F1, F2, F3, F4} ==> s.pending == FalseType && s.buf + JsonComplete.Remaining(s.state) == FALSE_TEXT)
  }

  /** What each string state knows about the buffer and the surrogate. */
  predicate StringOk(s: Core) {
    && (s.state == ES ==> s.buf != [] && Last(s.buf) == 92)
    && (s.state == U1 ==> HexTail(s.buf, 0))
    && (s.state == U2 ==> HexTail(s.buf, 1))
    && (s.state == U3 ==> HexTail(s.buf, 2))
    && (s.state == U4 ==> HexTail(s.buf, 3))
    && (s.state == D1 ==> s.surrogate != 0)
    && (s.state == D2 ==> s.surrogate != 0 && s.buf != [] && Last(s.buf) == 92)
    && (s.surrogate != 0 ==> Utf8.IsHigh(s.surrogate) && s.state in {U1, U2, U3, U4, D1, D2})
  }

  predicate Shape(s: Core)
    requires s.modes != []
  {
    var top := Last(s.modes);
    match s.state
    case GO => |s.modes| == 1 && Quiet(s)
    case OK =>
      && top != Key && s.pending != StringType && (s.pending == Nothing ==> s.buf == [])
      && (s.pending != Nothing ==> |s.modes| >= 2 && s.buf != [])
    case OB | KE | CO => top == Key && Quiet(s)
    case VA => (top == Array || top == Object) && Quiet(s)
    case AR => top == Array && Quiet(s)
    case ST | ES | U1 | U2 | U3 | U4 | D1 | D2 => top != Done && s.pending == StringType
    case MI | ZE | IT => (top == Array || top == Object) && s.pending == IntegerType && s.buf != []
    case FR | FX | E1 | E2 | E3 => (top == Array || top == Object) && s.pending == FloatType && s.buf != []
    case T1 | T2 | T3 | F1 | F2 | F3 | F4 | N1 | N2 | N3 => (top == Array || top == Object) && s.buf != []
  }

  predicate Inv(s: Core) {
    && ModesOk(s.modes, s.depth) && (s.escaped <==> s.state == ES)
    && Shape(s) && StringOk(s) && LiteralOk(s)
    && (!StringState(s.state) ==> s.surrogate == 0)
  }

  lemma InitInv(depth: int)
    requires depth >= 1
    ensures Inv(Init(depth))
  {
  }

  lemma PopModes(m: seq<Mode>, depth: int)
    requires ModesOk(m, depth) && |m| >= 2
    ensures ModesOk(Chop(m), depth) && Last(Chop(m)) != Key
    ensures ModesOk(Chop(m) + [Key], depth) && ModesOk(Chop(m) + [Object], depth)
  {
  }

  lemma PushModes(m: seq<Mode>, depth: int)
    requires ModesOk(m, depth) && Last(m) != Key && |m| != depth + 1
    ensures ModesOk(m + [Key], depth) && ModesOk(m + [Array], depth)
  {
  }

  /** What a character leaves behind before the table is consulted: only the buffer has changed. */
  predicate Fed(s: Core, s1: Core, c: int, k: Class) {
    && s1 == s.(escaped := false, buf := s1.buf)
    && (s.escaped ==> Unescape(c).Some? && s1.buf == Chop(s.buf) + Unescape(c).value)
    && (!s.escaped && (s.pending != Nothing || !(k.Space? || k.White?)) ==> s1.buf == s.buf + [c % 256])
    && (!s.escaped && s.pending == Nothing && (k.Space? || k.White?) ==> s1.buf == s.buf)
  }

  lemma AddCharFeeds(s: Core, c: int, k: Class)
    requires AddChar(s, c, k).Some?
    ensures Fed(s, AddChar(s, c, k).value, c, k)
  {
  }

  /** The entries that close or separate, seen from the states that have them. */
  lemma CloserRows(st: State, k: Class)
    requires !Transition(st, k).To? && !Transition(st, k).Bad? && !Transition(st, k).CommentBegin?
    ensures var code := Transition(st, k);
            && (code in {ObjectClose, Separator} ==> st in {OK, ZE, IT, FR, FX, E3})
            && (code == ArrayClose ==> st in {OK, ZE, IT, FR, FX, E3, AR})
            && (code in {ObjectOpen, ArrayOpen} ==> st in {GO, VA, AR})
            && (code in {Mx, Zx, Ix, Nu, Fa, Tr} ==> st == VA || st == AR)
            && (code == Sb ==> st in {OB, KE, VA, AR})
            && (code == StringEnd || code == Ex ==> st == ST)
            && (code == EmptyObjectEnd ==> st == OB) && (code == KeyEnd ==> st == CO)
            && (code == Uc ==> st == U4) && (code == De ==> st == IT) && (code == Df ==> st == ZE || st == IT)
            && (k.Space? || k.White? ==> false)
  {
    PlaceCodes(st, k);
    TextCodes(st, k);
    DigitCodes(st, k);
    LetterCodes(st, k);
    hide PlaceRow, TextRow, DigitRow, LetterRow;
  }

  predicate Moving(code: Code) { code.To? || code.Bad? || code.CommentBegin? }

  lemma PlaceCodes(st: State, k: Class)
    ensures var code := PlaceRow(st, k);
            match code
            case ObjectClose | Separator => st == OK && !k.Space? && !k.White?
            case ArrayClose => (st == OK || st == AR) && !k.Space? && !k.White?
            case ObjectOpen | ArrayOpen => (st == GO || st == VA || st == AR) && !k.Space? && !k.White?
            case Mx | Zx | Ix | Nu | Fa | Tr => (st == VA || st == AR) && !k.Space? && !k.White?
            case Sb => (st == OB || st == KE || st == VA || st == AR) && !k.Space? && !k.White?
            case EmptyObjectEnd => st == OB && !k.Space? && !k.White?
            case KeyEnd => st == CO && !k.Space? && !k.White?
            case _ => Moving(code)
  {
    SharedColumns(k);
    hide AfterValue, ValueStart;
  }

  lemma TextCodes(st: State, k: Class)
    ensures var code := TextRow(st, k);
            match code
            case StringEnd | Ex => st == ST && !k.Space? && !k.White?
            case Uc => st == U4 && !k.Space? && !k.White?
            case _ => Moving(code)
  {
    SharedColumns(k);
    hide HexClass;
  }

  lemma DigitCodes(st: State, k: Class)
    ensures var code := DigitRow(st, k);
            match code
            case De => st == IT && !k.Space? && !k.White?
            case Df => (st == ZE || st == IT) && !k.Space? && !k.White?
            case ObjectClose | ArrayClose | Separator =>
              (st == ZE || st == IT || st == FR || st == FX || st == E3) && !k.Space? && !k.White?
            case _ => Moving(code)
  {
    SharedColumns(k);
    hide AfterValue;
  }

  lemma LetterCodes(st: State, k: Class)
    ensures Moving(LetterRow(st, k))
  {
  }

  /** The entries that occur in the columns shared by several rows. */
  lemma SharedColumns(k: Class)
    ensures var a := AfterValue(k);
            a.To? || a.Bad? || a.CommentBegin? || a.ObjectClose? || a.ArrayClose? || a.Separator?
    ensures var v := ValueStart(k);
            && !v.To? && !v.ObjectClose? && !v.ArrayClose? && !v.Separator? && !v.EmptyObjectEnd?
            && !v.KeyEnd? && !v.StringEnd? && !v.Ex? && !v.Uc? && !v.De? && !v.Df?
    ensures k.Space? || k.White? ==> AfterValue(k).To? && ValueStart(k).Bad? && !HexClass(k)
  {
  }

  lemma OpenInv(s: Core, s1: Core, c: int, k: Class, code: Code)
    requires Inv(s) && Fed(s, s1, c, k) && !(k.Space? || k.White?) && s.state in {GO, VA, AR}
    requires code in {ObjectOpen, ArrayOpen} && Act(s1, c, code).Go?
    ensures Inv(Act(s1, c, code).core)
  {
    hide Act, Chop;
    OpenFacts(s1, c, code);
    PushModes(s.modes, s.depth);
    ChopSnoc(s.buf, c % 256);
  }

  lemma OpenFacts(s: Core, c: int, code: Code)
    requires code in {ObjectOpen, ArrayOpen} && Act(s, c, code).Go?
    ensures var r := Act(s, c, code).core;
            && r.state == (if code == ObjectOpen then OB else AR) && |s.modes| != s.depth + 1
            && r.modes == s.modes + [if code == ObjectOpen then Key else Array] && r.buf == Chop(s.buf)
            && r.pending == s.pending && r.escaped == s.escaped && r.surrogate == s.surrogate && r.depth == s.depth
  {
    hide Flush, DecodeUnicode;
  }

  lemma FlipInv(s: Core, s1: Core, c: int, k: Class, code: Code)
    requires Inv(s) && Fed(s, s1, c, k) && !(k.Space? || k.White?)
    requires (code == EmptyObjectEnd && s.state == OB) || (code == KeyEnd && s.state == CO)
    ensures Act(s1, c, code).Go? && Inv(Act(s1, c, code).core)
  {
    hide Act, Chop;
    FlipFacts(s1, c, code);
    PopModes(s.modes, s.depth);
    ChopSnoc(s.buf, c % 256);
  }

  lemma FlipFacts(s: Core, c: int, code: Code)
    requires code in {EmptyObjectEnd, KeyEnd} && TopIs(s, Key)
    ensures Act(s, c, code).Go?
    ensures var r := Act(s, c, code).core;
            && r.state == (if code == KeyEnd then VA else OK)
            && r.modes == (if code == KeyEnd then Chop(s.modes) + [Object] else Chop(s.modes))
            && r.buf == (if code == KeyEnd then Chop(s.buf) else [])
            && r.pending == s.pending && r.escaped == s.escaped && r.surrogate == s.surrogate && r.depth == s.depth
  {
    hide Flush, DecodeUnicode, Chop;
  }

  lemma CloseInv(s: Core, s1: Core, c: int, k: Class, code: Code)
    requires Inv(s) && Fed(s, s1, c, k)
    requires code in {ObjectClose, ArrayClose, Separator} && Act(s1, c, code).Go?
    requires s.state in {OK, ZE, IT, FR, FX, E3, AR}
    ensures Inv(Act(s1, c, code).core)
  {
    CloseFacts(s1, c, code);
    ClosedModes(s.modes, s.depth);
    PlainFacts(s);
    hide Inv, Act, ModesOk, Chop;
    PlaceInv(Act(s1, c, code).core);
  }

  /** Outside strings no escape is open. */
  lemma PlainFacts(s: Core)
    requires Inv(s) && !StringState(s.state)
    ensures ModesOk(s.modes, s.depth) && s.modes != [] && !s.escaped && s.surrogate == 0
  {
    ModesNonEmpty(s.modes, s.depth);
    hide ModesOk, LiteralOk, StringOk;
  }

  /** Where a value, a key or a colon is due, or has been read. */
  lemma PlaceInv(r: Core)
    requires ModesOk(r.modes, r.depth) && r.modes != [] && !r.escaped && r.surrogate == 0 && Quiet(r)
    requires match r.state
             case OK => Last(r.modes) != Key
             case KE => Last(r.modes) == Key
             case VA => Last(r.modes) == Array || Last(r.modes) == Object
             case _ => false
    ensures Inv(r)
  {
    hide ModesOk, HexTail;
  }

  lemma NumberFacts(s: Core)
    requires Inv(s) && s.state in {MI, ZE, IT, FR, FX, E1, E2, E3}
    ensures ModesOk(s.modes, s.depth) && s.modes != [] && !s.escaped && s.surrogate == 0 && s.buf != []
    ensures Last(s.modes) == Array || Last(s.modes) == Object
    ensures s.pending == if s.state in {MI, ZE, IT} then IntegerType else FloatType
  {
    ModesNonEmpty(s.modes, s.depth);
    hide ModesOk, LiteralOk, StringOk;
  }

  lemma NumberInv(r: Core)
    requires ModesOk(r.modes, r.depth) && r.modes != [] && !r.escaped && r.surrogate == 0 && r.buf != []
    requires (Last(r.modes) == Array || Last(r.modes) == Object) && r.state in {MI, ZE, IT, FR, FX, E1, E2, E3}
    requires r.pending == if r.state in {MI, ZE, IT} then IntegerType else FloatType
    ensures Inv(r)
  {
    hide ModesOk, HexTail;
  }

  lemma ClosedModes(m: seq<Mode>, depth: int)
    requires ModesOk(m, depth)
    ensures m != []
    ensures Last(m) != Done ==>
              && |m| >= 2 && ModesOk(Chop(m), depth) && Chop(m) != [] && Last(Chop(m)) != Key
              && ModesOk(Chop(m) + [Key], depth) && Last(Chop(m) + [Key]) == Key
  {
    LastMode(m, depth);
    if |m| >= 2 {
      PopModes(m, depth);
    }
  }

  lemma CloseFacts(s: Core, c: int, code: Code)
    requires code in {ObjectClose, ArrayClose, Separator} && Act(s, c, code).Go?
    ensures var r := Act(s, c, code).core;
            && s.modes != [] && Last(s.modes) in {Object, Array}
            && r.pending == Nothing && r.buf == [] && r.escaped == s.escaped && r.surrogate == s.surrogate
            && r.depth == s.depth
            && if code != Separator then r.state == OK && r.modes == Chop(s.modes)
               else if Last(s.modes) == Object then r.state == KE && r.modes == Chop(s.modes) + [Key]
               else r.state == VA && r.modes == s.modes
  {
    hide Flush, DecodeUnicode, Chop;
  }

  lemma StartInv(s: Core, s1: Core, c: int, k: Class, code: Code)
    requires Inv(s) && Fed(s, s1, c, k) && !(k.Space? || k.White?) && (s.state == VA || s.state == AR)
    requires code in {Mx, Zx, Ix, Nu, Fa, Tr}
    requires code in {Nu, Fa, Tr} ==> c == if code == Nu then 110 else if code == Fa then 102 else 116
    ensures Act(s1, c, code).Go? && Inv(Act(s1, c, code).core)
  {
    assert s1.buf == [c % 256] && (Last(s.modes) == Array || Last(s.modes) == Object);
    hide Act, ModesOk, StringOk, LiteralOk, Shape;
    StartAct(s1, c, code);
    StartShape(Act(s1, c, code).core);
    StringQuiet(Act(s1, c, code).core);
    StartLiteral(Act(s1, c, code).core, c);
  }

  lemma StartShape(s: Core)
    requires s.modes != [] && (Last(s.modes) == Array || Last(s.modes) == Object) && s.buf != []
    requires s.state in {N1, F1, T1} || (s.state in {MI, ZE, IT} && s.pending == IntegerType)
    ensures Shape(s)
  {
  }

  lemma StartLiteral(s: Core, c: int)
    requires s.state in {MI, ZE, IT} || (s.state == N1 && s.pending == NullType && c == 110)
             || (s.state == F1 && s.pending == FalseType && c == 102)
                   || (s.state == T1 && s.pending == TrueType && c == 116)
    requires s.buf == [c % 256]
    ensures LiteralOk(s)
  {
  }

  lemma StartAct(s: Core, c: int, code: Code)
    requires code in {Mx, Zx, Ix, Nu, Fa, Tr}
    ensures Act(s, c, code) == match code
              case Mx => Go(s.(state := MI, pending := IntegerType))
              case Zx => Go(s.(state := ZE, pending := IntegerType))
              case Ix => Go(s.(state := IT, pending := IntegerType))
              case Nu => Go(s.(state := N1, pending := NullType))
              case Fa => Go(s.(state := F1, pending := FalseType))
              case _ => Go(s.(state := T1, pending := TrueType))
  {
  }

  lemma StringQuiet(s: Core)
    requires !StringState(s.state) && s.surrogate == 0
    ensures StringOk(s)
  {
  }

  lemma StringCodesInv(s: Core, s1: Core, c: int, k: Class, code: Code)
    requires Inv(s) && Fed(s, s1, c, k)
    requires (code == Sb && s.state in {OB, KE, VA, AR}) || (code == StringEnd && s.state == ST)
          || (code == Ex && s.state == ST && c == 92)
    ensures Act(s1, c, code).Go? && Inv(Act(s1, c, code).core)
  {
    hide Flush, ModesOk, Chop, DecodeUnicode;
    assert s.modes != [] by { ModesNonEmpty(s.modes, s.depth); }
    LastMode(s.modes, s.depth);
  }

  lemma ModesNonEmpty(m: seq<Mode>, depth: int)
    requires ModesOk(m, depth)
    ensures m != []
  {
  }

  lemma LastMode(m: seq<Mode>, depth: int)
    requires ModesOk(m, depth)
    ensures m != [] && (Last(m) == Done <==> |m| == 1)
  {
  }

  lemma FloatInv(s: Core, s1: Core, c: int, k: Class, code: Code)
    requires Inv(s) && Fed(s, s1, c, k)
          && ((code == De && s.state == IT) || (code == Df && (s.state == ZE || s.state == IT)))
    ensures Act(s1, c, code).Go? && Inv(Act(s1, c, code).core)
  {
    NumberFacts(s);
    hide Inv, ModesOk, Last;
    NumberInv(Act(s1, c, code).core);
  }

  /** The four digits are in the buffer, so decoding never meets a short or malformed one. */
  lemma DecodeInv(s: Core, s1: Core, c: int, k: Class)
    requires Inv(s) && Fed(s, s1, c, k) && s.state == U4 && IsHex(c)
    ensures |s1.buf| >= 6 && HexTail(s1.buf, 4)
    ensures DecodeUnicode(s1).Go? ==> Inv(DecodeUnicode(s1).core)
  {
    DecodeTail(s, s1, c, k);
    if DecodeUnicode(s1).Go? {
      DecodeFacts(s1);
    }
    hide ModesOk, DecodeUnicode, HexTail;
  }

  lemma DecodeTail(s: Core, s1: Core, c: int, k: Class)
    requires Inv(s) && Fed(s, s1, c, k) && s.state == U4 && IsHex(c)
    ensures |s1.buf| >= 6 && HexTail(s1.buf, 4)
  {
    hide ModesOk;
    assert s1.buf == s.buf + [c];
  }

  lemma DecodeFacts(s: Core)
    requires DecodeUnicode(s).Go?
    ensures var r := DecodeUnicode(s).core;
            && r.modes == s.modes && r.depth == s.depth && r.pending == s.pending && r.escaped == s.escaped
            && if r.state == D1 then Utf8.IsHigh(r.surrogate) else r.state == ST && r.surrogate == 0
  {
    hide Utf8.Encode;
  }

  // ---- Plain moves ----

  lemma WhiteMoveInv(s: Core, s1: Core, c: int, k: Class, st: State)
    requires Inv(s) && Fed(s, s1, c, k) && (k.Space? || k.White?) && Transition(s.state, k) == To(st) && s.state != ST
    ensures Inv(s1.(state := st))
  {
    WhiteRow(s.state, k, st);
    hide Transition, ModesOk;
    LastMode(s.modes, s.depth);
  }

  lemma WhiteRow(st: State, k: Class, r: State)
    requires (k.Space? || k.White?) && Transition(st, k) == To(r) && st != ST
    ensures if st in {ZE, IT, FR, FX, E3} then r == OK else r == st && st in {GO, OK, OB, KE, CO, VA, AR}
  {
    WhiteAmongPlaces(st, k);
    WhiteElsewhere(st, k);
    hide PlaceRow, TextRow, DigitRow, LetterRow;
  }

  lemma WhiteAmongPlaces(st: State, k: Class)
    requires k.Space? || k.White?
    ensures match PlaceRow(st, k) case To(r) => r == st case _ => true
  {
  }

  lemma WhiteElsewhere(st: State, k: Class)
    requires k.Space? || k.White?
    ensures st != ST ==> !TextRow(st, k).To?
    ensures !LetterRow(st, k).To?
    ensures match DigitRow(st, k) case To(r) => r == OK && st in {ZE, IT, FR, FX, E3} case _ => true
  {
  }

  lemma NumberRow(st: State, k: Class, r: State)
    requires st in {MI, ZE, IT, FR, FX, E1, E2, E3} && !(k.Space? || k.White?) && Transition(st, k) == To(r)
    ensures r in {ZE, IT, FR, E1, E2, E3} && (st in {FR, FX, E1, E2, E3} <==> r in {FR, E1, E2, E3})
  {
    DigitMoves(st, k);
    hide DigitRow;
  }

  lemma DigitMoves(st: State, k: Class)
    requires !k.Space? && !k.White?
    ensures match DigitRow(st, k)
            case To(r) =>
              if st.FR? || st.FX? || st.E1? || st.E2? || st.E3? then r in {FR, E1, E2, E3}
              else (st.MI? || st.IT?) && r in {ZE, IT}
            case _ => true
  {
    AfterMoves(k);
    hide AfterValue;
  }

  lemma AfterMoves(k: Class)
    requires !k.Space? && !k.White?
    ensures !AfterValue(k).To?
  {
  }

  lemma NumberMoveInv(s: Core, s1: Core, c: int, k: Class, st: State)
    requires Inv(s) && Fed(s, s1, c, k) && s.state in {MI, ZE, IT, FR, FX, E1, E2, E3}
    requires st in {ZE, IT, FR, E1, E2, E3} && (s.state in {FR, FX, E1, E2, E3} <==> st in {FR, E1, E2, E3})
    ensures Inv(s1.(state := st))
  {
    NumberFacts(s);
    hide Inv, ModesOk, Last;
    NumberInv(s1.(state := st));
  }

  lemma LiteralRow(st: State, c: int, k: Class, r: State)
    requires JsonComplete.InLiteral(st) && ClassOf(c) == Some(k) && Transition(st, k) == To(r)
    ensures JsonComplete.Remaining(st) == [c] + JsonComplete.Remaining(r) && r == JsonComplete.NextLiteral(st)
  {
    LetterNext(st, k, r);
    SameLetter(JsonComplete.Remaining(st)[0], c, k);
    RemainingNext(st);
    hide JsonComplete.Remaining, Transition, ClassOf;
  }

  lemma LetterNext(st: State, k: Class, r: State)
    requires JsonComplete.InLiteral(st) && Transition(st, k) == To(r)
    ensures r == JsonComplete.NextLiteral(st) && JsonComplete.Remaining(st) != []
    ensures k in {LowR, LowU, LowE, LowA, LowL, LowS} && ClassOf(JsonComplete.Remaining(st)[0]) == Some(k)
  {
    LetterMoves(st, k, r);
    LetterKey(st, k);
    hide LetterRow, ClassOf, JsonComplete.Remaining;
  }

  lemma LetterMoves(st: State, k: Class, r: State)
    requires JsonComplete.InLiteral(st) && LetterRow(st, k) == To(r)
    ensures r == JsonComplete.NextLiteral(st) && k in {LowR, LowU, LowE, LowA, LowL, LowS}
  {
  }

  lemma LetterKey(st: State, k: Class)
    requires JsonComplete.InLiteral(st) && LetterRow(st, k).To?
    ensures JsonComplete.Remaining(st) != [] && ClassOf(JsonComplete.Remaining(st)[0]) == Some(k)
  {
  }

  lemma SameLetter(c: int, d: int, k: Class)
    requires ClassOf(c) == ClassOf(d) == Some(k) && k in {LowR, LowU, LowE, LowA, LowL, LowS}
    ensures c == d
  {
  }

  lemma RemainingNext(st: State)
    requires JsonComplete.InLiteral(st)
    ensures JsonComplete.Remaining(st)
         == [JsonComplete.Remaining(st)[0]] + JsonComplete.Remaining(JsonComplete.NextLiteral(st))
  {
  }

  lemma LiteralMoveInv(s: Core, s1: Core, c: int, k: Class, st: State)
    requires Inv(s) && Fed(s, s1, c, k) && JsonComplete.InLiteral(s.state) && 0 <= c < 256
    requires JsonComplete.Remaining(s.state) == [c] + JsonComplete.Remaining(st)
          && st == JsonComplete.NextLiteral(s.state)
    ensures Inv(s1.(state := st))
  {
    LiteralFacts(s);
    hide Inv, ModesOk, JsonComplete.Remaining, StringOk, LiteralOk, Shape;
    LiteralKept(s, s1, c, st);
    LiteralInv(s1.(state := st));
  }

  lemma LiteralFacts(s: Core)
    requires Inv(s) && JsonComplete.InLiteral(s.state)
    ensures ModesOk(s.modes, s.depth) && |s.modes| >= 2 && !s.escaped && s.surrogate == 0 && LiteralOk(s)
    ensures s.pending in {NullType, TrueType, FalseType} && (Last(s.modes) == Array || Last(s.modes) == Object)
  {
    LastMode(s.modes, s.depth);
    hide ModesOk, StringOk, JsonComplete.Remaining;
  }

  lemma LiteralInv(r: Core)
    requires ModesOk(r.modes, r.depth) && |r.modes| >= 2 && !r.escaped && r.surrogate == 0 && LiteralOk(r)
    requires (r.state == OK || JsonComplete.InLiteral(r.state)) && r.buf != []
    requires r.pending in {NullType, TrueType, FalseType} && (Last(r.modes) == Array || Last(r.modes) == Object)
    ensures Inv(r)
  {
    StringQuiet(r);
    hide ModesOk, StringOk, LiteralOk, Last;
  }

  lemma LiteralKept(s: Core, s1: Core, c: int, st: State)
    requires LiteralOk(s) && s1.state == s.state && s1.pending == s.pending && s1.buf == s.buf + [c]
    requires JsonComplete.InLiteral(s.state) && st == JsonComplete.NextLiteral(s.state)
    requires JsonComplete.Remaining(s.state) == [c] + JsonComplete.Remaining(st)
    ensures LiteralOk(s1.(state := st))
  {
    hide JsonComplete.Remaining;
    Assoc(s.buf, [c], JsonComplete.Remaining(st));
  }

  lemma StringRow(st: State, c: int, k: Class, r: State)
    requires StringState(st) && c >= 0 && ClassOf(c) == Some(k) && Transition(st, k) == To(r)
    ensures st == ST ==> r == ST
    ensures st == ES ==> r == (if c == 117 then U1 else ST)
    ensures st in {U1, U2, U3} ==> IsHex(c) && r == JsonComplete.NextHex(st)
    ensures st == D1 ==> c == 92 && r == D2
    ensures st == D2 ==> c == 117 && r == U1
    ensures st != U4
  {
    TextMoves(st, k, r);
    TextChars(c, k);
    hide Transition, ClassOf, HexClass;
  }

  lemma TextMoves(st: State, k: Class, r: State)
    requires StringState(st) && Transition(st, k) == To(r)
    ensures st == ST ==> r == ST
    ensures st == ES ==> r == (if k.LowU? then U1 else ST)
    ensures st in {U1, U2, U3} ==> HexClass(k) && r == JsonComplete.NextHex(st)
    ensures st == D1 ==> k.Backs? && r == D2
    ensures st == D2 ==> k.LowU? && r == U1
    ensures st != U4
  {
    hide HexClass, PlaceRow, DigitRow, LetterRow;
  }

  lemma TextChars(c: int, k: Class)
    requires c >= 0 && ClassOf(c) == Some(k)
    ensures (k.LowU? <==> c == 117) && (k.Backs? ==> c == 92)
    ensures HexClass(k) ==> IsHex(c)
  {
  }

  lemma HexTailGrows(t: Text, n: nat, c: int)
    requires HexTail(t, n) && IsHex(c)
    ensures HexTail(t + [c], n + 1)
  {
  }

  /** The moves inside a string that append the character. */
  lemma StringMoveInv(s: Core, s1: Core, c: int, k: Class, st: State)
    requires Inv(s) && Fed(s, s1, c, k) && s.state in {ST, U1, U2, U3, D1, D2}
    requires s.state == ST ==> st == ST
    requires s.state in {U1, U2, U3} ==> IsHex(c) && st == JsonComplete.NextHex(s.state)
    requires s.state == D1 ==> c == 92 && st == D2
    requires s.state == D2 ==> c == 117 && st == U1
    ensures Inv(s1.(state := st))
  {
    assert s1.buf == s.buf + [c % 256];
    if s.state in {U1, U2, U3} {
      HexMoveInv(s, s1, c, st);
    } else {
      hide ModesOk, HexTail, IsHex;
      if s.state == D2 {
        BackslashU(s.buf);
      }
    }
  }

  lemma HexMoveInv(s: Core, s1: Core, c: int, st: State)
    requires Inv(s) && s1 == s.(buf := s.buf + [c % 256]) && s.state in {U1, U2, U3}
    requires IsHex(c) && st == JsonComplete.NextHex(s.state)
    ensures Inv(s1.(state := st))
  {
    hide ModesOk, HexTail, IsHex, Chop, Last;
    HexTailGrows(s.buf, if s.state == U1 then 0 else if s.state == U2 then 1 else 2, c);
    assert c % 256 == c by { HexIsByte(c); }
  }

  lemma HexIsByte(c: int)
    requires IsHex(c)
    ensures c % 256 == c
  {
  }

  lemma BackslashU(t: Text)
    requires t != [] && Last(t) == 92
    ensures HexTail(t + [117], 0)
  {
  }

  lemma EscapeMoveInv(s: Core, s1: Core, c: int, k: Class, st: State)
    requires Inv(s) && Fed(s, s1, c, k) && s.state == ES && st == (if c == 117 then U1 else ST)
    ensures Inv(s1.(state := st))
  {
    hide ModesOk;
    assert c == 117 ==> s1.buf == Chop(s.buf) + [92, 117];
  }

  lemma MoveInv(s: Core, s1: Core, c: int, k: Class, st: State)
    requires Inv(s) && Fed(s, s1, c, k) && c >= 0 && ClassOf(c) == Some(k) && Transition(s.state, k) == To(st)
    ensures Inv(s1.(state := st))
  {
    hide Inv, Fed, Transition, ClassOf;
    if StringState(s.state) {
      StringRow(s.state, c, k, st);
      if s.state == ES { EscapeMoveInv(s, s1, c, k, st); } else { StringMoveInv(s, s1, c, k, st); }
    } else if k.Space? || k.White? {
      WhiteMoveInv(s, s1, c, k, st);
    } else if JsonComplete.InLiteral(s.state) {
      LiteralRow(s.state, c, k, st);
      LiteralByte(s.state, c, st);
      LiteralMoveInv(s, s1, c, k, st);
    } else {
      OtherRows(s.state, k, st);
      NumberRow(s.state, k, st);
      NumberMoveInv(s, s1, c, k, st);
    }
  }

  lemma LiteralByte(st: State, c: int, r: State)
    requires JsonComplete.InLiteral(st) && JsonComplete.Remaining(st) == [c] + JsonComplete.Remaining(r)
    ensures 0 <= c < 256
  {
    assert JsonComplete.Remaining(st)[0] == c;
  }

  lemma OtherRows(st: State, k: Class, r: State)
    requires !StringState(st) && !(k.Space? || k.White?) && !JsonComplete.InLiteral(st) && Transition(st, k) == To(r)
    ensures st in {MI, ZE, IT, FR, FX, E1, E2, E3}
  {
    hide TextRow, DigitRow, LetterRow;
  }

  lemma CodeClasses(st: State, k: Class)
    requires st in {ST, U4, VA, AR}
    ensures var code := Transition(st, k);
            && (code == Ex ==> k == Backs) && (code == Uc ==> HexClass(k))
            && (code == Nu ==> k == LowN) && (code == Fa ==> k == LowF) && (code == Tr ==> k == LowT)
  {
    PlaceClasses(st, k);
    TextClasses(st, k);
    hide PlaceRow, TextRow;
  }

  lemma PlaceClasses(st: State, k: Class)
    ensures var code := PlaceRow(st, k);
            && (code == Nu ==> k == LowN) && (code == Fa ==> k == LowF) && (code == Tr ==> k == LowT)
            && code != Ex && code != Uc
  {
    hide AfterValue;
    SharedColumns(k);
  }

  lemma TextClasses(st: State, k: Class)
    ensures var code := TextRow(st, k);
            && (code == Ex ==> k == Backs) && (code == Uc ==> HexClass(k)) && code != Nu && code != Fa && code != Tr
  {
    hide HexClass;
  }

  lemma ClassChars(c: int, k: Class)
    requires c >= 0 && ClassOf(c) == Some(k)
    ensures (k == Backs ==> c == 92) && (HexClass(k) ==> IsHex(c))
    ensures (k == LowN ==> c == 110) && (k == LowF ==> c == 102) && (k == LowT ==> c == 116)
  {
  }

  lemma StringCodeChars(st: State, c: int, k: Class, code: Code)
    requires c >= 0 && ClassOf(c) == Some(k) && Transition(st, k) == code
    ensures code == Ex ==> c == 92
    ensures code == Uc ==> IsHex(c)
    ensures code in {Nu, Fa, Tr} ==> c == if code == Nu then 110 else if code == Fa then 102 else 116
  {
    if code in {Ex, Uc, Nu, Fa, Tr} {
      CloserRows(st, k);
      CodeClasses(st, k);
    }
    ClassChars(c, k);
    hide Transition, ClassOf, IsHex, HexClass;
  }

  /** The invariant is kept by every character that is read, at every nesting limit. */
  lemma StepInv(s: Core, c: int)
    requires Inv(s) && Step(s, c).Go?
    ensures Inv(Step(s, c).core)
  {
    var k := ClassOf(c).value;
    var s1 := AddChar(s, c, k).value;
    var code := Transition(s.state, k);
    AddCharFeeds(s, c, k);
    hide Inv, Fed, Transition, AddChar, ClassOf, DecodeUnicode;
    if code.To? {
      MoveInv(s, s1, c, k, code.state);
    } else {
      assert !code.Bad? && !code.CommentBegin?;
      CloserRows(s.state, k);
      StringCodeChars(s.state, c, k, code);
      hide Act;
      if code in {ObjectOpen, ArrayOpen} { OpenInv(s, s1, c, k, code); }
      else if code in {EmptyObjectEnd, KeyEnd} { FlipInv(s, s1, c, k, code); }
      else if code in {ObjectClose, ArrayClose, Separator} { CloseInv(s, s1, c, k, code); }
      else if code in {Mx, Zx, Ix, Nu, Fa, Tr} { StartInv(s, s1, c, k, code); }
      else if code in {Sb, StringEnd, Ex} { StringCodesInv(s, s1, c, k, code); }
      else if code in {De, Df} { FloatInv(s, s1, c, k, code); }
      else {
        DecodeInv(s, s1, c, k);
        ActUc(s1, c);
      }
    }
  }

  lemma ActUc(s: Core, c: int)
    ensures Act(s, c, Uc) == DecodeUnicode(s)
  {
  }

  /** What the asserts of the source demand of the state when an action is taken. */
  predicate ActReady(s: Core, code: Code) {
    && (code in {ObjectClose, ArrayClose, ObjectOpen, ArrayOpen, StringEnd, Separator, KeyEnd} ==> s.buf != [])
    && (code in {ObjectOpen, ArrayOpen, KeyEnd, Sb, Nu, Fa, Tr} ==> s.pending == Nothing)
    && (code == StringEnd ==> s.pending == StringType)
    && (code in {Separator, ObjectClose, ArrayClose} ==> s.pending != StringType)
    && (code in {De, Df} ==> s.pending == IntegerType)
    && (code == Df ==> s.buf != [] && Last(s.buf) == 46)
    && (code == Uc ==> HexTail(s.buf, 4) && (s.surrogate != 0 ==> Utf8.IsHigh(s.surrogate)))
  }

  lemma PointClass(st: State, c: int, k: Class)
    requires c >= 0 && ClassOf(c) == Some(k) && (st == ZE || st == IT) && Transition(st, k) == Df
    ensures c == 46
  {
    assert DigitRow(st, k) == Df by { hide DigitRow; }
    hide Transition;
    assert k.Point? by { hide ClassOf; }
  }

  /** None of the asserts on an action can fail. */
  lemma AlwaysReady(s: Core, c: int, k: Class)
    requires Inv(s) && c >= 0 && ClassOf(c) == Some(k) && AddChar(s, c, k).Some?
    ensures ActReady(AddChar(s, c, k).value, Transition(s.state, k))
  {
    var s1 := AddChar(s, c, k).value;
    var code := Transition(s.state, k);
    AddCharFeeds(s, c, k);
    hide AddChar, ModesOk, PlaceRow, TextRow, DigitRow, LetterRow;
    if !code.To? && !code.Bad? && !code.CommentBegin? {
      CloserRows(s.state, k);
      StringCodeChars(s.state, c, k, code);
      if code == Df { PointClass(s.state, c, k); }
      hide ClassOf, Transition;
      if code == Uc {
        UnicodeReady(s, s1, c, k);
      } else if s.state != ES {
        ReadyFacts(s, s1, c, k, code);
      }
      hide Inv, Fed, ActReady;
    }
  }

  lemma UnicodeReady(s: Core, s1: Core, c: int, k: Class)
    requires Inv(s) && Fed(s, s1, c, k) && s.state == U4 && IsHex(c)
    ensures ActReady(s1, Uc)
  {
    DecodeTail(s, s1, c, k);
    hide ModesOk, HexTail, Shape, LiteralOk;
  }

  lemma ReadyFacts(s: Core, s1: Core, c: int, k: Class, code: Code)
    requires Inv(s) && Fed(s, s1, c, k) && s.state != ES && !(k.Space? || k.White?) && code != Uc
          && (code == Df ==> c == 46)
    requires code in {ObjectClose, Separator} ==> s.state in {OK, ZE, IT, FR, FX, E3}
    requires code == ArrayClose ==> s.state in {OK, ZE, IT, FR, FX, E3, AR}
    requires code in {ObjectOpen, ArrayOpen} ==> s.state in {GO, VA, AR}
    requires code in {Nu, Fa, Tr} ==> s.state == VA || s.state == AR
    requires code == Sb ==> s.state in {OB, KE, VA, AR}
    requires code == StringEnd ==> s.state == ST
    requires code == KeyEnd ==> s.state == CO
    requires code == De || code == Df ==> s.state == ZE || s.state == IT
    ensures ActReady(s1, code)
  {
    assert s1.buf == s.buf + [c % 256];
    hide ModesOk, StringOk, LiteralOk;
  }

  /** Every state reached from the start satisfies the invariant. */
  lemma {:induction false} RunInv(s: Core, t: Text)
    requires Inv(s) && Run(s, t).Go?
    ensures Inv(Run(s, t).core)
    decreases |t|
  {
    hide Step, Inv;
    if t != [] {
      StepInv(s, t[0]);
      RunInv(Step(s, t[0]).core, t[1..]);
    }
  }

  /** In every run from the start, whatever has been read and whatever comes next, no assert on an action fails. */
  lemma NoAssertFails(depth: int, t: Text, c: int, k: Class)
    requires depth >= 1 && Run(Init(depth), t).Go? && c >= 0 && ClassOf(c) == Some(k)
    requires AddChar(Run(Init(depth), t).core, c, k).Some?
    ensures var s := Run(Init(depth), t).core; ActReady(AddChar(s, c, k).value, Transition(s.state, k))
  {
    InitInv(depth);
    RunInv(Init(depth), t);
    hide Inv, Run, Step;
    AlwaysReady(Run(Init(depth), t).core, c, k);
  }
}

/**
 The step function of Json/JSON_parser.cpp with comments off, as a function on
 values: one call of `JSON_parser_char` takes a parser state to the next one,
 or halts with the error code that `JSON_parser_get_last_error` then reports.
 */
module JsonMachine {
  import opened Basics
  import opened JsonTypes
  import Utf8

  /**
   The fields of the parser struct that its behaviour depends on. `log` is the
   sequence of callback calls made so far.
   */
  datatype Core = Core(
    state: State,
    modes: seq<Mode>,
    pending: Pending,
    escaped: bool,
    surrogate: int,
    buf: Text,
    depth: int,
    log: seq<Event>)

  datatype Outcome = Go(core: Core) | Halt(error: Error, log: seq<Event>)

  /** The rows between the values. */
  function PlaceRow(st: State, k: Class): Code {
    match st
    case GO => (
      match k
      case Space | White => To(GO)
      case LCurb => ObjectOpen
      case LSqrb => ArrayOpen
      case Slash => CommentBegin
      case _ => Bad)
    case OK => AfterValue(k)
    case OB => (
      match k
      case Space | White => To(OB)
      case RCurb => EmptyObjectEnd
      case Quote => Sb
      case Slash => CommentBegin
      case _ => Bad)
    case KE => (
      match k
      case Space | White => To(KE)
      case Quote => Sb
      case Slash => CommentBegin
      case _ => Bad)
    case CO => (
      match k
      case Space | White => To(CO)
      case Colon => KeyEnd
      case Slash => CommentBegin
      case _ => Bad)
    case VA => if k.Space? || k.White? then To(VA) else ValueStart(k)
    case AR => if k.Space? || k.White? then To(AR) else if k.RSqrb? then ArrayClose else ValueStart(k)
    case _ => Bad
  }

  /** The rows inside a string. */
  function TextRow(st: State, k: Class): Code {
    match st
    case ST => (
      match k
      case White => Bad
      case Quote => StringEnd
      case Backs => Ex
      case _ => To(ST))
    case ES => (
      match k
      case Quote | Backs | Slash | LowB | LowF | LowN | LowR | LowT => To(ST)
      case LowU => To(U1)
      case _ => Bad)
    case U1 => if HexClass(k) then To(U2) else Bad
    case U2 => if HexClass(k) then To(U3) else Bad
    case U3 => if HexClass(k) then To(U4) else Bad
    case U4 => if HexClass(k) then Uc else Bad
    case D1 => if k.Backs? then To(D2) else Bad
    case D2 => if k.LowU? then To(U1) else Bad
    case _ => Bad
  }

  /** The rows inside a number. */
  function DigitRow(st: State, k: Class): Code {
    match st
    case MI => if k.Zero? then To(ZE) else if k.Digit? then To(IT) else Bad
    case ZE => if k.Point? then Df else AfterValue(k)
    case IT => (
      match k
      case Point => Df
      case Zero | Digit => To(IT)
      case LowE | UpE => De
      case _ => AfterValue(k))
    case FR | FX => (
      match k
      case Zero | Digit => To(FR)
      case LowE | UpE => To(E1)
      case Slash => if st.FR? then CommentBegin else Bad
      case _ => AfterValue(k))
    case E1 => (
      match k
      case Plus | Minus => To(E2)
      case Zero | Digit => To(E3)
      case _ => Bad)
    case E2 => if k.Zero? || k.Digit? then To(E3) else Bad
    case E3 => if k.Zero? || k.Digit? then To(E3) else if k.Slash? then Bad else AfterValue(k)
    case _ => Bad
  }

  /** The rows inside a literal. */
  function LetterRow(st: State, k: Class): Code {
    match st
    case T1 => if k.LowR? then To(T2) else Bad
    case T2 => if k.LowU? then To(T3) else Bad
    case T3 => if k.LowE? then To(OK) else if k.Slash? then CommentBegin else Bad
    case F1 => if k.LowA? then To(F2) else Bad
    case F2 => if k.LowL? then To(F3) else Bad
    case F3 => if k.LowS? then To(F4) else Bad
    case F4 => if k.LowE? then To(OK) else if k.Slash? then CommentBegin else Bad
    case N1 => if k.LowU? then To(N2) else Bad
    case N2 => if k.LowL? then To(N3) else Bad
    case N3 => if k.LowL? then To(OK) else if k.Slash? then CommentBegin else Bad
    case _ => Bad
  }

  /** The transition table, one row per state. */
  function Transition(st: State, k: Class): Code {
    match st
    case GO | OK | OB | KE | CO | VA | AR => PlaceRow(st, k)
    case ST | ES | U1 | U2 | U3 | U4 | D1 | D2 => TextRow(st, k)
    case MI | ZE | IT | FR | FX | E1 | E2 | E3 => DigitRow(st, k)
    case T1 | T2 | T3 | F1 | F2 | F3 | F4 | N1 | N2 | N3 => LetterRow(st, k)
  }

  /** The columns that row OK shares with the rows of a finished number. */
  function AfterValue(k: Class): Code {
    match k
    case Space | White => To(OK)
    case RCurb => ObjectClose
    case RSqrb => ArrayClose
    case Comma => Separator
    case Slash => CommentBegin
    case _ => Bad
  }

  /** The columns that rows VA and AR share. */
  function ValueStart(k: Class): Code {
    match k
    case LCurb => ObjectOpen
    case LSqrb => ArrayOpen
    case Quote => Sb
    case Slash => CommentBegin
    case Minus => Mx
    case Zero => Zx
    case Digit => Ix
    case LowF => Fa
    case LowN => Nu
    case LowT => Tr
    case _ => Bad
  }

  predicate HexClass(k: Class) {
    match k
    case Zero | Digit | LowA | LowB | LowC | LowD | LowE | LowF | Abcdf | UpE => true
    case _ => false
  }

  /** `set_error`. */
  function SyntaxError(st: State, c: int): Error {
    match st
    case GO => if c in {LBRACE, RBRACE, LBRACKET, RBRACKET} then Unbalanced else InvalidChar
    case OB | KE => ExpectedKey
    case AR => Unbalanced
    case CO => ExpectedColon
    case U1 | U2 | U3 | U4 | D1 | D2 => InvalidUnicode
    case T1 | T2 | T3 | F1 | F2 | F3 | F4 | N1 | N2 | N3 => InvalidKeyword
    case MI | ZE | IT | FR | E1 | E2 | E3 => InvalidNumber
    case OK | VA | ST | ES | FX => InvalidChar
  }

  /** What an escaped character leaves in the buffer in place of its backslash. */
  function Unescape(c: int): Option<Text> {
    if c == 98 then Some([8])
    else if c == 102 then Some([12])
    else if c == 110 then Some([10])
    else if c == 114 then Some([13])
    else if c == 116 then Some([9])
    else if c == 34 || c == 92 || c == 47 then Some([c])
    else if c == 117 then Some([92, 117])
    else None
  }

  /** `add_char_to_parse_buffer`; None when the escape is not known. */
  function AddChar(s: Core, c: int, k: Class): Option<Core> {
    if s.escaped then
      match Unescape(c)
      case None => None
      case Some(t) => Some(s.(escaped := false, buf := Chop(s.buf) + t))
    else if !s.pending.Nothing? || !(k.Space? || k.White?) then
      Some(s.(buf := s.buf + [c % 256]))
    else
      Some(s)
  }

  /** The callback call that `parse_parse_buffer` makes. */
  function Flush(p: Pending, buf: Text): seq<Event> {
    match p
    case Nothing => []
    case IntegerType => [IntegerEvent(ScanInteger(Lexeme(buf)))]
    case FloatType => [FloatEvent(Lexeme(buf))]
    case NullType => [NullEvent]
    case TrueType => [TrueEvent]
    case FalseType => [FalseEvent]
    case StringType => [StringEvent(buf)]
  }

  /** `decode_unicode_char` followed by the state change of action UC. */
  function DecodeUnicode(s: Core): Outcome {
    if |s.buf| < 6 || !(forall i :: |s.buf| - 4 <= i < |s.buf| ==> IsHex(s.buf[i])) then
      Halt(InvalidUnicode, s.log)
    else
      var n := |s.buf|;
      var unit := 0x1000 * HexValue(s.buf[n - 4]) + 0x100 * HexValue(s.buf[n - 3])
                  + 0x10 * HexValue(s.buf[n - 2]) + HexValue(s.buf[n - 1]);
      var kept := s.buf[..n - 6];
      if s.surrogate != 0 then
        if Utf8.IsLow(unit) then
          Go(s.(state := ST, surrogate := 0, buf := kept + Utf8.Encode(Utf8.Join(s.surrogate, unit))))
        else
          Halt(InvalidUnicode, s.log)
      else if Utf8.IsHigh(unit) then
        Go(s.(state := D1, surrogate := unit, buf := kept))
      else if Utf8.IsLow(unit) then
        Halt(InvalidUnicode, s.log)
      else
        Go(s.(state := ST, buf := kept + Utf8.Encode(unit)))
  }

  /** `push`: refused when `depth` modes already lie above MODE_DONE. */
  predicate CanPush(s: Core) { |s.modes| != s.depth + 1 }

  predicate TopIs(s: Core, m: Mode) { s.modes != [] && Last(s.modes) == m }

  /** The state after a bracket or a string value: nothing pending, nothing in the buffer. */
  function Closed(s: Core, e: seq<Event>): Core {
    s.(state := OK, modes := Chop(s.modes), pending := Nothing, buf := [], log := s.log + e)
  }

  /** The actions of the transition table; the character is already in the buffer. */
  function Act(s: Core, c: int, code: Code): Outcome {
    match code
    case To(st) => Go(s.(state := st))
    case Bad => Halt(SyntaxError(s.state, c), s.log)
    case CommentBegin => Halt(NoError, s.log)
    case Uc => DecodeUnicode(s)
    case Ex => Go(s.(escaped := true, state := ES))
    case Mx => Go(s.(pending := IntegerType, state := MI))
    case Zx => Go(s.(pending := IntegerType, state := ZE))
    case Ix => Go(s.(pending := IntegerType, state := IT))
    case De => Go(s.(pending := FloatType, state := E1))
    case Df => Go(s.(pending := FloatType, state := FX))
    case Sb => Go(s.(pending := StringType, state := ST, buf := []))
    case Nu => Go(s.(pending := NullType, state := N1))
    case Fa => Go(s.(pending := FalseType, state := F1))
    case Tr => Go(s.(pending := TrueType, state := T1))
    case EmptyObjectEnd =>
      if TopIs(s, Key) then Go(s.(state := OK, modes := Chop(s.modes), buf := [], log := s.log + [ObjectEnd]))
      else Halt(NoError, s.log + [ObjectEnd])
    case ObjectClose =>
      var e := Flush(s.pending, Chop(s.buf)) + [ObjectEnd];
      if TopIs(s, Object) then Go(Closed(s, e)) else Halt(Unbalanced, s.log + e)
    case ArrayClose =>
      var e := Flush(s.pending, Chop(s.buf)) + [ArrayEnd];
      if TopIs(s, Array) then Go(Closed(s, e)) else Halt(Unbalanced, s.log + e)
    case ObjectOpen =>
      if CanPush(s) then
        Go(s.(state := OB, modes := s.modes + [Key], buf := Chop(s.buf), log := s.log + [ObjectBegin]))
      else
        Halt(NestingDepth, s.log + [ObjectBegin])
    case ArrayOpen =>
      if CanPush(s) then
        Go(s.(state := AR, modes := s.modes + [Array], buf := Chop(s.buf), log := s.log + [ArrayBegin]))
      else
        Halt(NestingDepth, s.log + [ArrayBegin])
    case StringEnd =>
      if TopIs(s, Key) then
        Go(s.(state := CO, pending := Nothing, buf := [], log := s.log + [KeyEvent(Chop(s.buf))]))
      else if TopIs(s, Array) || TopIs(s, Object) then
        Go(s.(state := OK, pending := Nothing, buf := [], log := s.log + Flush(s.pending, Chop(s.buf))))
      else
        Halt(NoError, s.log)
    case Separator =>
      var log := s.log + Flush(s.pending, Chop(s.buf));
      if TopIs(s, Object) then
        Go(s.(state := KE, modes := Chop(s.modes) + [Key], pending := Nothing, buf := [], log := log))
      else if TopIs(s, Array) then
        Go(s.(state := VA, pending := Nothing, buf := [], log := log))
      else
        Halt(NoError, log)
    case KeyEnd =>
      if TopIs(s, Key) then
        Go(s.(state := VA, modes := Chop(s.modes) + [Object], buf := Chop(s.buf)))
      else
        Halt(NoError, s.log)
  }

  /** One call of `JSON_parser_char`. */
  function Step(s: Core, c: int): Outcome {
    if c < 0 then Halt(InvalidChar, s.log)
    else
      match ClassOf(c)
      case None => Halt(SyntaxError(s.state, c), s.log)
      case Some(k) =>
        match AddChar(s, c, k)
        case None => Halt(InvalidEscape, s.log)
        case Some(s1) => Act(s1, c, Transition(s.state, k))
  }

  /** The calls for a whole text, stopping at the first refusal. */
  function Run(s: Core, t: Text): Outcome
    decreases |t|
  {
    if t == [] then Go(s)
    else
      match Step(s, t[0])
      case Go(s1) => Run(s1, t[1..])
      case Halt(e, log) => Halt(e, log)
  }

  /** `new_JSON_parser` for a positive depth. */
  function Init(depth: int): Core {
    Core(GO, [Done], Nothing, false, 0, [], depth, [])
  }

  /** `JSON_parser_done`. */
  predicate Finished(s: Core) {
    (s.state.OK? || s.state.GO?) && s.modes == [Done]
  }

  /** The text is accepted and the callback calls are exactly `es`. */
  predicate Accepts(depth: int, t: Text, es: seq<Event>) {
    var r := Run(Init(depth), t);
    r.Go? && Finished(r.core) && r.core.log == es
  }
}

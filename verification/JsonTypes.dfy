/**
 Vocabulary shared by the JSON modules: character classes, parser states and
 modes, callback events, and the tree of values of the json_spirit layer.

 Characters are `int`, as in `JSON_parser_char(jc, int next_char)`; what is
 stored in the text buffer is the character truncated to a byte.
 */
module JsonTypes {
  import opened Basics

  type Text = seq<int>

  const QUOTE := 34
  const BACKSLASH := 92
  const COMMA := 44
  const COLON := 58
  const LBRACE := 123
  const RBRACE := 125
  const LBRACKET := 91
  const RBRACKET := 93

  /** The columns of the transition table. */
  datatype Class =
    | Space | White | LCurb | RCurb | LSqrb | RSqrb | Colon | Comma | Quote | Backs | Slash
    | Plus | Minus | Point | Zero | Digit
    | LowA | LowB | LowC | LowD | LowE | LowF | LowL | LowN | LowR | LowS | LowT | LowU
    | Abcdf | UpE | Etc | Star

  /** `ascii_class`, extended to every non-negative character; None is the error class. */
  function ClassOf(c: int): Option<Class> {
    if c >= 128 then Some(Etc)
    else if c == 32 then Some(Space)
    else if c == 9 || c == 10 || c == 13 then Some(White)
    else if c < 32 then None
    else if c == 34 then Some(Quote)
    else if c == 42 then Some(Star)
    else if c == 43 then Some(Plus)
    else if c == 44 then Some(Comma)
    else if c == 45 then Some(Minus)
    else if c == 46 then Some(Point)
    else if c == 47 then Some(Slash)
    else if c == 48 then Some(Zero)
    else if 49 <= c <= 57 then Some(Digit)
    else if c == 58 then Some(Colon)
    else if c == 69 then Some(UpE)
    else if 65 <= c <= 70 then Some(Abcdf)
    else if c == 91 then Some(LSqrb)
    else if c == 92 then Some(Backs)
    else if c == 93 then Some(RSqrb)
    else if c == 97 then Some(LowA)
    else if c == 98 then Some(LowB)
    else if c == 99 then Some(LowC)
    else if c == 100 then Some(LowD)
    else if c == 101 then Some(LowE)
    else if c == 102 then Some(LowF)
    else if c == 108 then Some(LowL)
    else if c == 110 then Some(LowN)
    else if c == 114 then Some(LowR)
    else if c == 115 then Some(LowS)
    else if c == 116 then Some(LowT)
    else if c == 117 then Some(LowU)
    else if c == 123 then Some(LCurb)
    else if c == 125 then Some(RCurb)
    else Some(Etc)
  }

  /** The rows of the transition table that exist with comments switched off. */
  datatype State =
    | GO | OK | OB | KE | CO | VA | AR
    | ST | ES | U1 | U2 | U3 | U4 | D1 | D2
    | MI | ZE | IT | FR | FX | E1 | E2 | E3
    | T1 | T2 | T3 | F1 | F2 | F3 | F4 | N1 | N2 | N3

  datatype Mode = Done | Key | Array | Object

  /** `jc->type`: the kind of the value whose text is being collected. */
  datatype Pending = Nothing | IntegerType | FloatType | NullType | TrueType | FalseType | StringType

  /** The entries of the transition table: a new state, the error code, or an action. */
  datatype Code =
    | To(state: State)
    | Bad
    | Uc | Ex | Mx | Zx | Ix | De | Df | Sb | Nu | Fa | Tr | CommentBegin
    | EmptyObjectEnd | ObjectClose | ArrayClose | ObjectOpen | ArrayOpen | StringEnd | Separator | KeyEnd

  datatype Error =
    | NoError | InvalidChar | InvalidKeyword | InvalidEscape | InvalidUnicode | InvalidNumber
    | NestingDepth | Unbalanced | ExpectedKey | ExpectedColon

  /** The calls made to the parser callback. */
  datatype Event =
    | ArrayBegin | ArrayEnd | ObjectBegin | ObjectEnd
    | IntegerEvent(value: int)
    | FloatEvent(lexeme: Text)
    | NullEvent | TrueEvent | FalseEvent
    | StringEvent(str: Text)
    | KeyEvent(key: Text)

  /**
   A json_spirit::Value. An object is a vector of pairs, so keys keep their
   order and may repeat. `Real` keeps the text that strtod converts.
   */
  datatype Json =
    | Null
    | Bool(b: bool)
    | Int(i: int)
    | Real(lexeme: Text)
    | Str(s: Text)
    | Arr(items: seq<Json>)
    | Obj(members: seq<Pair>)
  datatype Pair = Pair(name: Text, value: Json)

  predicate IsWhite(c: int) { c == 32 || c == 9 || c == 10 || c == 13 }

  predicate AllWhite(t: Text) { forall i :: 0 <= i < |t| ==> IsWhite(t[i]) }

  predicate IsDigit(c: int) { 48 <= c <= 57 }

  predicate AllDigits(t: Text) { forall i :: 0 <= i < |t| ==> IsDigit(t[i]) }

  function Last<T>(s: seq<T>): T
    requires s != []
  {
    s[|s| - 1]
  }

  /** The string without its last element. */
  function Chop<T>(s: seq<T>): seq<T> {
    if s == [] then [] else s[..|s| - 1]
  }

  /** Used with Chop hidden: its slice of an appended empty sequence sends the solver round in circles. */
  lemma ChopSnoc<T>(s: seq<T>, x: T)
    ensures Chop(s + [x]) == s
  {
  }

  /** What sscanf and strtod read of the buffer: everything before the first white space. */
  function Lexeme(t: Text): Text {
    if t == [] || IsWhite(t[0]) then [] else [t[0]] + Lexeme(t[1..])
  }

  function DigitsValue(t: Text): int {
    if t == [] then 0 else 10 * DigitsValue(Chop(t)) + (Last(t) - 48)
  }

  /** The number `sscanf("%ld")` reads from an integer lexeme. */
  function ScanInteger(t: Text): int {
    if t != [] && t[0] == 45 then -DigitsValue(t[1..]) else DigitsValue(t)
  }

  /** The conversion of a long to the 32-bit int that `new_int` takes. */
  function Wrap32(v: int): (r: int)
    ensures -0x8000_0000 <= r < 0x8000_0000
    ensures -0x8000_0000 <= v < 0x8000_0000 ==> r == v
    ensures (r - v) % 0x1_0000_0000 == 0
  {
    (v + 0x8000_0000) % 0x1_0000_0000 - 0x8000_0000
  }
}

/**
 The language the parser is meant to accept, written as derivations: section 2
 of RFC 4627 (an object or an array at the top) with the number and string
 rules of sections 6 and 7 of RFC 8259, and two deviations of the code:
   - the digits after a decimal point may be missing (`1.` and `1.e5`);
   - a whole part `0` takes an exponent only after a decimal point (no `0e5`).
 A derivation gives the text it spells, the callback events it stands for (in
 pre-order) and the json_spirit tree it denotes.
 */
module JsonGrammar {
  import opened Basics
  import opened JsonTypes
  import Utf8

  /** One unit of a string: a plain character, `\n` and the like, `\uXXXX`, or a surrogate pair. */
  datatype Item = Raw(c: int) | Escape(c: int) | Unicode(digits: Text) | Surrogates(high: Text, low: Text)

  datatype Exponent = Exponent(letter: int, sign: Text, digits: Text)
  datatype Number = Number(negative: bool, whole: Text, fraction: Option<Text>, exponent: Option<Exponent>)

  datatype Value =
    | NullValue
    | TrueValue
    | FalseValue
    | NumberValue(number: Number)
    | StringValue(items: seq<Item>)
    | EmptyArray(gap: Text)
    | ArrayValue(elements: Elements)
    | EmptyObject(gap: Text)
    | ObjectValue(members: Members)

  /** The elements of a non-empty array, each with the white space around it. */
  datatype Elements = Elements(before: Text, value: Value, after: Text, rest: Option<Elements>)

  /** The members of a non-empty object, with white space before the key, around the colon and after the value. */
  datatype Members = Members(before: Text, key: seq<Item>, gap: Text, lead: Text, value: Value, after: Text,
                             rest: Option<Members>)

  datatype Document = Document(before: Text, value: Value, after: Text)

  // ---- Well-formed derivations ----

  predicate IsRaw(c: int) { c >= 32 && c != QUOTE && c != BACKSLASH }

  /** The characters that may follow a backslash, other than `u`. */
  predicate IsEscape(c: int) { c in {34, 92, 47, 98, 102, 110, 114, 116} }

  predicate FourHex(t: Text) { |t| == 4 && forall i :: 0 <= i < 4 ==> IsHex(t[i]) }

  function Unit(t: Text): int
    requires FourHex(t)
  {
    0x1000 * HexValue(t[0]) + 0x100 * HexValue(t[1]) + 0x10 * HexValue(t[2]) + HexValue(t[3])
  }

  predicate ItemOk(i: Item) {
    match i
    case Raw(c) => IsRaw(c)
    case Escape(c) => IsEscape(c)
    case Unicode(d) => FourHex(d) && Utf8.IsScalar(Unit(d))
    case Surrogates(h, l) => FourHex(h) && FourHex(l) && Utf8.IsHigh(Unit(h)) && Utf8.IsLow(Unit(l))
  }

  predicate ItemsOk(items: seq<Item>) { forall i :: 0 <= i < |items| ==> ItemOk(items[i]) }

  predicate ExponentOk(e: Exponent) {
    && (e.letter == 101 || e.letter == 69)
    && (e.sign == [] || e.sign == [43] || e.sign == [45])
    && e.digits != [] && AllDigits(e.digits)
  }

  predicate NumberOk(n: Number) {
    && n.whole != [] && AllDigits(n.whole)
    && (n.whole[0] == 48 ==> |n.whole| == 1)
    && (n.fraction.Some? ==> AllDigits(n.fraction.value))
    && (n.exponent.Some? ==> ExponentOk(n.exponent.value))
    && (n.exponent.Some? && n.fraction.None? ==> n.whole[0] != 48)
  }

  predicate ValueOk(v: Value) {
    match v
    case NumberValue(n) => NumberOk(n)
    case StringValue(items) => ItemsOk(items)
    case EmptyArray(gap) => AllWhite(gap)
    case EmptyObject(gap) => AllWhite(gap)
    case ArrayValue(e) => ElementsOk(e)
    case ObjectValue(m) => MembersOk(m)
    case _ => true
  }

  predicate ElementsOk(e: Elements) {
    AllWhite(e.before) && ValueOk(e.value) && AllWhite(e.after) && (e.rest.Some? ==> ElementsOk(e.rest.value))
  }

  predicate MembersOk(m: Members) {
    && AllWhite(m.before) && ItemsOk(m.key) && AllWhite(m.gap) && AllWhite(m.lead)
    && ValueOk(m.value) && AllWhite(m.after) && (m.rest.Some? ==> MembersOk(m.rest.value))
  }

  predicate IsContainer(v: Value) { v.EmptyArray? || v.ArrayValue? || v.EmptyObject? || v.ObjectValue? }

  predicate DocumentOk(d: Document) {
    AllWhite(d.before) && ValueOk(d.value) && IsContainer(d.value) && AllWhite(d.after)
  }

  // ---- Nesting ----

  function Depth(v: Value): nat {
    match v
    case EmptyArray(_) => 1
    case EmptyObject(_) => 1
    case ArrayValue(e) => 1 + ElementsDepth(e)
    case ObjectValue(m) => 1 + MembersDepth(m)
    case _ => 0
  }

  function ElementsDepth(e: Elements): nat {
    if e.rest.Some? then Max(Depth(e.value), ElementsDepth(e.rest.value)) else Depth(e.value)
  }

  function MembersDepth(m: Members): nat {
    if m.rest.Some? then Max(Depth(m.value), MembersDepth(m.rest.value)) else Depth(m.value)
  }

  // ---- The text of a derivation ----

  function ItemText(i: Item): Text {
    match i
    case Raw(c) => [c]
    case Escape(c) => [BACKSLASH, c]
    case Unicode(d) => [BACKSLASH, 117] + d
    case Surrogates(h, l) => [BACKSLASH, 117] + h + [BACKSLASH, 117] + l
  }

  function ItemsText(items: seq<Item>): Text {
    if items == [] then [] else ItemText(items[0]) + ItemsText(items[1..])
  }

  function StringText(items: seq<Item>): Text { [QUOTE] + ItemsText(items) + [QUOTE] }

  function ExponentText(e: Exponent): Text { [e.letter] + e.sign + e.digits }

  function WholeText(n: Number): Text { (if n.negative then [45] else []) + n.whole }

  function NumberText(n: Number): Text {
    WholeText(n)
    + (if n.fraction.Some? then [46] + n.fraction.value else [])
    + (if n.exponent.Some? then ExponentText(n.exponent.value) else [])
  }

  const NULL_TEXT: Text := [110, 117, 108, 108]
  const TRUE_TEXT: Text := [116, 114, 117, 101]
  const FALSE_TEXT: Text := [102, 97, 108, 115, 101]

  function ValueText(v: Value): Text {
    match v
    case NullValue => NULL_TEXT
    case TrueValue => TRUE_TEXT
    case FalseValue => FALSE_TEXT
    case NumberValue(n) => NumberText(n)
    case StringValue(items) => StringText(items)
    case EmptyArray(gap) => [LBRACKET] + gap + [RBRACKET]
    case EmptyObject(gap) => [LBRACE] + gap + [RBRACE]
    case ArrayValue(e) => [LBRACKET] + ElementsText(e) + [RBRACKET]
    case ObjectValue(m) => [LBRACE] + MembersText(m) + [RBRACE]
  }

  function ElementsText(e: Elements): Text {
    e.before + ValueText(e.value) + e.after
    + (if e.rest.Some? then [COMMA] + ElementsText(e.rest.value) else [])
  }

  function MembersText(m: Members): Text {
    m.before + StringText(m.key) + m.gap + [COLON] + m.lead + ValueText(m.value) + m.after
    + (if m.rest.Some? then [COMMA] + MembersText(m.rest.value) else [])
  }

  function DocumentText(d: Document): Text { d.before + ValueText(d.value) + d.after }

  // ---- The events and the tree of a derivation ----

  function ItemBytes(i: Item): Text
    requires ItemOk(i)
  {
    match i
    case Raw(c) => [c % 256]
    case Escape(c) =>
      if c == 98 then [8] else if c == 102 then [12] else if c == 110 then [10]
      else if c == 114 then [13] else if c == 116 then [9] else [c]
    case Unicode(d) => Utf8.Encode(Unit(d))
    case Surrogates(h, l) => Utf8.Encode(Utf8.Join(Unit(h), Unit(l)))
  }

  function ItemsBytes(items: seq<Item>): Text
    requires ItemsOk(items)
  {
    if items == [] then [] else ItemBytes(items[0]) + ItemsBytes(items[1..])
  }

  predicate IsReal(n: Number) { n.fraction.Some? || n.exponent.Some? }

  function NumberEvent(n: Number): Event {
    if IsReal(n) then FloatEvent(NumberText(n)) else IntegerEvent(ScanInteger(NumberText(n)))
  }

  function ValueEvents(v: Value): seq<Event>
    requires ValueOk(v)
  {
    match v
    case NullValue => [NullEvent]
    case TrueValue => [TrueEvent]
    case FalseValue => [FalseEvent]
    case NumberValue(n) => [NumberEvent(n)]
    case StringValue(items) => [StringEvent(ItemsBytes(items))]
    case EmptyArray(_) => [ArrayBegin, ArrayEnd]
    case EmptyObject(_) => [ObjectBegin, ObjectEnd]
    case ArrayValue(e) => [ArrayBegin] + ElementsEvents(e) + [ArrayEnd]
    case ObjectValue(m) => [ObjectBegin] + MembersEvents(m) + [ObjectEnd]
  }

  function ElementsEvents(e: Elements): seq<Event>
    requires ElementsOk(e)
  {
    ValueEvents(e.value) + (if e.rest.Some? then ElementsEvents(e.rest.value) else [])
  }

  function MembersEvents(m: Members): seq<Event>
    requires MembersOk(m)
  {
    [KeyEvent(ItemsBytes(m.key))] + ValueEvents(m.value)
    + (if m.rest.Some? then MembersEvents(m.rest.value) else [])
  }

  function Tree(v: Value): Json
    requires ValueOk(v)
  {
    match v
    case NullValue => Null
    case TrueValue => Bool(true)
    case FalseValue => Bool(false)
    case NumberValue(n) => if IsReal(n) then Real(NumberText(n)) else Int(Wrap32(ScanInteger(NumberText(n))))
    case StringValue(items) => Str(ItemsBytes(items))
    case EmptyArray(_) => Arr([])
    case EmptyObject(_) => Obj([])
    case ArrayValue(e) => Arr(ElementsTrees(e))
    case ObjectValue(m) => Obj(MembersPairs(m))
  }

  function ElementsTrees(e: Elements): seq<Json>
    requires ElementsOk(e)
  {
    [Tree(e.value)] + (if e.rest.Some? then ElementsTrees(e.rest.value) else [])
  }

  function MembersPairs(m: Members): seq<Pair>
    requires MembersOk(m)
  {
    [Pair(ItemsBytes(m.key), Tree(m.value))] + (if m.rest.Some? then MembersPairs(m.rest.value) else [])
  }

  /** `t` is generated by the grammar within the nesting limit, and stands for the events `es`. */
  ghost predicate Generated(depth: int, t: Text, es: seq<Event>) {
    exists d: Document ::
      DocumentOk(d) && Depth(d.value) <= depth && DocumentText(d) == t && ValueEvents(d.value) == es
  }
}

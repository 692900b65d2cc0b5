/**
 The text that Json/json_spirit_writer.cpp prints for a tree, compact or
 pretty, and the derivation that spells it when no string needs escaping.
 */
module JsonPrint {
  import opened Basics
  import opened JsonTypes
  import opened JsonGrammar

  const FOUR_SPACES: Text := [32, 32, 32, 32]

  /** `indent`. */
  function Indent(pretty: bool, level: nat): Text {
    if pretty && level > 0 then FOUR_SPACES + Indent(pretty, level - 1) else []
  }

  /** `new_line`. */
  function NewLine(pretty: bool): Text { if pretty then [10] else [] }

  /** `space`. */
  function Gap(pretty: bool): Text { if pretty then [32] else [] }

  function NatText(n: nat): Text {
    if n < 10 then [48 + n] else NatText(n / 10) + [48 + n % 10]
  }

  /** `os_ << int`. */
  function IntText(i: int): Text { if i < 0 then [45] + NatText(-i) else NatText(i) }

  /** `output(const string&)`: the string between quotes, with nothing escaped. */
  function QuotedText(s: Text): Text { [QUOTE] + s + [QUOTE] }

  /** Real values are printed by the stream with its default precision; their text is not part of this model. */
  predicate NoReals(v: Json) {
    match v
    case Real(_) => false
    case Arr(items) => forall i :: 0 <= i < |items| ==> NoReals(items[i])
    case Obj(members) => forall i :: 0 <= i < |members| ==> NoRealsIn(members[i])
    case _ => true
  }

  predicate NoRealsIn(p: Pair) { NoReals(p.value) }

  /** `output(const Value&)` at an indentation level. */
  function Print(v: Json, pretty: bool, level: nat): Text
    requires NoReals(v)
    decreases v, 0
  {
    match v
    case Null => NULL_TEXT
    case Bool(b) => if b then TRUE_TEXT else FALSE_TEXT
    case Int(i) => IntText(i)
    case Str(s) => QuotedText(s)
    case Arr(items) =>
      [LBRACKET] + NewLine(pretty) + PrintItems(items, pretty, level + 1) + Indent(pretty, level) + [RBRACKET]
    case Obj(members) =>
      [LBRACE] + NewLine(pretty) + PrintMembers(members, pretty, level + 1) + Indent(pretty, level) + [RBRACE]
  }

  /** The loop of `output_array_or_obj`. */
  function PrintItems(items: seq<Json>, pretty: bool, level: nat): Text
    requires forall i :: 0 <= i < |items| ==> NoReals(items[i])
    decreases items, 1
  {
    if items == [] then []
    else
      Indent(pretty, level) + Print(items[0], pretty, level) + (if |items| > 1 then [COMMA] else [])
      + NewLine(pretty) + PrintItems(items[1..], pretty, level)
  }

  function PrintMembers(members: seq<Pair>, pretty: bool, level: nat): Text
    requires forall i :: 0 <= i < |members| ==> NoRealsIn(members[i])
    decreases members, 1
  {
    if members == [] then []
    else
      Indent(pretty, level) + PrintPair(members[0], pretty, level) + (if |members| > 1 then [COMMA] else [])
      + NewLine(pretty) + PrintMembers(members[1..], pretty, level)
  }

  /** `output(const Pair&)`. */
  function PrintPair(p: Pair, pretty: bool, level: nat): Text
    requires NoRealsIn(p)
    decreases p, 1
  {
    QuotedText(p.name) + Gap(pretty) + [COLON] + Gap(pretty) + Print(p.value, pretty, level)
  }

  // ---- Trees ----

  predicate IsByte(c: int) { 0 <= c < 256 }

  predicate AllBytes(t: Text) { forall i :: 0 <= i < |t| ==> IsByte(t[i]) }

  /** What a json_spirit tree can hold: strings of bytes and 32-bit integers. */
  predicate Storable(v: Json) {
    match v
    case Int(i) => -0x8000_0000 <= i < 0x8000_0000
    case Str(s) => AllBytes(s)
    case Arr(items) => forall i :: 0 <= i < |items| ==> Storable(items[i])
    case Obj(members) => forall i :: 0 <= i < |members| ==> StorablePair(members[i])
    case _ => true
  }

  predicate StorablePair(p: Pair) { AllBytes(p.name) && Storable(p.value) }

  /** A string that means itself between quotes. */
  predicate PlainText(s: Text) { forall i :: 0 <= i < |s| ==> IsRaw(s[i]) }

  /** No key and no string of the tree contains a control character, a quote or a backslash. */
  predicate Plain(v: Json) {
    match v
    case Str(s) => PlainText(s)
    case Arr(items) => forall i :: 0 <= i < |items| ==> Plain(items[i])
    case Obj(members) => forall i :: 0 <= i < |members| ==> PlainPair(members[i])
    case _ => true
  }

  predicate PlainPair(p: Pair) { PlainText(p.name) && Plain(p.value) }

  /** How many containers lie on the longest path. */
  function Height(v: Json): nat {
    match v
    case Arr(items) => 1 + ItemsHeight(items)
    case Obj(members) => 1 + MembersHeight(members)
    case _ => 0
  }

  function ItemsHeight(items: seq<Json>): nat {
    if items == [] then 0 else Max(Height(items[0]), ItemsHeight(items[1..]))
  }

  function MembersHeight(members: seq<Pair>): nat {
    if members == [] then 0 else Max(PairHeight(members[0]), MembersHeight(members[1..]))
  }

  function PairHeight(p: Pair): nat { Height(p.value) }

  // ---- The derivation of a printed tree ----

  function RawItems(s: Text): seq<Item> { seq(|s|, i requires 0 <= i < |s| => Raw(s[i])) }

  function Derive(v: Json, pretty: bool, level: nat): Value
    requires NoReals(v)
    decreases v, 0
  {
    match v
    case Null => NullValue
    case Bool(b) => if b then TrueValue else FalseValue
    case Int(i) => NumberValue(Number(i < 0, NatText(if i < 0 then -i else i), None, None))
    case Str(s) => StringValue(RawItems(s))
    case Arr(items) =>
      if items == [] then EmptyArray(NewLine(pretty) + Indent(pretty, level))
      else ArrayValue(DeriveItems(items, pretty, level))
    case Obj(members) =>
      if members == [] then EmptyObject(NewLine(pretty) + Indent(pretty, level))
      else ObjectValue(DeriveMembers(members, pretty, level))
  }

  function DeriveItems(items: seq<Json>, pretty: bool, level: nat): Elements
    requires items != [] && forall i :: 0 <= i < |items| ==> NoReals(items[i])
    decreases items, 1
  {
    var before := NewLine(pretty) + Indent(pretty, level + 1);
    if |items| == 1 then
      Elements(before, Derive(items[0], pretty, level + 1), NewLine(pretty) + Indent(pretty, level), None)
    else
      Elements(before, Derive(items[0], pretty, level + 1), [], Some(DeriveItems(items[1..], pretty, level)))
  }

  function DeriveMembers(members: seq<Pair>, pretty: bool, level: nat): Members
    requires members != [] && forall i :: 0 <= i < |members| ==> NoRealsIn(members[i])
    decreases members, 1
  {
    var before := NewLine(pretty) + Indent(pretty, level + 1);
    var key := RawItems(members[0].name);
    assert NoRealsIn(members[0]) && members[0].value < members[0];
    var value := Derive(members[0].value, pretty, level + 1);
    if |members| == 1 then
      Members(before, key, Gap(pretty), Gap(pretty), value, NewLine(pretty) + Indent(pretty, level), None)
    else
      Members(before, key, Gap(pretty), Gap(pretty), value, [], Some(DeriveMembers(members[1..], pretty, level)))
  }

  // ---- Small facts about the pieces ----

  lemma {:induction false} IndentWhite(pretty: bool, level: nat)
    ensures AllWhite(Indent(pretty, level))
  {
    if pretty && level > 0 {
      IndentWhite(pretty, level - 1);
    }
  }

  lemma LayoutWhite(pretty: bool, level: nat)
    ensures AllWhite(NewLine(pretty)) && AllWhite(Gap(pretty)) && AllWhite(Indent(pretty, level))
    ensures AllWhite(NewLine(pretty) + Indent(pretty, level))
  {
    IndentWhite(pretty, level);
  }

  lemma {:induction false} NatTextOk(n: nat)
    ensures NatText(n) != [] && AllDigits(NatText(n)) && DigitsValue(NatText(n)) == n
    ensures NatText(n)[0] == 48 ==> n == 0
    decreases n
  {
    if n >= 10 {
      NatTextOk(n / 10);
      assert Chop(NatText(n)) == NatText(n / 10);
    }
  }

  lemma {:induction false} NatTextZero(n: nat)
    ensures NatText(n) != [] && (NatText(n)[0] == 48 ==> |NatText(n)| == 1)
  {
    NatTextOk(n);
  }

  /** Printing an integer and scanning it gives the integer back. */
  lemma IntRoundTrip(i: int)
    ensures ScanInteger(IntText(i)) == i
  {
    var n := if i < 0 then -i else i;
    NatTextOk(n);
    if i < 0 {
      assert IntText(i)[1..] == NatText(n);
    }
  }

  lemma {:induction false} RawItemsText(s: Text)
    ensures ItemsText(RawItems(s)) == s
    decreases |s|
  {
    if s != [] {
      assert RawItems(s)[1..] == RawItems(s[1..]);
      RawItemsText(s[1..]);
    }
  }

  lemma {:induction false} RawItemsBytes(s: Text)
    requires PlainText(s) && AllBytes(s)
    ensures ItemsOk(RawItems(s)) && ItemsBytes(RawItems(s)) == s
    decreases |s|
  {
    if s != [] {
      assert RawItems(s)[1..] == RawItems(s[1..]);
      RawItemsBytes(s[1..]);
    }
  }

  // ---- The derivation spells the printed text ----

  lemma {:induction false} DeriveText(v: Json, pretty: bool, level: nat)
    requires NoReals(v)
    ensures ValueText(Derive(v, pretty, level)) == Print(v, pretty, level)
    decreases v, 0
  {
    if v.Arr? && v.items != [] {
      DeriveItemsText(v.items, pretty, level);
      hide Print, ValueText;
      DeriveArrayText(v, pretty, level);
    } else if v.Obj? && v.members != [] {
      DeriveMembersText(v.members, pretty, level);
      hide Print, ValueText;
      DeriveObjectText(v, pretty, level);
    } else {
      hide Print, ValueText;
      DeriveLeafText(v, pretty, level);
    }
  }

  lemma DeriveArrayText(v: Json, pretty: bool, level: nat)
    requires NoReals(v) && v.Arr? && v.items != []
    requires ElementsText(DeriveItems(v.items, pretty, level))
          == NewLine(pretty) + PrintItems(v.items, pretty, level + 1) + Indent(pretty, level)
    ensures ValueText(Derive(v, pretty, level)) == Print(v, pretty, level)
  {
    hide ElementsText, DeriveItems, PrintItems, Indent, NewLine;
    var inner := NewLine(pretty) + PrintItems(v.items, pretty, level + 1) + Indent(pretty, level);
    assert Print(v, pretty, level) == [LBRACKET] + inner + [RBRACKET];
  }

  lemma DeriveObjectText(v: Json, pretty: bool, level: nat)
    requires NoReals(v) && v.Obj? && v.members != []
    requires MembersText(DeriveMembers(v.members, pretty, level))
          == NewLine(pretty) + PrintMembers(v.members, pretty, level + 1) + Indent(pretty, level)
    ensures ValueText(Derive(v, pretty, level)) == Print(v, pretty, level)
  {
    hide MembersText, DeriveMembers, PrintMembers, Indent, NewLine;
    var inner := NewLine(pretty) + PrintMembers(v.members, pretty, level + 1) + Indent(pretty, level);
    assert Print(v, pretty, level) == [LBRACE] + inner + [RBRACE];
  }

  lemma DeriveLeafText(v: Json, pretty: bool, level: nat)
    requires NoReals(v) && (v.Arr? ==> v.items == []) && (v.Obj? ==> v.members == [])
    ensures ValueText(Derive(v, pretty, level)) == Print(v, pretty, level)
  {
    hide Indent;
    match v
    case Str(s) => RawItemsText(s);
    case Int(i) => hide NatText; assert NumberText(Derive(v, pretty, level).number) == IntText(i);
    case Arr(items) =>
      assert [LBRACKET] + NewLine(pretty) + PrintItems(items, pretty, level + 1) == [LBRACKET] + NewLine(pretty);
    case Obj(members) =>
      assert [LBRACE] + NewLine(pretty) + PrintMembers(members, pretty, level + 1) == [LBRACE] + NewLine(pretty);
    case _ =>
  }

  /** How one element and the rest of the list are laid out, in the printer and in the derivation. */
  lemma Layout(before: Text, first: Text, n: Text, rest: Text, close: Text, indent: Text)
    requires before == n + indent
    ensures before + first + [] + ([COMMA] + (n + rest + close)) == n + (indent + first + [COMMA] + n + rest) + close
    ensures before + first + (n + close) + [] == n + (indent + first + [] + n + []) + close
  {
  }

  lemma PairLayout(before: Text, key: Text, sp: Text, body: Text)
    ensures before + key + sp + [COLON] + sp + body == before + (key + sp + [COLON] + sp + body)
  {
  }

  lemma {:induction false} DeriveItemsText(items: seq<Json>, pretty: bool, level: nat)
    requires items != [] && forall i :: 0 <= i < |items| ==> NoReals(items[i])
    ensures ElementsText(DeriveItems(items, pretty, level))
         == NewLine(pretty) + PrintItems(items, pretty, level + 1) + Indent(pretty, level)
    decreases items, 1
  {
    DeriveText(items[0], pretty, level + 1);
    hide Print, ValueText, Derive, NewLine, Indent, NoReals;
    var n, close, indent := NewLine(pretty), Indent(pretty, level), Indent(pretty, level + 1);
    var first := Print(items[0], pretty, level + 1);
    if |items| == 1 {
      assert PrintItems(items[1..], pretty, level + 1) == [];
      Layout(n + indent, first, n, [], close, indent);
    } else {
      DeriveItemsText(items[1..], pretty, level);
      Layout(n + indent, first, n, PrintItems(items[1..], pretty, level + 1), close, indent);
    }
  }

  lemma {:induction false} DeriveMembersText(members: seq<Pair>, pretty: bool, level: nat)
    requires members != [] && forall i :: 0 <= i < |members| ==> NoRealsIn(members[i])
    ensures MembersText(DeriveMembers(members, pretty, level))
         == NewLine(pretty) + PrintMembers(members, pretty, level + 1) + Indent(pretty, level)
    decreases members, 1
  {
    var p := members[0];
    assert NoRealsIn(p) && p.value < p;
    DeriveText(p.value, pretty, level + 1);
    RawItemsText(p.name);
    hide Print, ValueText, Derive, ItemsText, NewLine, Indent, RawItems, NoReals, Gap;
    var n, close, indent := NewLine(pretty), Indent(pretty, level), Indent(pretty, level + 1);
    var first := PrintPair(p, pretty, level + 1);
    var body := Print(p.value, pretty, level + 1);
    var sp := Gap(pretty);
    PairLayout(n + indent, QuotedText(p.name), sp, body);
    if |members| == 1 {
      assert PrintMembers(members[1..], pretty, level + 1) == [];
      Layout(n + indent, first, n, [], close, indent);
      assert MembersText(DeriveMembers(members, pretty, level)) == n + indent + first + (n + close) + [];
    } else {
      DeriveMembersText(members[1..], pretty, level);
      Layout(n + indent, first, n, PrintMembers(members[1..], pretty, level + 1), close, indent);
      hide PrintMembers, PrintPair, QuotedText;
      assert MembersText(DeriveMembers(members, pretty, level))
          == n + indent + first + [] + ([COMMA] + MembersText(DeriveMembers(members[1..], pretty, level)));
    }
  }

  // ---- The derivation of a plain tree is well formed and denotes the tree ----

  lemma {:induction false} DeriveTree(v: Json, pretty: bool, level: nat)
    requires NoReals(v) && Storable(v) && Plain(v)
    ensures var d := Derive(v, pretty, level); ValueOk(d) && Tree(d) == v && Depth(d) == Height(v)
    decreases v, 0
  {
    if v.Arr? && v.items != [] {
      DeriveItemsTrees(v.items, pretty, level);
      hide DeriveItems, ElementsOk, ElementsTrees, ElementsDepth, ItemsHeight;
    } else if v.Obj? && v.members != [] {
      DeriveMembersPairs(v.members, pretty, level);
      hide DeriveMembers, MembersOk, MembersPairs, MembersDepth, MembersHeight;
    } else {
      DeriveLeaf(v, pretty, level);
    }
  }

  lemma DeriveLeaf(v: Json, pretty: bool, level: nat)
    requires NoReals(v) && Storable(v) && Plain(v) && (v.Arr? ==> v.items == []) && (v.Obj? ==> v.members == [])
    ensures var d := Derive(v, pretty, level); ValueOk(d) && Tree(d) == v && Depth(d) == Height(v)
  {
    match v
    case Int(i) => DeriveInt(i, pretty, level);
    case Str(s) => RawItemsBytes(s);
    case Arr(_) => LayoutWhite(pretty, level);
    case Obj(_) => LayoutWhite(pretty, level);
    case _ =>
  }

  lemma DeriveInt(i: int, pretty: bool, level: nat)
    requires Storable(Int(i))
    ensures var d := Derive(Int(i), pretty, level); ValueOk(d) && Tree(d) == Int(i) && Depth(d) == Height(Int(i))
  {
    IntNumber(i);
    hide NatText, ScanInteger, NumberOk, NumberText, IsReal, Wrap32;
  }

  lemma IntNumber(i: int)
    requires -0x8000_0000 <= i < 0x8000_0000
    ensures var n := Number(i < 0, NatText(if i < 0 then -i else i), None, None);
            NumberOk(n) && !IsReal(n) && Wrap32(ScanInteger(NumberText(n))) == i
  {
    var n := Number(i < 0, NatText(if i < 0 then -i else i), None, None);
    NatTextZero(if i < 0 then -i else i);
    NatTextOk(if i < 0 then -i else i);
    IntRoundTrip(i);
    hide NatText, ScanInteger;
    assert NumberText(n) == IntText(i);
  }

  lemma {:induction false} DeriveItemsTrees(items: seq<Json>, pretty: bool, level: nat)
    requires items != []
    requires forall i :: 0 <= i < |items| ==> NoReals(items[i]) && Storable(items[i]) && Plain(items[i])
    ensures var d := DeriveItems(items, pretty, level);
            ElementsOk(d) && ElementsTrees(d) == items && ElementsDepth(d) == ItemsHeight(items)
    decreases items, 1
  {
    DeriveTree(items[0], pretty, level + 1);
    LayoutWhite(pretty, level);
    LayoutWhite(pretty, level + 1);
    hide Derive, Tree, ValueOk, AllWhite;
    assert AllWhite([]) by { NothingWhite(); }
    if |items| == 1 {
      assert items == [items[0]];
      assert ItemsHeight(items[1..]) == 0;
    } else {
      DeriveItemsTrees(items[1..], pretty, level);
      assert items == [items[0]] + items[1..];
    }
  }

  lemma NothingWhite()
    ensures AllWhite([])
  {
  }

  lemma {:induction false} DeriveMembersPairs(members: seq<Pair>, pretty: bool, level: nat)
    requires members != []
    requires forall i :: 0 <= i < |members| ==>
               NoRealsIn(members[i]) && StorablePair(members[i]) && PlainPair(members[i])
    ensures var d := DeriveMembers(members, pretty, level);
            MembersOk(d) && MembersPairs(d) == members && MembersDepth(d) == MembersHeight(members)
    decreases members, 1
  {
    var p := members[0];
    assert p.value < p;
    DeriveTree(p.value, pretty, level + 1);
    RawItemsBytes(p.name);
    LayoutWhite(pretty, level);
    LayoutWhite(pretty, level + 1);
    hide Derive, Tree, ValueOk, AllWhite, ItemsOk, ItemsBytes;
    assert AllWhite([]) by { NothingWhite(); }
    if |members| == 1 {
      assert members == [p];
      assert MembersHeight(members[1..]) == 0;
    } else {
      DeriveMembersPairs(members[1..], pretty, level);
      assert members == [p] + members[1..];
    }
  }
}

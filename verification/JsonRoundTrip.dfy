/**
 `json_spirit::read` as a function of the text, and the law that joins it to
 the printer: a printed tree reads back as itself exactly when it is an object
 or an array, nested at most 127 deep, whose strings need no escaping.
 */
module JsonRoundTrip {
  import opened Basics
  import opened JsonTypes
  import opened JsonMachine
  import opened JsonGrammar
  import opened JsonBuild
  import opened JsonPrint
  import JsonSound
  import JsonTheorems
  import Utf8

  /** The default nesting limit of `init_JSON_config`. */
  const MAX_DEPTH := 127

  /** Untouched: the text is blank, `read` reports success and leaves the value as it was. */
  datatype ReadResult = Refused | Untouched | Built(value: Json)

  /** The loop of `read` stops at the first character that is not positive. */
  function UpToNul(t: Text): (u: Text)
    ensures u <= t && (forall i :: 0 <= i < |u| ==> u[i] > 0) && (|u| < |t| ==> t[|u|] <= 0)
  {
    if t == [] || t[0] <= 0 then [] else [t[0]] + UpToNul(t[1..])
  }

  function Result(r: Outcome): ReadResult {
    if r.Halt? || !Finished(r.core) then Refused
    else
      match Build(EMPTY_BUILDER, r.core.log)
      case None => Refused
      case Some(b) => if b.root.None? then Untouched else Built(b.root.value)
  }

  function Read(t: Text): ReadResult { Result(Run(Init(MAX_DEPTH), UpToNul(t))) }

  /** Reading a text of the grammar gives the tree of its derivation. */
  lemma ReadDocument(t: Text, d: Document)
    requires DocumentOk(d) && Depth(d.value) <= MAX_DEPTH && DocumentText(d) == UpToNul(t)
    ensures Read(t) == Built(Tree(d.value))
  {
    JsonSound.DocumentAccepted(d, MAX_DEPTH);
    DocumentBuilds(d);
  }

  /** Whatever is read is the tree of a derivation of the text. */
  lemma ReadInverts(t: Text) returns (d: Document)
    requires Read(t).Built?
    ensures DocumentOk(d) && Depth(d.value) <= MAX_DEPTH && DocumentText(d) == UpToNul(t)
          && Tree(d.value) == Read(t).value
    ensures ValueEvents(d.value) == Run(Init(MAX_DEPTH), UpToNul(t)).core.log
  {
    hide Step, Depth, ValueText, ValueEvents, Tree;
    var es := Run(Init(MAX_DEPTH), UpToNul(t)).core.log;
    JsonTheorems.AcceptsExactly(MAX_DEPTH, UpToNul(t), es);
    assert es != [] by {
      assert Build(EMPTY_BUILDER, []) == Some(EMPTY_BUILDER);
    }
    d :| DocumentOk(d) && Depth(d.value) <= MAX_DEPTH && DocumentText(d) == UpToNul(t) && ValueEvents(d.value) == es;
    DocumentBuilds(d);
  }

  // ---- Counting backslashes and u's ----

  function Weigh(c: int): nat { if c == 92 || c == 117 then 1 else 0 }

  function Weight(t: Text): nat { if t == [] then 0 else Weigh(t[0]) + Weight(t[1..]) }

  lemma {:induction false} WeightConcat(a: Text, b: Text)
    ensures Weight(a + b) == Weight(a) + Weight(b)
    decreases |a|
  {
    if a == [] {
      assert a + b == b;
    } else {
      assert (a + b)[0] == a[0] && (a + b)[1..] == a[1..] + b;
      WeightConcat(a[1..], b);
    }
  }

  lemma {:induction false} Weightless(t: Text)
    requires forall i :: 0 <= i < |t| ==> Weigh(t[i]) == 0
    ensures Weight(t) == 0
    decreases |t|
  {
    if t != [] {
      Weightless(t[1..]);
    }
  }

  lemma {:induction false} PrefixWeight(t: Text)
    ensures Weight(UpToNul(t)) <= Weight(t)
    decreases |t|
  {
    if t != [] && t[0] > 0 {
      PrefixWeight(t[1..]);
      assert UpToNul(t)[1..] == UpToNul(t[1..]);
    }
  }

  lemma {:induction false} PrefixBytes(t: Text)
    requires AllBytes(t)
    ensures AllBytes(UpToNul(t))
    decreases |t|
  {
    if t != [] && t[0] > 0 {
      PrefixBytes(t[1..]);
    }
  }

  lemma BytesConcat(a: Text, b: Text)
    ensures AllBytes(a + b) <==> AllBytes(a) && AllBytes(b)
  {
    if AllBytes(a + b) {
      assert forall i :: 0 <= i < |a| ==> (a + b)[i] == a[i];
      assert forall i :: 0 <= i < |b| ==> (a + b)[|a| + i] == b[i];
    }
  }

  // ---- Every escape weighs more than what it stands for ----

  function ItemsEscapes(items: seq<Item>): nat {
    if items == [] then 0 else (if items[0].Raw? then 0 else 1) + ItemsEscapes(items[1..])
  }

  function Escapes(v: Value): nat {
    match v
    case StringValue(items) => ItemsEscapes(items)
    case ArrayValue(e) => ElementsEscapes(e)
    case ObjectValue(m) => MembersEscapes(m)
    case _ => 0
  }

  function ElementsEscapes(e: Elements): nat {
    Escapes(e.value) + (if e.rest.Some? then ElementsEscapes(e.rest.value) else 0)
  }

  function MembersEscapes(m: Members): nat {
    ItemsEscapes(m.key) + Escapes(m.value) + (if m.rest.Some? then MembersEscapes(m.rest.value) else 0)
  }

  lemma EncodedWeight(u: int)
    requires Utf8.IsScalar(u)
    ensures Weight(Utf8.Encode(u)) <= 1
  {
    var b := Utf8.Encode(u);
    if u >= 0x80 {
      Weightless(b);
    } else {
      assert b[1..] == [];
    }
  }

  lemma JoinedScalar(h: int, l: int)
    requires Utf8.IsHigh(h) && Utf8.IsLow(l)
    ensures Utf8.IsScalar(Utf8.Join(h, l)) && Utf8.Join(h, l) >= 0x10000
  {
  }

  lemma ItemWeight(i: Item)
    requires ItemOk(i) && AllBytes(ItemText(i))
    ensures Weight(ItemText(i)) >= Weight(ItemBytes(i)) + (if i.Raw? then 0 else 1)
  {
    match i
    case Raw(c) => assert ItemText(i)[0] == c;
    case Escape(c) =>
      assert ItemText(i)[1..] == [c];
      assert ItemBytes(i)[1..] == [] && [c][1..] == [];
    case Unicode(d) =>
      EncodedWeight(Unit(d));
      WeightConcat([BACKSLASH, 117], d);
      assert [BACKSLASH, 117][1..] == [117] && [117][1..] == [];
    case Surrogates(h, l) =>
      JoinedScalar(Unit(h), Unit(l));
      EncodedWeight(Utf8.Join(Unit(h), Unit(l)));
      assert ItemText(i) == [BACKSLASH, 117] + (h + [BACKSLASH, 117] + l);
      WeightConcat([BACKSLASH, 117], h + [BACKSLASH, 117] + l);
      assert [BACKSLASH, 117][1..] == [117] && [117][1..] == [];
  }

  lemma {:induction false} ItemsWeight(items: seq<Item>)
    requires ItemsOk(items) && AllBytes(ItemsText(items))
    ensures Weight(ItemsText(items)) >= Weight(ItemsBytes(items)) + ItemsEscapes(items)
    decreases |items|
  {
    if items != [] {
      BytesConcat(ItemText(items[0]), ItemsText(items[1..]));
      ItemWeight(items[0]);
      ItemsWeight(items[1..]);
      WeightConcat(ItemText(items[0]), ItemsText(items[1..]));
      WeightConcat(ItemBytes(items[0]), ItemsBytes(items[1..]));
    }
  }

  lemma QuotedWeight(items: seq<Item>)
    requires ItemsOk(items) && AllBytes(StringText(items))
    ensures Weight(StringText(items)) >= Weight(QuotedText(ItemsBytes(items))) + ItemsEscapes(items)
  {
    BytesConcat([QUOTE] + ItemsText(items), [QUOTE]);
    BytesConcat([QUOTE], ItemsText(items));
    ItemsWeight(items);
    Weightless([QUOTE]);
    WeightConcat([QUOTE] + ItemsText(items), [QUOTE]);
    WeightConcat([QUOTE], ItemsText(items));
    WeightConcat([QUOTE] + ItemsBytes(items), [QUOTE]);
    WeightConcat([QUOTE], ItemsBytes(items));
  }

  lemma {:induction false} NatWeight(n: nat)
    ensures Weight(NatText(n)) == 0
    decreases n
  {
    if n >= 10 {
      NatWeight(n / 10);
      Weightless([48 + n % 10]);
      WeightConcat(NatText(n / 10), [48 + n % 10]);
    } else {
      Weightless(NatText(n));
    }
  }

  lemma IntWeight(i: int)
    ensures Weight(IntText(i)) == 0
  {
    NatWeight(if i < 0 then -i else i);
    Weightless([45]);
    WeightConcat([45], NatText(if i < 0 then -i else i));
  }

  lemma WhiteWeight(w: Text)
    requires AllWhite(w)
    ensures Weight(w) == 0
  {
    Weightless(w);
  }

  lemma LayoutWeight(pretty: bool, level: nat)
    ensures Weight(NewLine(pretty)) == 0 && Weight(Gap(pretty)) == 0 && Weight(Indent(pretty, level)) == 0
  {
    LayoutWhite(pretty, level);
    WhiteWeight(NewLine(pretty));
    WhiteWeight(Gap(pretty));
    WhiteWeight(Indent(pretty, level));
  }

  /** The weight of a bracketed text is that of its parts that weigh anything. */
  lemma FourWeights(a: Text, b: Text, c: Text, d: Text)
    ensures Weight(a + b + c + d) == Weight(a) + Weight(b) + Weight(c) + Weight(d)
  {
    WeightConcat(a + b + c, d);
    WeightConcat(a + b, c);
    WeightConcat(a, b);
  }

  // ---- A derivation against the print of its own tree ----

  lemma {:induction false} ValueWeight(v: Value, pretty: bool, level: nat)
    requires ValueOk(v) && AllBytes(ValueText(v)) && NoReals(Tree(v))
    ensures Weight(ValueText(v)) >= Weight(Print(Tree(v), pretty, level)) + Escapes(v)
    decreases v, 1
  {
    if IsContainer(v) {
      ContainerWeight(v, pretty, level);
    } else {
      match v
      case NumberValue(n) => IntWeight(Tree(v).i);
      case StringValue(items) => QuotedWeight(items);
      case _ =>
    }
  }

  lemma {:induction false} ContainerWeight(v: Value, pretty: bool, level: nat)
    requires ValueOk(v) && IsContainer(v) && AllBytes(ValueText(v)) && NoReals(Tree(v))
    ensures Weight(ValueText(v)) >= Weight(Print(Tree(v), pretty, level)) + Escapes(v)
    decreases v, 0
  {
    var open, close := ValueText(v)[0], Last(ValueText(v));
    var inner := if v.ArrayValue? then ElementsText(v.elements)
                 else if v.ObjectValue? then MembersText(v.members)
                 else v.gap;
    assert ValueText(v) == [open] + inner + [close];
    BytesConcat([open] + inner, [close]);
    BytesConcat([open], inner);
    var body: Text;
    if v.ArrayValue? {
      ElementsWeight(v.elements, pretty, level + 1);
      body := PrintItems(ElementsTrees(v.elements), pretty, level + 1);
    } else if v.ObjectValue? {
      MembersWeight(v.members, pretty, level + 1);
      body := PrintMembers(MembersPairs(v.members), pretty, level + 1);
    } else {
      WhiteWeight(v.gap);
      body := [];
    }
    hide ElementsText, MembersText, PrintItems, PrintMembers, Tree, ElementsOk, MembersOk;
    LayoutWeight(pretty, level);
    var shown := Print(Tree(v), pretty, level);
    assert shown == [open] + NewLine(pretty) + body + Indent(pretty, level) + [close] by {
      PrintContainer(v, pretty, level, body);
    }
    hide Print;
    WeightConcat([open] + NewLine(pretty) + body + Indent(pretty, level), [close]);
    FourWeights([open], NewLine(pretty), body, Indent(pretty, level));
    WeightConcat([open] + inner, [close]);
    WeightConcat([open], inner);
  }

  lemma PrintContainer(v: Value, pretty: bool, level: nat, body: Text)
    requires ValueOk(v) && IsContainer(v) && NoReals(Tree(v))
    requires body == if v.ArrayValue? then PrintItems(ElementsTrees(v.elements), pretty, level + 1)
                     else if v.ObjectValue? then PrintMembers(MembersPairs(v.members), pretty, level + 1) else []
    ensures Print(Tree(v), pretty, level)
         == [ValueText(v)[0]] + NewLine(pretty) + body + Indent(pretty, level) + [Last(ValueText(v))]
  {
    hide ElementsText, MembersText, ElementsTrees, MembersPairs, ElementsOk, MembersOk;
    if v.EmptyArray? {
      assert PrintItems([], pretty, level + 1) == [];
    } else if v.EmptyObject? {
      assert PrintMembers([], pretty, level + 1) == [];
    }
  }

  lemma {:induction false} ElementsWeight(e: Elements, pretty: bool, level: nat)
    requires ElementsOk(e) && AllBytes(ElementsText(e))
    requires forall i :: 0 <= i < |ElementsTrees(e)| ==> NoReals(ElementsTrees(e)[i])
    ensures Weight(ElementsText(e)) >= Weight(PrintItems(ElementsTrees(e), pretty, level)) + ElementsEscapes(e)
    decreases e, 0
  {
    var xs := ElementsTrees(e);
    var more: Text := if e.rest.Some? then [COMMA] + ElementsText(e.rest.value) else [];
    var comma: Text := if e.rest.Some? then [COMMA] else [];
    BytesConcat(e.before + ValueText(e.value) + e.after, more);
    BytesConcat(e.before + ValueText(e.value), e.after);
    BytesConcat(e.before, ValueText(e.value));
    assert xs[0] == Tree(e.value);
    ValueWeight(e.value, pretty, level);
    WhiteWeight(e.before);
    WhiteWeight(e.after);
    LayoutWeight(pretty, level);
    Weightless(comma);
    if e.rest.Some? {
      assert xs[1..] == ElementsTrees(e.rest.value);
      BytesConcat([COMMA], ElementsText(e.rest.value));
      ElementsWeight(e.rest.value, pretty, level);
      WeightConcat([COMMA], ElementsText(e.rest.value));
      Weightless([COMMA]);
    } else {
      assert PrintItems(xs[1..], pretty, level) == [];
    }
    hide Print, ValueText, Tree, ValueOk, Indent, NewLine;
    FourWeights(e.before, ValueText(e.value), e.after, more);
    var shown := Print(xs[0], pretty, level);
    var rest := PrintItems(xs[1..], pretty, level);
    FourWeights(Indent(pretty, level), shown, comma, NewLine(pretty));
    WeightConcat(Indent(pretty, level) + shown + comma + NewLine(pretty), rest);
  }

  lemma {:induction false} MembersWeight(m: Members, pretty: bool, level: nat)
    requires MembersOk(m) && AllBytes(MembersText(m))
    requires forall i :: 0 <= i < |MembersPairs(m)| ==> NoRealsIn(MembersPairs(m)[i])
    ensures Weight(MembersText(m)) >= Weight(PrintMembers(MembersPairs(m), pretty, level)) + MembersEscapes(m)
    decreases m, 0
  {
    var ps := MembersPairs(m);
    var more: Text := if m.rest.Some? then [COMMA] + MembersText(m.rest.value) else [];
    var comma: Text := if m.rest.Some? then [COMMA] else [];
    var head := m.before + StringText(m.key) + m.gap + [COLON] + m.lead;
    BytesConcat(head + ValueText(m.value) + m.after, more);
    BytesConcat(head + ValueText(m.value), m.after);
    BytesConcat(head, ValueText(m.value));
    assert ps[0] == Pair(ItemsBytes(m.key), Tree(m.value)) && NoRealsIn(ps[0]);
    ValueWeight(m.value, pretty, level);
    HeadWeight(m, pretty);
    WhiteWeight(m.after);
    LayoutWeight(pretty, level);
    Weightless(comma);
    if m.rest.Some? {
      assert ps[1..] == MembersPairs(m.rest.value);
      BytesConcat([COMMA], MembersText(m.rest.value));
      MembersWeight(m.rest.value, pretty, level);
      WeightConcat([COMMA], MembersText(m.rest.value));
      Weightless([COMMA]);
    } else {
      assert PrintMembers(ps[1..], pretty, level) == [];
    }
    hide Print, ValueText, Tree, ValueOk, Indent, NewLine, StringText, QuotedText, ItemsBytes;
    FourWeights(head, ValueText(m.value), m.after, more);
    var shown := PrintPair(ps[0], pretty, level);
    var rest := PrintMembers(ps[1..], pretty, level);
    WeightConcat(QuotedText(ps[0].name) + Gap(pretty) + [COLON] + Gap(pretty), Print(ps[0].value, pretty, level));
    FourWeights(Indent(pretty, level), shown, comma, NewLine(pretty));
    WeightConcat(Indent(pretty, level) + shown + comma + NewLine(pretty), rest);
  }

  lemma HeadWeight(m: Members, pretty: bool)
    requires MembersOk(m)
    requires AllBytes(m.before + StringText(m.key) + m.gap + [COLON] + m.lead)
    ensures Weight(m.before + StringText(m.key) + m.gap + [COLON] + m.lead)
         >= Weight(QuotedText(ItemsBytes(m.key)) + Gap(pretty) + [COLON] + Gap(pretty)) + ItemsEscapes(m.key)
  {
    var s := StringText(m.key);
    BytesConcat(m.before + s + m.gap + [COLON], m.lead);
    BytesConcat(m.before + s + m.gap, [COLON]);
    BytesConcat(m.before + s, m.gap);
    BytesConcat(m.before, s);
    QuotedWeight(m.key);
    WhiteWeight(m.before);
    WhiteWeight(m.gap);
    WhiteWeight(m.lead);
    Weightless([COLON]);
    hide StringText, QuotedText, ItemsBytes;
    LayoutWeight(pretty, 0);
    WeightConcat(m.before + s + m.gap + [COLON], m.lead);
    FourWeights(m.before, s, m.gap, [COLON]);
    FourWeights(QuotedText(ItemsBytes(m.key)), Gap(pretty), [COLON], Gap(pretty));
  }

  // ---- Without escapes, the strings of the tree are plain ----

  lemma {:induction false} PlainItems(items: seq<Item>)
    requires ItemsOk(items) && AllBytes(ItemsText(items)) && ItemsEscapes(items) == 0
    ensures PlainText(ItemsBytes(items))
    decreases |items|
  {
    if items != [] {
      BytesConcat(ItemText(items[0]), ItemsText(items[1..]));
      assert items[0].Raw? && ItemText(items[0])[0] == items[0].c;
      PlainItems(items[1..]);
    }
  }

  lemma PlainString(items: seq<Item>)
    requires ItemsOk(items) && AllBytes(StringText(items)) && ItemsEscapes(items) == 0
    ensures PlainText(ItemsBytes(items))
  {
    BytesConcat([QUOTE] + ItemsText(items), [QUOTE]);
    BytesConcat([QUOTE], ItemsText(items));
    PlainItems(items);
  }

  lemma {:induction false} PlainTree(v: Value)
    requires ValueOk(v) && AllBytes(ValueText(v)) && Escapes(v) == 0
    ensures Plain(Tree(v))
    decreases v, 0
  {
    match v
    case StringValue(items) => PlainString(items);
    case ArrayValue(e) =>
      BytesConcat([LBRACKET] + ElementsText(e), [RBRACKET]);
      BytesConcat([LBRACKET], ElementsText(e));
      PlainElements(e);
    case ObjectValue(m) =>
      BytesConcat([LBRACE] + MembersText(m), [RBRACE]);
      BytesConcat([LBRACE], MembersText(m));
      PlainMembers(m);
    case _ =>
  }

  lemma {:induction false} PlainElements(e: Elements)
    requires ElementsOk(e) && AllBytes(ElementsText(e)) && ElementsEscapes(e) == 0
    ensures forall i :: 0 <= i < |ElementsTrees(e)| ==> Plain(ElementsTrees(e)[i])
    decreases e, 0
  {
    var more: Text := if e.rest.Some? then [COMMA] + ElementsText(e.rest.value) else [];
    BytesConcat(e.before + ValueText(e.value) + e.after, more);
    BytesConcat(e.before + ValueText(e.value), e.after);
    BytesConcat(e.before, ValueText(e.value));
    PlainTree(e.value);
    if e.rest.Some? {
      BytesConcat([COMMA], ElementsText(e.rest.value));
      PlainElements(e.rest.value);
    }
  }

  lemma {:induction false} PlainMembers(m: Members)
    requires MembersOk(m) && AllBytes(MembersText(m)) && MembersEscapes(m) == 0
    ensures forall i :: 0 <= i < |MembersPairs(m)| ==> PlainPair(MembersPairs(m)[i])
    decreases m, 0
  {
    var more: Text := if m.rest.Some? then [COMMA] + MembersText(m.rest.value) else [];
    var head := m.before + StringText(m.key) + m.gap + [COLON] + m.lead;
    BytesConcat(head + ValueText(m.value) + m.after, more);
    BytesConcat(head + ValueText(m.value), m.after);
    BytesConcat(head, ValueText(m.value));
    BytesConcat(m.before + StringText(m.key) + m.gap + [COLON], m.lead);
    BytesConcat(m.before + StringText(m.key) + m.gap, [COLON]);
    BytesConcat(m.before + StringText(m.key), m.gap);
    BytesConcat(m.before, StringText(m.key));
    PlainTree(m.value);
    PlainString(m.key);
    hide Tree, ValueText, StringText, ItemsBytes, ItemsOk;
    if m.rest.Some? {
      BytesConcat([COMMA], MembersText(m.rest.value));
      PlainMembers(m.rest.value);
    }
  }

  // ---- Heights, bytes and positive characters ----

  lemma {:induction false} TreeHeight(v: Value)
    requires ValueOk(v)
    ensures Height(Tree(v)) == Depth(v)
    decreases v, 0
  {
    match v
    case ArrayValue(e) => ElementsHeight(e);
    case ObjectValue(m) => PairsHeight(m);
    case _ =>
  }

  lemma {:induction false} ElementsHeight(e: Elements)
    requires ElementsOk(e)
    ensures ItemsHeight(ElementsTrees(e)) == ElementsDepth(e)
    decreases e, 0
  {
    TreeHeight(e.value);
    hide Tree, Depth;
    var xs := ElementsTrees(e);
    if e.rest.Some? {
      assert xs[1..] == ElementsTrees(e.rest.value);
      ElementsHeight(e.rest.value);
    } else {
      assert ItemsHeight(xs[1..]) == 0;
    }
  }

  lemma {:induction false} PairsHeight(m: Members)
    requires MembersOk(m)
    ensures MembersHeight(MembersPairs(m)) == MembersDepth(m)
    decreases m, 0
  {
    TreeHeight(m.value);
    hide Tree, Depth, ItemsBytes, ItemsOk;
    var ps := MembersPairs(m);
    if m.rest.Some? {
      assert ps[1..] == MembersPairs(m.rest.value);
      PairsHeight(m.rest.value);
    } else {
      assert MembersHeight(ps[1..]) == 0;
    }
  }

  lemma BytesOf(t: Text)
    requires AllWhite(t) || AllDigits(t)
    ensures AllBytes(t)
  {
  }

  lemma LayoutBytes(pretty: bool, level: nat)
    ensures AllBytes(NewLine(pretty)) && AllBytes(Gap(pretty)) && AllBytes(Indent(pretty, level))
  {
    LayoutWhite(pretty, level);
    BytesOf(Indent(pretty, level));
  }

  lemma {:induction false} PrintBytes(v: Json, pretty: bool, level: nat)
    requires NoReals(v) && Storable(v)
    ensures AllBytes(Print(v, pretty, level))
    decreases v, 0
  {
    if v.Arr? {
      ItemsPrintBytes(v.items, pretty, level + 1);
      hide PrintItems, Indent, NewLine;
      LayoutBytes(pretty, level);
      FrameBytes(LBRACKET, NewLine(pretty), PrintItems(v.items, pretty, level + 1), Indent(pretty, level), RBRACKET);
    } else if v.Obj? {
      MembersPrintBytes(v.members, pretty, level + 1);
      hide PrintMembers, Indent, NewLine;
      LayoutBytes(pretty, level);
      FrameBytes(LBRACE, NewLine(pretty), PrintMembers(v.members, pretty, level + 1), Indent(pretty, level), RBRACE);
    } else if v.Int? {
      NatTextOk(if v.i < 0 then -v.i else v.i);
      BytesOf(NatText(if v.i < 0 then -v.i else v.i));
    }
  }

  lemma FrameBytes(open: int, n: Text, body: Text, indent: Text, close: int)
    requires IsByte(open) && AllBytes(n) && AllBytes(body) && AllBytes(indent) && IsByte(close)
    ensures AllBytes([open] + n + body + indent + [close])
  {
  }

  lemma ChainBytes(a: Text, b: Text, c: Text, d: Text, e: Text)
    requires AllBytes(a) && AllBytes(b) && AllBytes(c) && AllBytes(d) && AllBytes(e)
    ensures AllBytes(a + b + c + d + e)
  {
  }

  lemma {:induction false} ItemsPrintBytes(items: seq<Json>, pretty: bool, level: nat)
    requires forall i :: 0 <= i < |items| ==> NoReals(items[i]) && Storable(items[i])
    ensures AllBytes(PrintItems(items, pretty, level))
    decreases items, 1
  {
    if items != [] {
      PrintBytes(items[0], pretty, level);
      ItemsPrintBytes(items[1..], pretty, level);
      LayoutBytes(pretty, level);
    }
  }

  lemma {:induction false} MembersPrintBytes(members: seq<Pair>, pretty: bool, level: nat)
    requires forall i :: 0 <= i < |members| ==> NoRealsIn(members[i]) && StorablePair(members[i])
    ensures AllBytes(PrintMembers(members, pretty, level))
    decreases members, 1
  {
    if members != [] {
      var p := members[0];
      assert NoRealsIn(p) && StorablePair(p) && p.value < p;
      PrintBytes(p.value, pretty, level);
      MembersPrintBytes(members[1..], pretty, level);
      LayoutBytes(pretty, level);
      hide Print, Indent, NewLine, Gap;
      assert AllBytes(PrintPair(p, pretty, level));
      hide PrintPair;
      ChainBytes(Indent(pretty, level), PrintPair(p, pretty, level), if |members| > 1 then [COMMA] else [],
                 NewLine(pretty), PrintMembers(members[1..], pretty, level));
      hide AllBytes;
    }
  }

  /** A text that is read to its end contains no NUL. */
  lemma {:induction false} AcceptedPositive(s: Core, t: Text)
    requires Run(s, t).Go?
    ensures UpToNul(t) == t
    decreases |t|
  {
    if t != [] {
      PositiveStep(s, t[0]);
      hide Step;
      AcceptedPositive(Step(s, t[0]).core, t[1..]);
    }
  }

  lemma PositiveStep(s: Core, c: int)
    requires Step(s, c).Go?
    ensures c > 0
  {
    hide AddChar, Act, Transition;
  }

  // ---- The round trip ----

  lemma PlainReadsBack(v: Json, pretty: bool)
    requires NoReals(v) && Storable(v) && Plain(v) && (v.Arr? || v.Obj?) && Height(v) <= MAX_DEPTH
    ensures Read(Print(v, pretty, 0)) == Built(v)
  {
    hide Step;
    var t := Print(v, pretty, 0);
    DeriveTree(v, pretty, 0);
    DeriveText(v, pretty, 0);
    var d := Document([], Derive(v, pretty, 0), []);
    assert [] + ValueText(d.value) + [] == t;
    JsonSound.DocumentAccepted(d, MAX_DEPTH);
    AcceptedPositive(Init(MAX_DEPTH), t);
    ReadDocument(t, d);
  }

  /** Reading back needs every string to be plain: an escape in the text would weigh more than what it stands for. */
  lemma ReadsBackOnlyPlain(v: Json, pretty: bool)
    requires NoReals(v) && Storable(v) && Read(Print(v, pretty, 0)) == Built(v)
    ensures (v.Arr? || v.Obj?) && Plain(v) && Height(v) <= MAX_DEPTH
  {
    hide Step, Print, Read, ValueText, Tree, Depth, Height, Plain, NoReals, Storable;
    var t := Print(v, pretty, 0);
    var d := ReadInverts(t);
    assert Tree(d.value) == v;
    PrintBytes(v, pretty, 0);
    PrefixBytes(t);
    PrefixWeight(t);
    BytesConcat(d.before + ValueText(d.value), d.after);
    BytesConcat(d.before, ValueText(d.value));
    WeightConcat(d.before + ValueText(d.value), d.after);
    WeightConcat(d.before, ValueText(d.value));
    ValueWeight(d.value, pretty, 0);
    WhiteWeight(d.before);
    WhiteWeight(d.after);
    assert Escapes(d.value) == 0;
    PlainTree(d.value);
    TreeHeight(d.value);
    ContainerTree(d.value);
  }

  lemma ContainerTree(v: Value)
    requires ValueOk(v) && IsContainer(v)
    ensures Tree(v).Arr? || Tree(v).Obj?
  {
  }

  /** The law, both ways, for compact and for pretty text. */
  lemma ReadsBackExactly(v: Json, pretty: bool)
    requires NoReals(v) && Storable(v)
    ensures Read(Print(v, pretty, 0)) == Built(v) <==> (v.Arr? || v.Obj?) && Plain(v) && Height(v) <= MAX_DEPTH
  {
    hide Read, Print, Plain, Height;
    if Read(Print(v, pretty, 0)) == Built(v) {
      ReadsBackOnlyPlain(v, pretty);
    } else if (v.Arr? || v.Obj?) && Plain(v) && Height(v) <= MAX_DEPTH {
      PlainReadsBack(v, pretty);
    }
  }
}

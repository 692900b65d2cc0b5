/**
 What the printed text looks like: the tokens of a tree with nothing between
 them, or, in pretty text, each value of a container on a line of its own, four
 blanks further in than the container, and a blank on both sides of a colon.
 */
module JsonLayout {
  import opened Basics
  import opened JsonTypes
  import opened JsonPrint

  datatype Token = Opens(bracket: int) | Closes(bracket: int) | CommaSign | ColonSign | Atom(text: Text)

  function Spelled(k: Token): Text {
    match k
    case Opens(c) => [c]
    case Closes(c) => [c]
    case CommaSign => [0x2C]
    case ColonSign => [0x3A]
    case Atom(t) => t
  }

  function Quoted(s: Text): Token { Atom([0x22] + s + [0x22]) }

  /** The tokens of a tree; integers in decimal, strings as they are. */
  function Tokens(v: Json): seq<Token>
    requires NoReals(v)
    decreases v, 0
  {
    match v
    case Null => [Atom([0x6E, 0x75, 0x6C, 0x6C])]
    case Bool(b) => [Atom(if b then [0x74, 0x72, 0x75, 0x65] else [0x66, 0x61, 0x6C, 0x73, 0x65])]
    case Int(i) => [Atom(IntText(i))]
    case Str(s) => [Quoted(s)]
    case Arr(items) => [Opens(0x5B)] + ItemTokens(items) + [Closes(0x5D)]
    case Obj(members) => [Opens(0x7B)] + MemberTokens(members) + [Closes(0x7D)]
  }

  function ItemTokens(items: seq<Json>): seq<Token>
    requires forall i :: 0 <= i < |items| ==> NoReals(items[i])
    decreases items, 1
  {
    if items == [] then [] else Tokens(items[0]) + (if |items| > 1 then [CommaSign] else []) + ItemTokens(items[1..])
  }

  function MemberTokens(members: seq<Pair>): seq<Token>
    requires forall i :: 0 <= i < |members| ==> NoRealsIn(members[i])
    decreases members, 1
  {
    if members == [] then []
    else
      assert NoRealsIn(members[0]) && members[0].value < members[0];
      [Quoted(members[0].name), ColonSign] + Tokens(members[0].value) + (if |members| > 1 then [CommaSign] else [])
      + MemberTokens(members[1..])
  }

  // ---- The layout ----

  function Blanks(n: nat): Text { seq(n, _ => 0x20) }

  /** A new line at some depth. */
  function Line(depth: int): Text { [0x0A] + Blanks(if depth < 0 then 0 else 4 * depth) }

  /** What stands between two tokens; `depth` counts the containers that are open after the first. */
  function Between(pretty: bool, first: Token, second: Token, depth: int): Text {
    if !pretty then []
    else if second.Closes? then Line(depth - 1)
    else if first.Opens? || first.CommaSign? then Line(depth)
    else if first.ColonSign? || second.ColonSign? then [0x20]
    else []
  }

  function After(depth: int, k: Token): int { depth + if k.Opens? then 1 else if k.Closes? then -1 else 0 }

  function Render(ks: seq<Token>, pretty: bool, depth: int): Text {
    if ks == [] then []
    else
      var inner := After(depth, ks[0]);
      Spelled(ks[0]) + (if |ks| > 1 then Between(pretty, ks[0], ks[1], inner) else [])
      + Render(ks[1..], pretty, inner)
  }

  // ---- The printer does just that ----

  lemma {:induction false} IndentIs(pretty: bool, level: nat)
    ensures Indent(pretty, level) == if pretty then Blanks(4 * level) else []
    decreases level
  {
    if pretty && level > 0 {
      IndentIs(pretty, level - 1);
      assert FOUR_SPACES + Blanks(4 * level - 4) == Blanks(4 * level);
    }
  }

  lemma LineIs(pretty: bool, level: nat)
    ensures NewLine(pretty) + Indent(pretty, level) == if pretty then Line(level) else []
  {
    IndentIs(pretty, level);
  }

  lemma RenderOne(k: Token, ks: seq<Token>, pretty: bool, depth: int)
    ensures Render([k] + ks, pretty, depth)
         == Spelled(k) + (if ks == [] then [] else Between(pretty, k, ks[0], After(depth, k)))
            + Render(ks, pretty, After(depth, k))
  {
    assert ([k] + ks)[1..] == ks;
  }

  /** Between a value and what follows it: a new line before the end of its container. */
  function Ends(ks: seq<Token>, pretty: bool, depth: int): Text {
    if ks != [] && ks[0].Closes? && pretty then Line(depth - 1) else []
  }

  predicate Follows(ks: seq<Token>) { ks == [] || ks[0].CommaSign? || ks[0].Closes? }

  predicate Starts(ks: seq<Token>) { ks != [] && (ks[0].Opens? || ks[0].Atom?) }

  lemma ValueStarts(v: Json)
    requires NoReals(v)
    ensures Starts(Tokens(v))
  {
    hide ItemTokens, MemberTokens;
  }

  lemma CommaRendered(ks: seq<Token>, pretty: bool, depth: nat)
    requires Starts(ks)
    ensures Render([CommaSign] + ks, pretty, depth)
         == [COMMA] + NewLine(pretty) + (Indent(pretty, depth) + Render(ks, pretty, depth))
  {
    hide Render, NewLine, Indent;
    RenderOne(CommaSign, ks, pretty, depth);
    LineIs(pretty, depth);
    Regroup([COMMA], NewLine(pretty), Indent(pretty, depth), Render(ks, pretty, depth));
  }

  lemma Regroup(a: Text, b: Text, c: Text, d: Text)
    ensures a + (b + c) + d == a + b + (c + d)
  {
  }

  /** The bracket that begins a container. */
  lemma OpenRendered(bracket: int, ks: seq<Token>, pretty: bool, depth: nat)
    requires Starts(ks)
    ensures Render([Opens(bracket)] + ks, pretty, depth)
         == [bracket] + NewLine(pretty) + (Indent(pretty, depth + 1) + Render(ks, pretty, depth + 1))
  {
    hide Render, NewLine, Indent;
    RenderOne(Opens(bracket), ks, pretty, depth);
    LineIs(pretty, depth + 1);
    Regroup([bracket], NewLine(pretty), Indent(pretty, depth + 1), Render(ks, pretty, depth + 1));
  }

  lemma CloseRendered(bracket: int, ks: seq<Token>, pretty: bool, depth: nat)
    requires Follows(ks)
    ensures Render([Closes(bracket)] + ks, pretty, depth + 1)
         == [bracket] + Ends(ks, pretty, depth) + Render(ks, pretty, depth)
  {
    hide Render;
    RenderOne(Closes(bracket), ks, pretty, depth + 1);
  }

  lemma EmptyRendered(open: int, close: int, ks: seq<Token>, pretty: bool, depth: nat)
    requires Follows(ks)
    ensures Render([Opens(open)] + ([Closes(close)] + ks), pretty, depth)
         == [open] + NewLine(pretty) + Indent(pretty, depth) + [close]
            + Ends(ks, pretty, depth) + Render(ks, pretty, depth)
  {
    hide Render, NewLine, Indent, Ends;
    RenderOne(Opens(open), [Closes(close)] + ks, pretty, depth);
    CloseRendered(close, ks, pretty, depth);
    LineIs(pretty, depth);
    var n, i := NewLine(pretty), Indent(pretty, depth);
    EmptyText([open], n, i, [close], Ends(ks, pretty, depth), Render(ks, pretty, depth));
  }

  lemma EmptyText(o: Text, n: Text, i: Text, c: Text, e: Text, r: Text)
    ensures o + (n + i) + (c + e + r) == o + n + i + c + e + r
  {
  }

  /** The end of the last element: a new line and the bracket further out. */
  lemma LastRendered(text: Text, pretty: bool, level: nat, close: Token, r: Text)
    requires close.Closes?
    ensures Indent(pretty, level + 1) + (text + Ends([close], pretty, level + 1) + r)
         == Indent(pretty, level + 1) + text + NewLine(pretty) + Indent(pretty, level) + r
  {
    hide Indent, NewLine, Ends;
    LastEnds(close, pretty, level);
    LastText(Indent(pretty, level + 1), text, NewLine(pretty), Indent(pretty, level), r);
  }

  lemma LastEnds(close: Token, pretty: bool, level: nat)
    requires close.Closes?
    ensures Ends([close], pretty, level + 1) == NewLine(pretty) + Indent(pretty, level)
  {
    hide Indent, NewLine;
    LineIs(pretty, level);
  }

  lemma LastText(i: Text, text: Text, n: Text, j: Text, r: Text)
    ensures i + (text + (n + j) + r) == i + text + n + j + r
  {
  }

  lemma ItemParts(items: seq<Json>, rest: seq<Token>, pretty: bool, level: nat)
    requires items != [] && forall i :: 0 <= i < |items| ==> NoReals(items[i])
    ensures var x, xs := items[0], items[1..];
            && ItemTokens(items) + rest
            == Tokens(x) + (if xs == [] then rest else [CommaSign] + (ItemTokens(xs) + rest))
            && PrintItems(items, pretty, level)
            == Indent(pretty, level) + Print(x, pretty, level)
               + if xs == [] then NewLine(pretty) else [COMMA] + NewLine(pretty) + PrintItems(xs, pretty, level)
  {
    var x, xs := items[0], items[1..];
    FirstItem(items, pretty, level);
    hide ItemTokens, PrintItems, Tokens, Print, Indent, NewLine;
    Grouped([], Tokens(x), [CommaSign], ItemTokens(xs), rest);
    Grouped(Indent(pretty, level), Print(x, pretty, level), [COMMA], NewLine(pretty), PrintItems(xs, pretty, level));
    assert [] + Tokens(x) == Tokens(x);
  }

  lemma FirstItem(items: seq<Json>, pretty: bool, level: nat)
    requires items != [] && forall i :: 0 <= i < |items| ==> NoReals(items[i])
    ensures var x, xs := items[0], items[1..];
            && ItemTokens(items) == Tokens(x) + (if xs == [] then [] else [CommaSign]) + ItemTokens(xs)
            && PrintItems(items, pretty, level)
            == Indent(pretty, level) + Print(x, pretty, level) + (if xs == [] then [] else [COMMA])
               + NewLine(pretty) + PrintItems(xs, pretty, level)
            && (xs == [] ==> ItemTokens(xs) == [] && PrintItems(xs, pretty, level) == [])
  {
    hide Tokens, Print, Indent, NewLine;
  }

  lemma {:induction false} ItemsRendered(items: seq<Json>, close: int, ks: seq<Token>, pretty: bool, level: nat)
    requires items != [] && forall i :: 0 <= i < |items| ==> NoReals(items[i])
    ensures Indent(pretty, level + 1) + Render(ItemTokens(items) + ([Closes(close)] + ks), pretty, level + 1)
         == PrintItems(items, pretty, level + 1) + Indent(pretty, level)
            + Render([Closes(close)] + ks, pretty, level + 1)
    decreases items, 1
  {
    var rest := [Closes(close)] + ks;
    var x, xs := items[0], items[1..];
    var i, n, j := Indent(pretty, level + 1), NewLine(pretty), Indent(pretty, level);
    var p, r := Print(x, pretty, level + 1), Render(rest, pretty, level + 1);
    if xs == [] {
      ValueRendered(x, rest, pretty, level + 1);
      LastRendered(p, pretty, level, Closes(close), r);
      ItemParts(items, rest, pretty, level + 1);
      hide ItemTokens, PrintItems, Tokens, Print, Render, Indent, NewLine;
    } else {
      var more := ItemTokens(xs) + rest;
      ItemsStart(xs);
      ItemParts(items, rest, pretty, level + 1);
      hide ItemTokens, PrintItems, Tokens, Print, Render, Indent, NewLine;
      ItemsRendered(xs, close, ks, pretty, level);
      ValueRendered(x, [CommaSign] + more, pretty, level + 1);
      CommaRendered(more, pretty, level + 1);
      Folded(i, p, n, PrintItems(xs, pretty, level + 1), j, r, i + Render(more, pretty, level + 1));
    }
  }

  lemma Folded(i: Text, p: Text, n: Text, q: Text, j: Text, r: Text, m: Text)
    requires m == q + j + r
    ensures i + (p + [] + ([COMMA] + n + m)) == i + p + [COMMA] + n + q + j + r
  {
  }

  lemma ItemsStart(items: seq<Json>)
    requires items != [] && forall i :: 0 <= i < |items| ==> NoReals(items[i])
    ensures Starts(ItemTokens(items))
  {
    ValueStarts(items[0]);
    hide Tokens;
  }

  lemma MemberStarts(members: seq<Pair>)
    requires members != [] && forall i :: 0 <= i < |members| ==> NoRealsIn(members[i])
    ensures Starts(MemberTokens(members))
  {
    hide Tokens;
  }

  /** A key, a colon between blanks, and the value. */
  lemma PairRendered(p: Pair, ks: seq<Token>, pretty: bool, depth: nat)
    requires NoRealsIn(p) && Follows(ks)
    requires Render(Tokens(p.value) + ks, pretty, depth)
          == Print(p.value, pretty, depth) + Ends(ks, pretty, depth) + Render(ks, pretty, depth)
    ensures Render([Quoted(p.name), ColonSign] + (Tokens(p.value) + ks), pretty, depth)
         == PrintPair(p, pretty, depth) + Ends(ks, pretty, depth) + Render(ks, pretty, depth)
  {
    ValueStarts(p.value);
    PairParts(p, pretty, depth);
    hide Render, Tokens, Print, PrintPair, Ends, QuotedText;
    var vs := Tokens(p.value) + ks;
    assert Starts(vs);
    KeyRendered(Quoted(p.name), vs, pretty, depth);
    PairText(QuotedText(p.name), Gap(pretty), Print(p.value, pretty, depth), Ends(ks, pretty, depth),
             Render(ks, pretty, depth));
  }

  lemma PairParts(p: Pair, pretty: bool, depth: nat)
    requires NoRealsIn(p)
    ensures PrintPair(p, pretty, depth)
         == QuotedText(p.name) + Gap(pretty) + [COLON] + Gap(pretty) + Print(p.value, pretty, depth)
    ensures Spelled(Quoted(p.name)) == QuotedText(p.name)
  {
    hide Print;
  }

  lemma KeyRendered(key: Token, vs: seq<Token>, pretty: bool, depth: nat)
    requires key.Atom? && Starts(vs)
    ensures Render([key, ColonSign] + vs, pretty, depth)
         == Spelled(key) + Gap(pretty) + ([COLON] + Gap(pretty) + Render(vs, pretty, depth))
  {
    hide Render;
    assert [key, ColonSign] + vs == [key] + ([ColonSign] + vs);
    RenderOne(ColonSign, vs, pretty, depth);
    RenderOne(key, [ColonSign] + vs, pretty, depth);
  }

  lemma PairText(q: Text, g: Text, t: Text, e: Text, r: Text)
    ensures q + g + ([COLON] + g + (t + e + r)) == q + g + [COLON] + g + t + e + r
  {
  }

  lemma MemberParts(members: seq<Pair>, rest: seq<Token>, pretty: bool, level: nat)
    requires members != [] && forall i :: 0 <= i < |members| ==> NoRealsIn(members[i])
    ensures var x, xs := members[0], members[1..];
            && MemberTokens(members) + rest
            == [Quoted(x.name), ColonSign]
               + (Tokens(x.value) + if xs == [] then rest else [CommaSign] + (MemberTokens(xs) + rest))
            && PrintMembers(members, pretty, level)
            == Indent(pretty, level) + PrintPair(x, pretty, level)
               + if xs == [] then NewLine(pretty) else [COMMA] + NewLine(pretty) + PrintMembers(xs, pretty, level)
  {
    var x, xs := members[0], members[1..];
    FirstMember(members, pretty, level);
    hide MemberTokens, PrintMembers, Tokens, PrintPair, Indent, NewLine;
    Grouped([Quoted(x.name), ColonSign], Tokens(x.value), [CommaSign], MemberTokens(xs), rest);
    var tail := PrintMembers(xs, pretty, level);
    Grouped(Indent(pretty, level), PrintPair(x, pretty, level), [COMMA], NewLine(pretty), tail);
  }

  lemma FirstMember(members: seq<Pair>, pretty: bool, level: nat)
    requires members != [] && forall i :: 0 <= i < |members| ==> NoRealsIn(members[i])
    ensures var x, xs := members[0], members[1..];
            && MemberTokens(members)
            == [Quoted(x.name), ColonSign] + Tokens(x.value) + (if xs == [] then [] else [CommaSign]) + MemberTokens(xs)
            && PrintMembers(members, pretty, level)
            == Indent(pretty, level) + PrintPair(x, pretty, level) + (if xs == [] then [] else [COMMA])
               + NewLine(pretty) + PrintMembers(xs, pretty, level)
            && (xs == [] ==> MemberTokens(xs) == [] && PrintMembers(xs, pretty, level) == [])
  {
    hide Tokens, PrintPair, Indent, NewLine;
  }

  lemma Grouped<T>(a: seq<T>, b: seq<T>, c: seq<T>, d: seq<T>, e: seq<T>)
    ensures a + b + c + d + e == a + (b + (c + (d + e))) == a + b + (c + d + e)
    ensures a + b + [] + [] + e == a + (b + e)
    ensures a + b + [] + d + [] == a + b + d
  {
  }

  lemma {:induction false} MembersRendered(members: seq<Pair>, close: int, ks: seq<Token>, pretty: bool, level: nat)
    requires members != [] && forall i :: 0 <= i < |members| ==> NoRealsIn(members[i])
    ensures Indent(pretty, level + 1) + Render(MemberTokens(members) + ([Closes(close)] + ks), pretty, level + 1)
         == PrintMembers(members, pretty, level + 1) + Indent(pretty, level)
            + Render([Closes(close)] + ks, pretty, level + 1)
    decreases members, 1
  {
    var rest := [Closes(close)] + ks;
    var x, xs := members[0], members[1..];
    assert NoRealsIn(x) && x.value < x;
    var i, n, j := Indent(pretty, level + 1), NewLine(pretty), Indent(pretty, level);
    var p, r := PrintPair(x, pretty, level + 1), Render(rest, pretty, level + 1);
    if xs == [] {
      ValueRendered(x.value, rest, pretty, level + 1);
      PairRendered(x, rest, pretty, level + 1);
      LastRendered(p, pretty, level, Closes(close), r);
      MemberParts(members, rest, pretty, level + 1);
      hide MemberTokens, PrintMembers, Tokens, PrintPair, Render, Indent, NewLine;
    } else {
      var more := MemberTokens(xs) + rest;
      MemberStarts(xs);
      MemberParts(members, rest, pretty, level + 1);
      hide MemberTokens, PrintMembers, Tokens, Print, PrintPair, Render, Indent, NewLine;
      MembersRendered(xs, close, ks, pretty, level);
      ValueRendered(x.value, [CommaSign] + more, pretty, level + 1);
      PairRendered(x, [CommaSign] + more, pretty, level + 1);
      CommaRendered(more, pretty, level + 1);
      Folded(i, p, n, PrintMembers(xs, pretty, level + 1), j, r, i + Render(more, pretty, level + 1));
    }
  }

  lemma {:induction false} ValueRendered(v: Json, ks: seq<Token>, pretty: bool, depth: nat)
    requires NoReals(v) && Follows(ks)
    ensures Render(Tokens(v) + ks, pretty, depth)
         == Print(v, pretty, depth) + Ends(ks, pretty, depth) + Render(ks, pretty, depth)
    decreases v, 0
  {
    match v
    case Arr(items) =>
      hide Render, Tokens, Print;
      if items != [] {
        ItemsRendered(items, 0x5D, ks, pretty, depth);
      }
      ArrayRendered(items, ks, pretty, depth);
    case Obj(members) =>
      hide Render, Tokens, Print;
      if members != [] {
        MembersRendered(members, 0x7D, ks, pretty, depth);
      }
      ObjectRendered(members, ks, pretty, depth);
    case _ =>
      AtomRendered(v, ks, pretty, depth);
  }

  lemma AtomRendered(v: Json, ks: seq<Token>, pretty: bool, depth: nat)
    requires NoReals(v) && Follows(ks) && !v.Arr? && !v.Obj?
    ensures Render(Tokens(v) + ks, pretty, depth)
         == Print(v, pretty, depth) + Ends(ks, pretty, depth) + Render(ks, pretty, depth)
  {
    assert Tokens(v) == [Tokens(v)[0]] && Spelled(Tokens(v)[0]) == Print(v, pretty, depth);
    hide Render;
    RenderOne(Tokens(v)[0], ks, pretty, depth);
  }

  lemma ArrayRendered(items: seq<Json>, ks: seq<Token>, pretty: bool, depth: nat)
    requires NoReals(Arr(items)) && Follows(ks)
    requires
      || items == []
      || Indent(pretty, depth + 1) + Render(ItemTokens(items) + ([Closes(0x5D)] + ks), pretty, depth + 1)
      == PrintItems(items, pretty, depth + 1) + Indent(pretty, depth) + Render([Closes(0x5D)] + ks, pretty, depth + 1)
    ensures Render(Tokens(Arr(items)) + ks, pretty, depth)
         == Print(Arr(items), pretty, depth) + Ends(ks, pretty, depth) + Render(ks, pretty, depth)
  {
    hide Render, Indent, NewLine, Ends;
    var rest := [Closes(0x5D)] + ks;
    ArrayParts(items, ks, pretty, depth);
    if items == [] {
      EmptyRendered(0x5B, 0x5D, ks, pretty, depth);
    } else {
      ItemsStart(items);
      OpenRendered(0x5B, ItemTokens(items) + rest, pretty, depth);
    }
    CloseRendered(0x5D, ks, pretty, depth);
    hide Tokens, Print, ItemTokens, PrintItems;
    Contained(0x5B, NewLine(pretty), PrintItems(items, pretty, depth + 1), Indent(pretty, depth), 0x5D,
              Ends(ks, pretty, depth), Render(ks, pretty, depth));
  }

  lemma ArrayParts(items: seq<Json>, ks: seq<Token>, pretty: bool, depth: nat)
    requires NoReals(Arr(items))
    ensures Tokens(Arr(items)) + ks == [Opens(0x5B)] + (ItemTokens(items) + ([Closes(0x5D)] + ks))
    ensures items == [] ==> ItemTokens(items) + ([Closes(0x5D)] + ks) == [Closes(0x5D)] + ks
    ensures items == [] ==> PrintItems(items, pretty, depth + 1) == []
    ensures Print(Arr(items), pretty, depth)
         == [0x5B] + NewLine(pretty) + PrintItems(items, pretty, depth + 1) + Indent(pretty, depth) + [0x5D]
  {
    hide NewLine, Indent;
  }

  lemma ObjectRendered(members: seq<Pair>, ks: seq<Token>, pretty: bool, depth: nat)
    requires NoReals(Obj(members)) && Follows(ks)
    requires
      || members == []
      || Indent(pretty, depth + 1) + Render(MemberTokens(members) + ([Closes(0x7D)] + ks), pretty, depth + 1)
      == PrintMembers(members, pretty, depth + 1) + Indent(pretty, depth)
         + Render([Closes(0x7D)] + ks, pretty, depth + 1)
    ensures Render(Tokens(Obj(members)) + ks, pretty, depth)
         == Print(Obj(members), pretty, depth) + Ends(ks, pretty, depth) + Render(ks, pretty, depth)
  {
    hide Render, Indent, NewLine, Ends;
    var rest := [Closes(0x7D)] + ks;
    ObjectParts(members, ks, pretty, depth);
    if members == [] {
      EmptyRendered(0x7B, 0x7D, ks, pretty, depth);
    } else {
      MemberStarts(members);
      OpenRendered(0x7B, MemberTokens(members) + rest, pretty, depth);
    }
    CloseRendered(0x7D, ks, pretty, depth);
    hide Tokens, Print, MemberTokens, PrintMembers;
    Contained(0x7B, NewLine(pretty), PrintMembers(members, pretty, depth + 1), Indent(pretty, depth), 0x7D,
              Ends(ks, pretty, depth), Render(ks, pretty, depth));
  }

  lemma ObjectParts(members: seq<Pair>, ks: seq<Token>, pretty: bool, depth: nat)
    requires NoReals(Obj(members))
    ensures Tokens(Obj(members)) + ks == [Opens(0x7B)] + (MemberTokens(members) + ([Closes(0x7D)] + ks))
    ensures members == [] ==> MemberTokens(members) + ([Closes(0x7D)] + ks) == [Closes(0x7D)] + ks
    ensures members == [] ==> PrintMembers(members, pretty, depth + 1) == []
    ensures Print(Obj(members), pretty, depth)
         == [0x7B] + NewLine(pretty) + PrintMembers(members, pretty, depth + 1) + Indent(pretty, depth) + [0x7D]
  {
    hide NewLine, Indent;
  }

  lemma Contained(open: int, n: Text, body: Text, i: Text, close: int, e: Text, r: Text)
    ensures [open] + n + (body + i + ([close] + e + r)) == [open] + n + body + i + [close] + e + r
    ensures [open] + n + i + [close] + e + r == [open] + n + [] + i + [close] + e + r
  {
  }

  /** Compact text is the tokens of the tree; pretty text is the tokens with this layout between them. */
  lemma PrintedIs(v: Json, pretty: bool)
    requires NoReals(v)
    ensures Print(v, pretty, 0) == Render(Tokens(v), pretty, 0)
  {
    ValueRendered(v, [], pretty, 0);
    assert Tokens(v) + [] == Tokens(v);
    hide Tokens, Print;
    NoneAfter(Print(v, pretty, 0));
  }
}

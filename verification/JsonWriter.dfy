/**
 `Generator` of Json/json_spirit_writer.cpp: it appends to a stream and keeps
 the indentation level in a field. Every method writes exactly the text that
 JsonPrint says and leaves the level as it found it.
 */
module JsonWriter {
  import opened JsonTypes
  import opened JsonGrammar
  import opened JsonPrint

  lemma Joined(os: Text, a: Text, b: Text, c: Text, d: Text, rest: Text)
    ensures os + a + b + c + d + rest == os + (a + b + c + d + rest)
  {
  }

  lemma NoItems(pretty: bool, level: nat)
    ensures PrintItems([], pretty, level) == [] == PrintMembers([], pretty, level)
  {
  }

  /** One round of the loop of `output_array_or_obj`. */
  lemma ItemsFrom(items: seq<Json>, n: nat, pretty: bool, level: nat)
    requires n < |items| && forall i :: 0 <= i < |items| ==> NoReals(items[i])
    ensures PrintItems(items[n..], pretty, level)
         == Indent(pretty, level) + Print(items[n], pretty, level) + (if n != |items| - 1 then [COMMA] else [])
            + NewLine(pretty) + PrintItems(items[n + 1..], pretty, level)
  {
    assert items[n..][1..] == items[n + 1..];
  }

  lemma MembersFrom(members: seq<Pair>, n: nat, pretty: bool, level: nat)
    requires n < |members| && forall i :: 0 <= i < |members| ==> NoRealsIn(members[i])
    ensures PrintMembers(members[n..], pretty, level)
         == Indent(pretty, level) + PrintPair(members[n], pretty, level) + (if n != |members| - 1 then [COMMA] else [])
            + NewLine(pretty) + PrintMembers(members[n + 1..], pretty, level)
  {
    assert members[n..][1..] == members[n + 1..];
  }

  lemma Wrapped(os: Text, v: Json, pretty: bool, level: nat)
    requires NoReals(v) && (v.Arr? || v.Obj?)
    ensures var inner := if v.Arr? then PrintItems(v.items, pretty, level + 1)
          else PrintMembers(v.members, pretty, level + 1);
            var open, close := if v.Arr? then LBRACKET else LBRACE, if v.Arr? then RBRACKET else RBRACE;
            os + [open] + NewLine(pretty) + inner + Indent(pretty, level) + [close] == os + Print(v, pretty, level)
  {
    hide PrintItems, PrintMembers, Indent, NewLine;
    var inner := if v.Arr? then PrintItems(v.items, pretty, level + 1) else PrintMembers(v.members, pretty, level + 1);
    var open, close := if v.Arr? then LBRACKET else LBRACE, if v.Arr? then RBRACKET else RBRACE;
    Joined(os, [open], NewLine(pretty), inner, Indent(pretty, level), [close]);
  }

  class Generator {
    /** `os_`, `indentation_level_` and `pretty_`. */
    var os: Text
    var level: nat
    const pretty: bool

    constructor (value: Json, os: Text, pretty: bool)
      requires NoReals(value)
      ensures this.os == os + Print(value, pretty, 0)
    {
      this.os, level, this.pretty := os, 0, pretty;
      new;
      Output(value);
    }

    method Write(t: Text)
      modifies this`os
      ensures os == old(os) + t
    {
      os := os + t;
    }

    /** `output(const Value&)`. */
    method Output(v: Json)
      requires NoReals(v)
      modifies this
      ensures os == old(os) + Print(v, pretty, level) && level == old(level)
      decreases v, 0
    {
      match v {
        case Null => Write(NULL_TEXT);
        case Bool(b) => Write(if b then TRUE_TEXT else FALSE_TEXT);
        case Int(i) => Write(IntText(i));
        case Str(s) => OutputString(s);
        case Arr(items) => OutputArray(items);
        case Obj(members) => OutputObject(members);
      }
    }

    method OutputString(s: Text)
      modifies this`os
      ensures os == old(os) + QuotedText(s)
    {
      Write([QUOTE]);
      Write(s);
      Write([QUOTE]);
    }

    method OutputPair(p: Pair)
      requires NoRealsIn(p)
      modifies this
      ensures os == old(os) + PrintPair(p, pretty, level) && level == old(level)
      decreases p, 1
    {
      OutputString(p.name);
      Space();
      Write([COLON]);
      Space();
      Output(p.value);
      hide Print;
    }

    /** One round of the loop over an array: no comma behind the last element. */
    method OutputItem(items: seq<Json>, n: nat)
      requires n < |items| && forall i :: 0 <= i < |items| ==> NoReals(items[i])
      modifies this
      ensures os + PrintItems(items[n + 1..], pretty, level) == old(os) + PrintItems(items[n..], pretty, level)
      ensures level == old(level)
      decreases items, 1
    {
      hide Print, PrintItems, Indent, NewLine;
      ghost var before := os;
      IndentHere();
      Output(items[n]);
      if n != |items| - 1 {
        Write([COMMA]);
      }
      Newline();
      ItemsFrom(items, n, pretty, level);
      Joined(before, Indent(pretty, level), Print(items[n], pretty, level), if n != |items| - 1 then [COMMA] else [],
             NewLine(pretty), PrintItems(items[n + 1..], pretty, level));
    }

    /** `output_array_or_obj` for arrays. */
    method OutputArray(items: seq<Json>)
      requires forall i :: 0 <= i < |items| ==> NoReals(items[i])
      modifies this
      ensures os == old(os) + Print(Arr(items), pretty, level) && level == old(level)
      decreases items, 2
    {
      hide Print, PrintItems, PrintMembers, PrintPair, Indent, NewLine;
      Write([LBRACKET]);
      Newline();
      level := level + 1;
      for n := 0 to |items|
        invariant level == old(level) + 1
        invariant os + PrintItems(items[n..], pretty, level)
               == old(os) + [LBRACKET] + NewLine(pretty) + PrintItems(items, pretty, level)
      {
        OutputItem(items, n);
      }
      level := level - 1;
      assert items[|items|..] == [];
      NoItems(pretty, old(level) + 1);
      IndentHere();
      Write([RBRACKET]);
      Wrapped(old(os), Arr(items), pretty, level);
    }

    /** One round of the loop over the members of an object. */
    method OutputMember(members: seq<Pair>, n: nat)
      requires n < |members| && forall i :: 0 <= i < |members| ==> NoRealsIn(members[i])
      modifies this
      ensures os + PrintMembers(members[n + 1..], pretty, level) == old(os) + PrintMembers(members[n..], pretty, level)
      ensures level == old(level)
      decreases members, 1
    {
      hide PrintPair, PrintMembers, Indent, NewLine;
      ghost var before := os;
      IndentHere();
      OutputPair(members[n]);
      if n != |members| - 1 {
        Write([COMMA]);
      }
      Newline();
      MembersFrom(members, n, pretty, level);
      Joined(before, Indent(pretty, level), PrintPair(members[n], pretty, level),
             if n != |members| - 1 then [COMMA] else [],
             NewLine(pretty), PrintMembers(members[n + 1..], pretty, level));
    }

    /** `output_array_or_obj` for objects. */
    method OutputObject(members: seq<Pair>)
      requires forall i :: 0 <= i < |members| ==> NoRealsIn(members[i])
      modifies this
      ensures os == old(os) + Print(Obj(members), pretty, level) && level == old(level)
      decreases members, 2
    {
      hide Print, PrintItems, PrintMembers, PrintPair, Indent, NewLine;
      Write([LBRACE]);
      Newline();
      level := level + 1;
      for n := 0 to |members|
        invariant level == old(level) + 1
        invariant os + PrintMembers(members[n..], pretty, level)
               == old(os) + [LBRACE] + NewLine(pretty) + PrintMembers(members, pretty, level)
      {
        OutputMember(members, n);
      }
      level := level - 1;
      assert members[|members|..] == [];
      NoItems(pretty, old(level) + 1);
      IndentHere();
      Write([RBRACE]);
      Wrapped(old(os), Obj(members), pretty, level);
    }

    /** `indent`. */
    method IndentHere()
      modifies this`os
      ensures os == old(os) + Indent(pretty, level)
    {
      if !pretty {
        return;
      }
      for i := 0 to level
        invariant os == old(os) + Indent(pretty, i)
      {
        IndentMore(i);
        Write(FOUR_SPACES);
      }
    }

    lemma {:induction false} IndentMore(n: nat)
      ensures Indent(true, n) + FOUR_SPACES == Indent(true, n + 1)
    {
      if n > 0 {
        IndentMore(n - 1);
        assert Indent(true, n) == FOUR_SPACES + Indent(true, n - 1);
        assert Indent(true, n) + FOUR_SPACES == FOUR_SPACES + (Indent(true, n - 1) + FOUR_SPACES);
      }
    }

    /** `space` and `new_line`. */
    method Space()
      modifies this`os
      ensures os == old(os) + Gap(pretty)
    {
      if pretty {
        Write([32]);
      }
    }

    method Newline()
      modifies this`os
      ensures os == old(os) + NewLine(pretty)
    {
      if pretty {
        Write([10]);
      }
    }
  }
}

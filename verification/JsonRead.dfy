/**
 `read` of Json/json_spirit_reader.cpp: the parser and the tree builder driven
 character by character.
 */
module JsonRead {
  import opened Basics
  import opened JsonTypes
  import opened JsonMachine
  import opened JsonBuild
  import opened JsonRoundTrip
  import opened JsonActions
  import opened JsonParser
  import JsonCallbacks
  import JsonInvariant

  lemma {:induction false} RunMore(s: Core, t: Text, c: int)
    requires Run(s, t).Go?
    ensures Run(s, t + [c]) == Step(Run(s, t).core, c)
    decreases |t|
  {
    hide Step;
    if t == [] {
      assert (t + [c])[1..] == [];
    } else {
      assert (t + [c])[0] == t[0] && (t + [c])[1..] == t[1..] + [c];
      RunMore(Step(s, t[0]).core, t[1..], c);
    }
  }

  lemma {:induction false} RunHalts(s: Core, t: Text, u: Text)
    requires Run(s, t).Halt?
    ensures Run(s, t + u) == Run(s, t)
    decreases |t|
  {
    hide Step;
    assert (t + u)[0] == t[0] && (t + u)[1..] == t[1..] + u;
    if Step(s, t[0]).Go? {
      RunHalts(Step(s, t[0]).core, t[1..], u);
    }
  }

  lemma {:induction false} UpToNulFrom(t: Text, n: nat)
    requires n <= |t| && forall i :: 0 <= i < n ==> t[i] > 0
    ensures UpToNul(t) == t[..n] + UpToNul(t[n..])
    decreases n
  {
    hide UpToNul;
    if n == 0 {
      assert t[0..] == t;
    } else {
      UpToNulPast(t);
      UpToNulFrom(t[1..], n - 1);
      assert t[1..][n - 1..] == t[n..];
      assert t[..n] == [t[0]] + t[1..][..n - 1];
    }
  }

  lemma UpToNulPast(t: Text)
    requires t != [] && t[0] > 0
    ensures UpToNul(t) == [t[0]] + UpToNul(t[1..])
  {
  }

  /** The calls a character makes can all be taken by the builder. */
  lemma CallsTaken(t: Text, s: Core, c: int, calls: seq<Event>, b: Builder)
    requires Run(Init(MAX_DEPTH), t) == Go(s) && Build(EMPTY_BUILDER, s.log) == Some(b)
    requires var o := Step(s, c); (if o.Go? then o.core.log else o.log) == s.log + calls
    ensures Build(b, calls).Some? && Build(EMPTY_BUILDER, s.log + calls) == Build(b, calls)
  {
    hide Step;
    RunMore(Init(MAX_DEPTH), t, c);
    JsonCallbacks.NeverStuck(MAX_DEPTH, t + [c]);
    BuildConcat(EMPTY_BUILDER, s.log, calls);
  }

  lemma ReadRefused(t: Text, n: nat, c: int)
    requires n < |t| && c == t[n] && forall i :: 0 <= i <= n ==> t[i] > 0
    requires Run(Init(MAX_DEPTH), t[..n]).Go? && Step(Run(Init(MAX_DEPTH), t[..n]).core, c).Halt?
    ensures Read(t).Refused?
  {
    hide Step;
    RunMore(Init(MAX_DEPTH), t[..n], c);
    assert t[..n] + [c] == t[..n + 1];
    UpToNulFrom(t, n + 1);
    RunHalts(Init(MAX_DEPTH), t[..n + 1], UpToNul(t[n + 1..]));
  }

  lemma ReadEnd(t: Text, n: nat, s: Core, b: Builder)
    requires n <= |t| && (forall i :: 0 <= i < n ==> t[i] > 0) && (n < |t| ==> t[n] <= 0)
    requires Run(Init(MAX_DEPTH), t[..n]) == Go(s) && Build(EMPTY_BUILDER, s.log) == Some(b)
    ensures Read(t) == if !Finished(s) then Refused else if b.root.None? then Untouched else Built(b.root.value)
    ensures Read(t).Built? ==> b.level == 0
  {
    hide Step, Run, Build;
    UpToNulFrom(t, n);
    assert t[..n] + UpToNul(t[n..]) == t[..n];
    if Read(t).Built? {
      var d := ReadInverts(t);
      DocumentBuilds(d);
    }
  }

  /** Parser and builder have taken the text `t`. */
  ghost predicate Reading(parser: Parser, actions: SemanticActions, t: Text)
    reads parser, parser.modes, parser.buffer, parser.modes.data, parser.buffer.data
    reads actions, actions.spine, set i, o | 0 <= i < |actions.spine| && o in actions.spine[i].below :: o
  {
    && parser.Valid() && actions.Valid()
    && Run(Init(MAX_DEPTH), t) == Go(parser.Abs())
    && Build(EMPTY_BUILDER, parser.log) == Some(actions.Abs())
  }

  lemma NothingRead(parser: Parser, actions: SemanticActions)
    requires parser.Valid() && actions.Valid() && parser.Abs() == Init(MAX_DEPTH) && actions.Abs() == EMPTY_BUILDER
    ensures Reading(parser, actions, [])
  {
  }

  /** The body of the loop of `read`: one character, and the callback calls it makes. */
  method Take(parser: Parser, actions: SemanticActions, c: int, ghost t: Text) returns (taken: bool)
    requires Reading(parser, actions, t)
    modifies parser.Storage(), actions, actions.value, actions.cells
    ensures taken ==> Reading(parser, actions, t + [c])
    ensures Run(Init(MAX_DEPTH), t).Go? && (!taken ==> Step(Run(Init(MAX_DEPTH), t).core, c).Halt?)
    ensures fresh(parser.Storage() - old(parser.Storage()))
          && fresh(actions.cells - old(actions.cells) - {actions.value})
    ensures actions.current == null ==> old(actions.current) == null && unchanged(actions.value)
  {
    hide Step, Run, Build, Chain, TreeOf, JsonInvariant.Inv, Parser.Wired;
    ghost var s, b := parser.Abs(), actions.Abs();
    var calls;
    taken, calls := parser.Char(c);
    CallsTaken(t, s, c, calls, b);
    actions.Feed(calls);
    RunMore(Init(MAX_DEPTH), t, c);
  }

  /** What `read` does after its loop: `t` is the whole text, `n` how much of it was taken. */
  method Conclude(parser: Parser, actions: SemanticActions, ghost t: Text, ghost n: nat) returns (ok: bool)
    requires n <= |t| && (forall i :: 0 <= i < n ==> t[i] > 0) && (n < |t| ==> t[n] <= 0)
    requires Reading(parser, actions, t[..n])
    modifies parser`error, parser.modes`top
    ensures ok <==> !Read(t).Refused?
    ensures Read(t).Built? ==> actions.current != null && actions.value.Holds(Read(t).value)
    ensures Read(t).Built? ==> actions.value.below <= actions.cells && actions.value !in actions.value.below
    ensures Read(t).Untouched? ==> actions.current == null
  {
    hide Step, Run, Build, Chain, TreeOf, Cell.Holds, JsonInvariant.Inv, Finished, Parser.Wired;
    ReadEnd(t, n, parser.Abs(), actions.Abs());
    if Read(t).Built? {
      actions.AtRoot();
    }
    ok := parser.DoneParsing();
  }

  /** `read`. The value is not touched by blank text, and holds exactly the tree of an accepted text. */
  method ReadText(t: Text, value: Cell) returns (ok: bool)
    modifies value
    ensures ok <==> !Read(t).Refused?
    ensures Read(t).Built? ==> value.Holds(Read(t).value) && fresh(value.below)
    ensures Read(t).Untouched? ==> unchanged(value)
  {
    hide Step, Run, Read, Reading, UpToNul, Build, Init, Chain, TreeOf, Cell.Holds, Parser.Valid, Parser.Wired,
        Parser.Abs, SemanticActions.Valid, SemanticActions.Abs;
    var actions := new SemanticActions(value);
    var parser := new Parser(MAX_DEPTH);
    NothingRead(parser, actions);
    var n := 0;
    while n < |t| && t[n] > 0
      invariant 0 <= n <= |t| && forall i :: 0 <= i < n ==> t[i] > 0
      invariant fresh(parser.Storage()) && fresh(actions)
      invariant actions.value == value && fresh(actions.cells - {value})
      invariant Reading(parser, actions, t[..n])
      invariant actions.current == null ==> unchanged(value)
    {
      var taken := Take(parser, actions, t[n], t[..n]);
      if !taken {
        ReadRefused(t, n, t[n]);
        return false;
      }
      assert t[..n] + [t[n]] == t[..n + 1];
      n := n + 1;
    }
    ok := Conclude(parser, actions, t, n);
  }
}

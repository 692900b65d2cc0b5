/**
 Every text the grammar generates within the nesting limit is accepted, and the
 callback calls are the events of its derivation.
 */
module JsonSound {
  import opened Basics
  import opened JsonTypes
  import opened JsonMachine
  import opened JsonGrammar
  import opened JsonRuns

  // ---- Brackets and separators ----

  lemma OpenArray(st: State, modes: seq<Mode>, depth: int, log: seq<Event>)
    requires st in {GO, VA, AR} && |modes| != depth + 1
    ensures Step(At(st, modes, depth, log), LBRACKET) == Go(At(AR, modes + [Array], depth, log + [ArrayBegin]))
  {
    assert Chop([] + [LBRACKET]) == [];
  }

  lemma OpenObject(st: State, modes: seq<Mode>, depth: int, log: seq<Event>)
    requires st in {GO, VA, AR} && |modes| != depth + 1
    ensures Step(At(st, modes, depth, log), LBRACE) == Go(At(OB, modes + [Key], depth, log + [ObjectBegin]))
  {
    assert Chop([] + [LBRACE]) == [];
  }

  lemma CloseArray(st: State, modes: seq<Mode>, depth: int, log: seq<Event>)
    requires st == OK || st == AR
    ensures Step(At(st, modes + [Array], depth, log), RBRACKET) == Go(At(OK, modes, depth, log + [ArrayEnd]))
  {
    hide Chop, DecodeUnicode;
    ChopSnoc<int>([], RBRACKET);
    ChopSnoc(modes, Array);
    assert Flush(Nothing, []) + [ArrayEnd] == [ArrayEnd];
  }

  lemma CloseObject(modes: seq<Mode>, depth: int, log: seq<Event>)
    ensures Step(At(OK, modes + [Object], depth, log), RBRACE) == Go(At(OK, modes, depth, log + [ObjectEnd]))
  {
    hide Chop, DecodeUnicode;
    ChopSnoc<int>([], RBRACE);
    ChopSnoc(modes, Object);
    assert Flush(Nothing, []) + [ObjectEnd] == [ObjectEnd];
  }

  lemma CloseEmptyObject(modes: seq<Mode>, depth: int, log: seq<Event>)
    ensures Step(At(OB, modes + [Key], depth, log), RBRACE) == Go(At(OK, modes, depth, log + [ObjectEnd]))
  {
    hide Chop, DecodeUnicode, Flush;
    ChopSnoc(modes, Key);
  }

  lemma CommaInArray(modes: seq<Mode>, depth: int, log: seq<Event>)
    ensures Step(At(OK, modes + [Array], depth, log), COMMA) == Go(At(VA, modes + [Array], depth, log))
  {
    hide Chop, DecodeUnicode;
    ChopSnoc<int>([], COMMA);
    assert log + Flush(Nothing, []) == log;
  }

  lemma CommaInObject(modes: seq<Mode>, depth: int, log: seq<Event>)
    ensures Step(At(OK, modes + [Object], depth, log), COMMA) == Go(At(KE, modes + [Key], depth, log))
  {
    hide Chop, DecodeUnicode;
    ChopSnoc<int>([], COMMA);
    ChopSnoc(modes, Object);
    assert log + Flush(Nothing, []) == log;
  }

  lemma ColonAfterKey(modes: seq<Mode>, depth: int, log: seq<Event>)
    ensures Step(At(CO, modes + [Key], depth, log), COLON) == Go(At(VA, modes + [Object], depth, log))
  {
    hide Chop, DecodeUnicode, Flush;
    ChopSnoc<int>([], COLON);
    ChopSnoc(modes, Key);
  }

  // ---- Reaching a settled state ----

  /** Reading `t` completes a value; once reported, the state is `r`. */
  ghost predicate Settles(s: Core, t: Text, r: Core) {
    Run(s, t).Go? && Settling(Run(s, t).core) && Settle(Run(s, t).core) == r
  }

  lemma SettlesAtOnce(s: Core, t: Text, m: Core)
    requires Leads(s, t, m) && Settling(m)
    ensures Settles(s, t, Settle(m))
  {
  }

  lemma SettlesHere(s: Core, t: Text, modes: seq<Mode>, depth: int, log: seq<Event>)
    requires Leads(s, t, At(OK, modes, depth, log))
    ensures Settles(s, t, At(OK, modes, depth, log))
  {
    hide Run, Step;
    assert log + Flush(Nothing, []) == log;
  }

  lemma SettlesWhite(s: Core, t: Text, r: Core, w: Text)
    requires Settles(s, t, r) && AllWhite(w)
    ensures Settles(s, t + w, r)
  {
    hide Run, Step, Settle, Settling;
    RunConcat(s, t, w);
    SettlingWhites(Run(s, t).core, w);
  }

  lemma SettlesDelimiter(s: Core, t: Text, r: Core, c: int, q: Core)
    requires Settles(s, t, r) && IsDelimiter(c) && Step(r, c) == Go(q)
    ensures Leads(s, t + [c], q)
  {
    hide Run, Step, Settle, Settling, IsDelimiter, Leads;
    var m := Run(s, t).core;
    SettlingDelimiter(m, c);
    assert Leads(s, t, m) by { LeadsRun(s, t); }
    ThenStep(s, t, m, c, q);
  }

  lemma LeadsRun(s: Core, t: Text)
    requires Run(s, t).Go?
    ensures Leads(s, t, Run(s, t).core)
  {
  }

  lemma LeadsSettles(s: Core, a: Text, m: Core, b: Text, r: Core)
    requires Leads(s, a, m) && Settles(m, b, r)
    ensures Settles(s, a + b, r)
  {
    hide Step, Settle, Settling;
    RunConcat(s, a, b);
  }

  lemma SettlesPadded(s: Core, before: Text, t: Text, after: Text, r: Core)
    requires Leads(s, before, s) && Settles(s, t, r) && AllWhite(after)
    ensures Settles(s, before + t + after, r)
  {
    hide Settles, Leads;
    LeadsSettles(s, before, s, t, r);
    SettlesWhite(s, before + t, r, after);
  }

  lemma SettlesMore(s: Core, t: Text, r: Core, c: int, q: Core, u: Text, z: Core)
    requires Settles(s, t, r) && IsDelimiter(c) && Step(r, c) == Go(q) && Settles(q, u, z)
    ensures Settles(s, t + ([c] + u), z)
  {
    hide Settles, Leads, Step;
    SettlesDelimiter(s, t, r, c, q);
    LeadsSettles(s, t + [c], q, u, z);
    assert t + [c] + u == t + ([c] + u);
  }

  lemma Bracketed(s: Core, open: int, a: Core, t: Text, r: Core, close: int, z: Core)
    requires Step(s, open) == Go(a) && Settles(a, t, r) && IsDelimiter(close) && Step(r, close) == Go(z)
    ensures Leads(s, [open] + t + [close], z)
  {
    hide Settles, Leads, Step;
    One(s, open, a);
    LeadsSettles(s, [open], a, t, r);
    SettlesDelimiter(s, [open] + t, r, close, z);
  }

  lemma EmptyBracketed(s: Core, open: int, a: Core, t: Text, close: int, z: Core)
    requires Step(s, open) == Go(a) && Leads(a, t, a) && Step(a, close) == Go(z)
    ensures Leads(s, [open] + t + [close], z)
  {
    hide Leads, Step;
    One(s, open, a);
    Then(s, [open], a, t, a);
    ThenStep(s, [open] + t, a, close, z);
  }

  // ---- Values ----

  /** The mode on top of the stack where a value may appear. */
  predicate InContainer(modes: seq<Mode>) { modes != [] && (Last(modes) == Array || Last(modes) == Object) }

  lemma ScalarRun(v: Value, st: State, modes: seq<Mode>, depth: int, log: seq<Event>)
    requires ValueOk(v) && !IsContainer(v) && (st == VA || st == AR) && InContainer(modes)
    ensures Settles(At(st, modes, depth, log), ValueText(v), At(OK, modes, depth, log + ValueEvents(v)))
  {
    var s := At(st, modes, depth, log);
    hide Leads, Step, Settles;
    match v
    case NullValue =>
      NullRun(st, modes, depth, log);
      SettlesAtOnce(s, NULL_TEXT, Inside(OK, modes, NullType, NULL_TEXT, depth, log));
    case TrueValue =>
      TrueRun(st, modes, depth, log);
      SettlesAtOnce(s, TRUE_TEXT, Inside(OK, modes, TrueType, TRUE_TEXT, depth, log));
    case FalseValue =>
      FalseRun(st, modes, depth, log);
      SettlesAtOnce(s, FALSE_TEXT, Inside(OK, modes, FalseType, FALSE_TEXT, depth, log));
    case NumberValue(n) =>
      NumberRun(st, modes, depth, log, n);
      NumberFlush(n);
      SettlesAtOnce(s, NumberText(n), Inside(NumberState(n), modes, NumberPending(n), NumberText(n), depth, log));
    case StringValue(items) =>
      StringRun(st, modes, depth, log, items);
      SettlesHere(s, StringText(items), modes, depth, log + ValueEvents(v));
  }

  lemma {:induction false} ValueRun(v: Value, st: State, modes: seq<Mode>, depth: int, log: seq<Event>)
    requires ValueOk(v) && (st == VA || st == AR) && InContainer(modes) && |modes| - 1 + Depth(v) <= depth
    ensures Settles(At(st, modes, depth, log), ValueText(v), At(OK, modes, depth, log + ValueEvents(v)))
    decreases v, 1
  {
    if IsContainer(v) {
      ContainerRun(v, st, modes, depth, log);
      hide Settles, Leads;
      SettlesHere(At(st, modes, depth, log), ValueText(v), modes, depth, log + ValueEvents(v));
    } else {
      hide Settles;
      ScalarRun(v, st, modes, depth, log);
    }
  }

  lemma {:induction false} ContainerRun(v: Value, st: State, modes: seq<Mode>, depth: int, log: seq<Event>)
    requires ValueOk(v) && IsContainer(v) && st in {GO, VA, AR} && |modes| - 1 + Depth(v) <= depth
    ensures Leads(At(st, modes, depth, log), ValueText(v), At(OK, modes, depth, log + ValueEvents(v)))
    decreases v, 0
  {
    hide Leads, Step, Settles;
    if v.ArrayValue? {
      ElementsRun(v.elements, AR, modes, depth, log + [ArrayBegin]);
      ArrayRun(v, st, modes, depth, log);
    } else if v.ObjectValue? {
      MembersRun(v.members, OB, modes, depth, log + [ObjectBegin]);
      ObjectRun(v, st, modes, depth, log);
    } else {
      EmptyRun(v, st, modes, depth, log);
    }
  }

  lemma EmptyRun(v: Value, st: State, modes: seq<Mode>, depth: int, log: seq<Event>)
    requires ValueOk(v) && (v.EmptyArray? || v.EmptyObject?) && st in {GO, VA, AR} && |modes| <= depth
    ensures Leads(At(st, modes, depth, log), ValueText(v), At(OK, modes, depth, log + ValueEvents(v)))
  {
    var s := At(st, modes, depth, log);
    var z := At(OK, modes, depth, log + ValueEvents(v));
    hide Leads, Step;
    if v.EmptyArray? {
      OpenArray(st, modes, depth, log);
      WhiteRun(AR, modes + [Array], depth, log + [ArrayBegin], v.gap);
      CloseArray(AR, modes, depth, log + [ArrayBegin]);
      assert log + [ArrayBegin] + [ArrayEnd] == log + ValueEvents(v);
      EmptyBracketed(s, LBRACKET, At(AR, modes + [Array], depth, log + [ArrayBegin]), v.gap, RBRACKET, z);
    } else {
      OpenObject(st, modes, depth, log);
      WhiteRun(OB, modes + [Key], depth, log + [ObjectBegin], v.gap);
      CloseEmptyObject(modes, depth, log + [ObjectBegin]);
      assert log + [ObjectBegin] + [ObjectEnd] == log + ValueEvents(v);
      EmptyBracketed(s, LBRACE, At(OB, modes + [Key], depth, log + [ObjectBegin]), v.gap, RBRACE, z);
    }
  }

  lemma ArrayParts(v: Value, log: seq<Event>)
    requires ValueOk(v) && v.ArrayValue?
    ensures ValueText(v) == [LBRACKET] + ElementsText(v.elements) + [RBRACKET]
    ensures log + ValueEvents(v) == log + [ArrayBegin] + ElementsEvents(v.elements) + [ArrayEnd]
  {
    hide ElementsText, ElementsEvents;
  }

  lemma ObjectParts(v: Value, log: seq<Event>)
    requires ValueOk(v) && v.ObjectValue?
    ensures ValueText(v) == [LBRACE] + MembersText(v.members) + [RBRACE]
    ensures log + ValueEvents(v) == log + [ObjectBegin] + MembersEvents(v.members) + [ObjectEnd]
  {
    hide MembersText, MembersEvents;
  }

  lemma ArrayRun(v: Value, st: State, modes: seq<Mode>, depth: int, log: seq<Event>)
    requires ValueOk(v) && v.ArrayValue? && st in {GO, VA, AR} && |modes| <= depth
    requires Settles(At(AR, modes + [Array], depth, log + [ArrayBegin]), ElementsText(v.elements),
                     At(OK, modes + [Array], depth, log + [ArrayBegin] + ElementsEvents(v.elements)))
    ensures Leads(At(st, modes, depth, log), ValueText(v), At(OK, modes, depth, log + ValueEvents(v)))
  {
    hide Leads, Step, Settles;
    var log2 := log + [ArrayBegin] + ElementsEvents(v.elements);
    OpenArray(st, modes, depth, log);
    CloseArray(OK, modes, depth, log2);
    ArrayParts(v, log);
    hide ValueText, ValueEvents, ElementsText, ElementsEvents, ValueOk;
    Bracketed(At(st, modes, depth, log), LBRACKET, At(AR, modes + [Array], depth, log + [ArrayBegin]),
              ElementsText(v.elements), At(OK, modes + [Array], depth, log2), RBRACKET,
              At(OK, modes, depth, log + ValueEvents(v)));
  }

  lemma ObjectRun(v: Value, st: State, modes: seq<Mode>, depth: int, log: seq<Event>)
    requires ValueOk(v) && v.ObjectValue? && st in {GO, VA, AR} && |modes| <= depth
    requires Settles(At(OB, modes + [Key], depth, log + [ObjectBegin]), MembersText(v.members),
                     At(OK, modes + [Object], depth, log + [ObjectBegin] + MembersEvents(v.members)))
    ensures Leads(At(st, modes, depth, log), ValueText(v), At(OK, modes, depth, log + ValueEvents(v)))
  {
    hide Leads, Step, Settles;
    var log2 := log + [ObjectBegin] + MembersEvents(v.members);
    OpenObject(st, modes, depth, log);
    CloseObject(modes, depth, log2);
    ObjectParts(v, log);
    hide ValueText, ValueEvents, MembersText, MembersEvents, ValueOk;
    Bracketed(At(st, modes, depth, log), LBRACE, At(OB, modes + [Key], depth, log + [ObjectBegin]),
              MembersText(v.members), At(OK, modes + [Object], depth, log2), RBRACE,
              At(OK, modes, depth, log + ValueEvents(v)));
  }

  lemma {:induction false} ElementsRun(e: Elements, st: State, modes: seq<Mode>, depth: int, log: seq<Event>)
    requires ElementsOk(e) && (st == VA || st == AR) && |modes| + ElementsDepth(e) <= depth
    ensures Settles(At(st, modes + [Array], depth, log), ElementsText(e),
                    At(OK, modes + [Array], depth, log + ElementsEvents(e)))
    decreases e, 0
  {
    hide Settles, Leads, Step, ValueText, ValueEvents, Depth, AllWhite;
    ValueRun(e.value, st, modes + [Array], depth, log);
    if e.rest.None? {
      FirstElement(e, st, modes, depth, log);
      assert log + ValueEvents(e.value) == log + ElementsEvents(e);
    } else {
      ElementsRun(e.rest.value, VA, modes, depth, log + ValueEvents(e.value));
      FirstElement(e, st, modes, depth, log);
      MoreElements(e, st, modes, depth, log);
    }
  }

  /** One element, with the white space around it. */
  function ElementText(e: Elements): (t: Text)
    ensures e.rest.None? ==> t == ElementsText(e)
    ensures e.rest.Some? ==> t + ([COMMA] + ElementsText(e.rest.value)) == ElementsText(e)
  {
    e.before + ValueText(e.value) + e.after
  }

  lemma FirstElement(e: Elements, st: State, modes: seq<Mode>, depth: int, log: seq<Event>)
    requires ElementsOk(e) && (st == VA || st == AR)
    requires Settles(At(st, modes + [Array], depth, log), ValueText(e.value),
                     At(OK, modes + [Array], depth, log + ValueEvents(e.value)))
    ensures Settles(At(st, modes + [Array], depth, log), ElementText(e),
                    At(OK, modes + [Array], depth, log + ValueEvents(e.value)))
  {
    hide Settles, Leads, Step, ValueText, ValueEvents, AllWhite;
    WhiteRun(st, modes + [Array], depth, log, e.before);
    SettlesPadded(At(st, modes + [Array], depth, log), e.before, ValueText(e.value), e.after,
                  At(OK, modes + [Array], depth, log + ValueEvents(e.value)));
  }

  lemma MoreElements(e: Elements, st: State, modes: seq<Mode>, depth: int, log: seq<Event>)
    requires ElementsOk(e) && e.rest.Some?
    requires var m := modes + [Array]; var log1 := log + ValueEvents(e.value); var rest := e.rest.value;
             && Settles(At(st, m, depth, log), ElementText(e), At(OK, m, depth, log1))
             && Settles(At(VA, m, depth, log1), ElementsText(rest), At(OK, m, depth, log1 + ElementsEvents(rest)))
    ensures Settles(At(st, modes + [Array], depth, log), ElementsText(e),
                    At(OK, modes + [Array], depth, log + ElementsEvents(e)))
  {
    hide Settles, Leads, Step, ValueText, ValueEvents, AllWhite, ElementText;
    var log1 := log + ValueEvents(e.value);
    CommaInArray(modes, depth, log1);
    assert log1 + ElementsEvents(e.rest.value) == log + ElementsEvents(e);
    SettlesMore(At(st, modes + [Array], depth, log), ElementText(e), At(OK, modes + [Array], depth, log1), COMMA,
                At(VA, modes + [Array], depth, log1), ElementsText(e.rest.value),
                At(OK, modes + [Array], depth, log + ElementsEvents(e)));
  }

  /** A member up to its value. */
  lemma MemberHead(m: Members, st: State, modes: seq<Mode>, depth: int, log: seq<Event>)
    requires MembersOk(m) && (st == OB || st == KE)
    ensures Leads(At(st, modes + [Key], depth, log), m.before + StringText(m.key) + m.gap + [COLON] + m.lead,
                  At(VA, modes + [Object], depth, log + [KeyEvent(ItemsBytes(m.key))]))
  {
    var s := At(st, modes + [Key], depth, log);
    var log1 := log + [KeyEvent(ItemsBytes(m.key))];
    var co := At(CO, modes + [Key], depth, log1);
    var va := At(VA, modes + [Object], depth, log1);
    hide Leads, Step;
    WhiteRun(st, modes + [Key], depth, log, m.before);
    KeyRun(st, modes + [Key], depth, log, m.key);
    Then(s, m.before, s, StringText(m.key), co);
    WhiteRun(CO, modes + [Key], depth, log1, m.gap);
    Then(s, m.before + StringText(m.key), co, m.gap, co);
    ColonAfterKey(modes, depth, log1);
    ThenStep(s, m.before + StringText(m.key) + m.gap, co, COLON, va);
    WhiteRun(VA, modes + [Object], depth, log1, m.lead);
    Then(s, m.before + StringText(m.key) + m.gap + [COLON], va, m.lead, va);
  }

  lemma {:induction false} MembersRun(m: Members, st: State, modes: seq<Mode>, depth: int, log: seq<Event>)
    requires MembersOk(m) && (st == OB || st == KE) && |modes| + MembersDepth(m) <= depth
    ensures Settles(At(st, modes + [Key], depth, log), MembersText(m),
                    At(OK, modes + [Object], depth, log + MembersEvents(m)))
    decreases m, 0
  {
    hide Settles, Leads, Step, ValueText, ValueEvents, Depth, AllWhite, StringText, ItemsOk, ItemsBytes;
    ValueRun(m.value, VA, modes + [Object], depth, log + [KeyEvent(ItemsBytes(m.key))]);
    FirstMember(m, st, modes, depth, log);
    if m.rest.None? {
      assert log + [KeyEvent(ItemsBytes(m.key))] + ValueEvents(m.value) == log + MembersEvents(m);
    } else {
      MembersRun(m.rest.value, KE, modes, depth, log + [KeyEvent(ItemsBytes(m.key))] + ValueEvents(m.value));
      MoreMembers(m, st, modes, depth, log);
    }
  }

  /** One member, with the white space around it. */
  function MemberText(m: Members): (t: Text)
    ensures m.rest.None? ==> t == MembersText(m)
    ensures m.rest.Some? ==> t + ([COMMA] + MembersText(m.rest.value)) == MembersText(m)
  {
    m.before + StringText(m.key) + m.gap + [COLON] + m.lead + ValueText(m.value) + m.after
  }

  lemma FirstMember(m: Members, st: State, modes: seq<Mode>, depth: int, log: seq<Event>)
    requires MembersOk(m) && (st == OB || st == KE)
    requires Settles(At(VA, modes + [Object], depth, log + [KeyEvent(ItemsBytes(m.key))]), ValueText(m.value),
                     At(OK, modes + [Object], depth, log + [KeyEvent(ItemsBytes(m.key))] + ValueEvents(m.value)))
    ensures Settles(At(st, modes + [Key], depth, log), MemberText(m),
                    At(OK, modes + [Object], depth, log + [KeyEvent(ItemsBytes(m.key))] + ValueEvents(m.value)))
  {
    hide Settles, Leads, Step, ValueText, ValueEvents, StringText, ItemsBytes;
    var s := At(st, modes + [Key], depth, log);
    var log1 := log + [KeyEvent(ItemsBytes(m.key))];
    var head := m.before + StringText(m.key) + m.gap + [COLON] + m.lead;
    var r := At(OK, modes + [Object], depth, log1 + ValueEvents(m.value));
    MemberHead(m, st, modes, depth, log);
    LeadsSettles(s, head, At(VA, modes + [Object], depth, log1), ValueText(m.value), r);
    SettlesWhite(s, head + ValueText(m.value), r, m.after);
  }

  lemma MoreMembers(m: Members, st: State, modes: seq<Mode>, depth: int, log: seq<Event>)
    requires MembersOk(m) && m.rest.Some?
    requires var o := modes + [Object]; var log2 := log + [KeyEvent(ItemsBytes(m.key))] + ValueEvents(m.value);
             var rest := m.rest.value;
             && Settles(At(st, modes + [Key], depth, log), MemberText(m), At(OK, o, depth, log2))
             && Settles(At(KE, modes + [Key], depth, log2), MembersText(rest),
                   At(OK, o, depth, log2 + MembersEvents(rest)))
    ensures Settles(At(st, modes + [Key], depth, log), MembersText(m),
                    At(OK, modes + [Object], depth, log + MembersEvents(m)))
  {
    hide Settles, Leads, Step, ValueText, ValueEvents, StringText, ItemsBytes, ItemsOk, AllWhite, MemberText;
    var log2 := log + [KeyEvent(ItemsBytes(m.key))] + ValueEvents(m.value);
    CommaInObject(modes, depth, log2);
    assert log2 + MembersEvents(m.rest.value) == log + MembersEvents(m);
    SettlesMore(At(st, modes + [Key], depth, log), MemberText(m), At(OK, modes + [Object], depth, log2), COMMA,
                At(KE, modes + [Key], depth, log2), MembersText(m.rest.value),
                At(OK, modes + [Object], depth, log + MembersEvents(m)));
  }

  // ---- Documents ----

  /** Texts generated by the grammar are accepted, with the events of the derivation. */
  lemma DocumentAccepted(d: Document, depth: int)
    requires DocumentOk(d) && Depth(d.value) <= depth
    ensures Accepts(depth, DocumentText(d), ValueEvents(d.value))
  {
    var es := ValueEvents(d.value);
    var s := At(GO, [Done], depth, []);
    var r := At(OK, [Done], depth, es);
    hide Step;
    WhiteRun(GO, [Done], depth, [], d.before);
    ContainerRun(d.value, GO, [Done], depth, []);
    assert [] + es == es;
    Then(s, d.before, s, ValueText(d.value), r);
    WhiteRun(OK, [Done], depth, es, d.after);
    Then(s, d.before + ValueText(d.value), r, d.after, r);
  }

  lemma BlankAccepted(t: Text, depth: int)
    requires AllWhite(t)
    ensures Accepts(depth, t, [])
  {
    hide Step;
    WhiteRun(GO, [Done], depth, [], t);
  }
}

/**
 The main results about acceptance: the parser accepts exactly the blank texts
 and the texts of the grammar within its nesting limit, and the callback calls
 are the pre-order of the derivation.
 */
module JsonTheorems {
  import opened JsonTypes
  import opened JsonMachine
  import opened JsonGrammar
  import JsonRuns
  import JsonSound
  import JsonComplete

  /** A text that never leaves state GO is blank and makes no call. */
  lemma {:induction false} StillAtStart(s: Core, t: Text)
    requires s == JsonRuns.At(GO, [Done], s.depth, []) && Run(s, t).Go? && Run(s, t).core.state == GO
    ensures AllWhite(t) && Run(s, t).core == s
    decreases |t|
  {
    if t != [] {
      var r := Step(s, t[0]);
      if IsWhite(t[0]) {
        JsonComplete.WhiteStep(s, t[0]);
        StillAtStart(s, t[1..]);
      } else {
        JsonComplete.TopFirst(s, t[0]);
        LeftStart(s, t[0]);
        NeverBack(r.core, t[1..]);
      }
    }
  }

  lemma LeftStart(s: Core, c: int)
    requires s.state == GO && (c == LBRACE || c == LBRACKET) && Step(s, c).Go?
    ensures Step(s, c).core.state != GO
  {
  }

  lemma RowLeaves(st: State, k: Class)
    requires st != GO
    ensures Transition(st, k) != To(GO)
  {
    PlaceLeaves(st, k);
    DigitLeaves(st, k);
    OtherLeaves(st, k);
    hide PlaceRow, TextRow, DigitRow, LetterRow;
  }

  lemma OtherLeaves(st: State, k: Class)
    requires !st.GO?
    ensures TextRow(st, k) != To(GO) && LetterRow(st, k) != To(GO)
  {
  }

  lemma AfterLeaves(k: Class)
    ensures AfterValue(k) != To(GO)
  {
  }

  lemma PlaceLeaves(st: State, k: Class)
    requires !st.GO?
    ensures PlaceRow(st, k) != To(GO)
  {
    AfterLeaves(k);
    hide AfterValue;
  }

  lemma DigitLeaves(st: State, k: Class)
    ensures DigitRow(st, k) != To(GO)
  {
    AfterLeaves(k);
    hide AfterValue;
  }

  lemma ActLeaves(s: Core, c: int, code: Code)
    requires code != To(GO) && Act(s, c, code).Go?
    ensures Act(s, c, code).core.state != GO
  {
  }

  lemma StepLeaves(s: Core, c: int)
    requires s.state != GO && Step(s, c).Go?
    ensures Step(s, c).core.state != GO
  {
    hide Transition, ClassOf, Act;
    var k := ClassOf(c).value;
    RowLeaves(s.state, k);
    ActLeaves(AddChar(s, c, k).value, c, Transition(s.state, k));
  }

  lemma {:induction false} NeverBack(s: Core, t: Text)
    requires s.state != GO && Run(s, t).Go?
    ensures Run(s, t).core.state != GO
    decreases |t|
  {
    hide Step;
    if t != [] {
      StepLeaves(s, t[0]);
      NeverBack(Step(s, t[0]).core, t[1..]);
    }
  }

  /**
   Acceptance, both ways. `es` is the sequence of callback calls: none for a
   blank text, the events of the derivation otherwise.
   */
  lemma AcceptsExactly(depth: int, t: Text, es: seq<Event>)
    requires depth >= 1
    ensures Accepts(depth, t, es) <==> (AllWhite(t) && es == []) || Generated(depth, t, es)
  {
    hide Step, DocumentText, Depth;
    if AllWhite(t) && es == [] {
      JsonSound.BlankAccepted(t, depth);
    }
    if Generated(depth, t, es) {
      var d: Document :|
        DocumentOk(d) && Depth(d.value) <= depth && DocumentText(d) == t && ValueEvents(d.value) == es;
      JsonSound.DocumentAccepted(d, depth);
    }
    if Accepts(depth, t, es) {
      if Run(Init(depth), t).core.state == GO {
        StillAtStart(Init(depth), t);
      } else {
        var d := JsonComplete.InvertDocument(depth, t, es);
      }
    }
  }
}

/**
 The parser of Json/JSON_parser.cpp on its own storage: a mode stack in a fixed
 array of 128 entries and a text buffer that starts with 3500 bytes and doubles.
 `Parser.Char` is proved to do exactly what `JsonMachine.Step` says; the asserts
 of the source are asserted where the source has them.
 */
module JsonParser {
  import opened Basics
  import opened JsonTypes
  import opened JsonMachine
  import opened JsonInvariant
  import Utf8

  /** `parse_buffer`: `count` characters followed by a NUL. */
  class TextBuffer {
    var data: array<int>
    var count: nat

    predicate Valid()
      reads this, data
    {
      count < data.Length && data[count] == 0
    }

    function Contents(): (t: Text)
      requires Valid()
      reads this, data
      ensures |t| == count
    {
      data[..count]
    }

    constructor ()
      ensures Valid() && Contents() == [] && fresh(data) && data.Length == 3500
    {
      data := new int[3500](_ => 0);
      count := 0;
    }

    /** `parse_buffer_has_space_for(jc, n)`. */
    predicate HasSpaceFor(n: nat)
      reads this
    {
      count + n + 1 <= data.Length
    }

    /** `parse_buffer_grow`: the contents move to a buffer twice as large. */
    method Grow()
      requires Valid()
      modifies this
      ensures Valid() && Contents() == old(Contents()) && fresh(data) && data.Length == 2 * old(data.Length)
    {
      var mem := new int[2 * data.Length](_ => 0);
      forall i | 0 <= i < count {
        mem[i] := data[i];
      }
      data := mem;
    }

    /** `parse_buffer_reserve_for`. */
    method ReserveFor(n: nat)
      requires Valid()
      modifies this
      ensures Valid() && Contents() == old(Contents()) && HasSpaceFor(n)
      ensures data == old(data) || fresh(data)
    {
      while !HasSpaceFor(n)
        invariant Valid() && Contents() == old(Contents()) && (data == old(data) || fresh(data))
        decreases count + n + 1 - data.Length
      {
        Grow();
      }
    }

    method PushBack(c: int)
      requires Valid() && HasSpaceFor(1)
      modifies this`count, data
      ensures Valid() && Contents() == old(Contents()) + [c]
    {
      data[count] := c;
      count := count + 1;
      data[count] := 0;
    }

    /** Drops the last `n` characters. */
    method PopBack(n: nat)
      requires Valid() && n <= count
      modifies this`count, data
      ensures Valid() && Contents() == old(Contents())[..|old(Contents())| - n]
    {
      count := count - n;
      data[count] := 0;
    }

    method Clear()
      requires Valid()
      modifies this`count, data
      ensures Valid() && Contents() == []
    {
      count := 0;
      data[0] := 0;
    }
  }

  /** `stack`, `top` and `depth`. */
  class ModeStack {
    const data: array<Mode>
    const depth: int
    var top: int

    predicate Valid()
      reads this
    {
      data.Length == 128 && 1 <= depth <= 127 && -1 <= top <= depth
    }

    function Contents(): (m: seq<Mode>)
      requires Valid()
      reads this, data
      ensures |m| == top + 1
    {
      data[..top + 1]
    }

    constructor (depth: int)
      requires 1 <= depth <= 127
      ensures Valid() && this.depth == depth && Contents() == [] && fresh(data)
    {
      data := new Mode[128](_ => Done);
      this.depth := depth;
      top := -1;
    }

    /** `push`: false when the nesting limit is reached. */
    method Push(m: Mode) returns (ok: bool)
      requires Valid()
      modifies this`top, data
      ensures Valid() && ok == (|old(Contents())| != depth + 1)
      ensures Contents() == if ok then old(Contents()) + [m] else old(Contents())
    {
      if top == depth {
        return false;
      }
      top := top + 1;
      data[top] := m;
      return true;
    }

    /** `pop`: false on underflow and when the top is another mode. */
    method Pop(m: Mode) returns (ok: bool)
      requires Valid()
      modifies this`top
      ensures Valid() && ok == (old(Contents()) != [] && Last(old(Contents())) == m)
      ensures Contents() == if ok then Chop(old(Contents())) else old(Contents())
    {
      if top < 0 || data[top] != m {
        return false;
      }
      top := top - 1;
      return true;
    }

    function Top(): (m: Mode)
      requires Valid() && top >= 0
      reads this, data
      ensures m == Last(Contents())
    {
      data[top]
    }
  }

  // ---- What single actions do ----

  lemma PlainIs(s: Core, c: int, code: Code)
    ensures match code
            case To(st) => Act(s, c, code) == Go(s.(state := st))
            case Bad => Act(s, c, code) == Halt(SyntaxError(s.state, c), s.log)
            case CommentBegin => Act(s, c, code) == Halt(NoError, s.log)
            case Uc => Act(s, c, code) == DecodeUnicode(s)
            case Sb => Act(s, c, code) == Go(s.(pending := StringType, state := ST, buf := []))
            case _ => true
  {
    hide DecodeUnicode, SyntaxError;
  }

  lemma OpenIs(s: Core, c: int, m: Mode, e: Event)
    requires (m, e) == (Key, ObjectBegin) || (m, e) == (Array, ArrayBegin)
    ensures Act(s, c, if m == Key then ObjectOpen else ArrayOpen)
         == if CanPush(s) then
              Go(s.(state := if m == Key then OB else AR,
                    modes := s.modes + [m], buf := Chop(s.buf), log := s.log + [e]))
            else Halt(NestingDepth, s.log + [e])
  {
  }

  lemma CloseIs(s: Core, c: int, m: Mode, e: Event)
    requires (m, e) == (Object, ObjectEnd) || (m, e) == (Array, ArrayEnd)
    ensures Act(s, c, if m == Object then ObjectClose else ArrayClose)
         == if TopIs(s, m) then Go(Closed(s, Flush(s.pending, Chop(s.buf)) + [e]))
            else Halt(Unbalanced, s.log + (Flush(s.pending, Chop(s.buf)) + [e]))
  {
    hide Flush;
  }

  lemma StringEndIs(s: Core, c: int)
    ensures Act(s, c, StringEnd)
         == if TopIs(s, Key) then
              Go(s.(state := CO, pending := Nothing, buf := [], log := s.log + [KeyEvent(Chop(s.buf))]))
            else if TopIs(s, Array) || TopIs(s, Object) then
              Go(s.(state := OK, pending := Nothing, buf := [], log := s.log + Flush(s.pending, Chop(s.buf))))
            else Halt(NoError, s.log)
  {
    hide Flush;
  }

  function Separated(s: Core): Core {
    s.(pending := Nothing, buf := [], log := s.log + Flush(s.pending, Chop(s.buf)))
  }

  lemma SeparatorIs(s: Core, c: int)
    ensures Act(s, c, Separator)
         == if TopIs(s, Object) then Go(Separated(s).(state := KE, modes := Chop(s.modes) + [Key]))
            else if TopIs(s, Array) then Go(Separated(s).(state := VA))
            else Halt(NoError, Separated(s).log)
  {
    hide Flush;
  }

  class Parser {
    var state: State
    var pending: Pending
    var escaped: bool
    var surrogate: int
    var error: Error
    const modes: ModeStack
    const buffer: TextBuffer
    /** The callback calls made so far. */
    ghost var log: seq<Event>

    predicate Wired()
      reads this, modes, buffer, modes.data, buffer.data
    {
      && modes.Valid() && buffer.Valid()
      && modes.data as object != buffer.data
    }

    ghost predicate Valid()
      reads this, modes, buffer, modes.data, buffer.data
    {
      Wired() && Inv(Abs())
    }

    /** The value this object stands for. */
    ghost function Abs(): Core
      requires Wired()
      reads this, modes, buffer, modes.data, buffer.data
    {
      Core(state, modes.Contents(), pending, escaped, surrogate, buffer.Contents(), modes.depth, log)
    }

    /** `new_JSON_parser`: a depth of 0 means 1. */
    constructor (depth: int)
      requires 0 <= depth <= 127
      ensures Valid() && Abs() == Init(if depth == 0 then 1 else depth) && error == NoError
      ensures fresh(Storage())
    {
      state, pending, escaped, surrogate, error, log := GO, Nothing, false, 0, NoError, [];
      modes := new ModeStack(if depth == 0 then 1 else depth);
      buffer := new TextBuffer();
      new;
      var ok := modes.Push(Done);
      InitInv(modes.depth);
    }

    /** The storage a call may write to. */
    ghost function Storage(): set<object>
      reads this, buffer
    {
      {this, modes, modes.data, buffer, buffer.data}
    }

    /** `set_error`. */
    method SetError(c: int)
      modifies this`error
      ensures error == SyntaxError(state, c)
    {
      match state {
        case GO =>
          error := if c == LBRACE || c == RBRACE || c == LBRACKET || c == RBRACKET then Unbalanced else InvalidChar;
        case OB => error := ExpectedKey;
        case AR => error := Unbalanced;
        case CO => error := ExpectedColon;
        case KE => error := ExpectedKey;
        case U1 | U2 | U3 | U4 | D1 | D2 => error := InvalidUnicode;
        case T1 | T2 | T3 | F1 | F2 | F3 | F4 | N1 | N2 | N3 => error := InvalidKeyword;
        case MI | ZE | IT | FR | E1 | E2 | E3 => error := InvalidNumber;
        case _ => error := InvalidChar;
      }
    }

    /** `add_escaped_char_to_parse_buffer`. */
    method AddEscapedChar(c: int) returns (ok: bool)
      requires Wired() && buffer.HasSpaceFor(1) && buffer.Contents() != []
      modifies this`escaped, buffer`count, buffer.data
      ensures Wired() && ok == Unescape(c).Some? && !escaped
      ensures modes.Contents() == old(modes.Contents())
      ensures ok ==> buffer.Contents() == Chop(old(buffer.Contents())) + Unescape(c).value
    {
      escaped := false;
      ghost var kept := Chop(buffer.Contents());
      buffer.PopBack(1);
      assert buffer.Contents() == kept;
      hide Chop;
      ok := true;
      match c {
        case 98 => buffer.PushBack(8);
        case 102 => buffer.PushBack(12);
        case 110 => buffer.PushBack(10);
        case 114 => buffer.PushBack(13);
        case 116 => buffer.PushBack(9);
        case 34 => buffer.PushBack(34);
        case 92 => buffer.PushBack(92);
        case 47 => buffer.PushBack(47);
        case 117 => buffer.PushBack(92); buffer.PushBack(117);
        case _ => ok := false;
      }
    }

    /** `add_char_to_parse_buffer`. */
    method AddToBuffer(c: int, k: Class) returns (ok: bool)
      requires Wired() && (escaped ==> buffer.Contents() != [])
      modifies this`escaped, this`error, buffer, buffer.data
      ensures Wired() && (buffer.data == old(buffer.data) || fresh(buffer.data))
      ensures ok ==> AddChar(old(Abs()), c, k) == Some(Abs()) && error == old(error)
      ensures !ok ==> AddChar(old(Abs()), c, k).None? && error == InvalidEscape
    {
      buffer.ReserveFor(1);
      if escaped {
        ok := AddEscapedChar(c);
        if !ok {
          error := InvalidEscape;
        }
      } else {
        ok := true;
        if pending != Nothing || !(k.Space? || k.White?) {
          buffer.PushBack(c % 256);
        }
      }
    }

    /** What a call or an action has done, compared with the outcome `o` of the step function. */
    ghost predicate Did(o: Outcome, ok: bool, calls: seq<Event>, log0: seq<Event>, error0: Error)
      reads this, modes, buffer, modes.data, buffer.data
    {
      && ok == o.Go? && log == log0 + calls
      && (ok ==> Wired() && Abs() == o.core && error == error0)
      && (!ok ==> log == o.log && error == if o.error == NoError then error0 else o.error)
    }

    /** `parse_parse_buffer`: reports the pending value and clears the buffer. */
    method ParseParseBuffer() returns (calls: seq<Event>)
      requires Wired()
      modifies this`log, buffer`count, buffer.data
      ensures Wired() && calls == Flush(pending, old(buffer.Contents()))
      ensures buffer.Contents() == [] && modes.Contents() == old(modes.Contents()) && log == old(log) + calls
    {
      calls := [];
      match pending {
        case Nothing =>
        case FloatType => calls := [FloatEvent(Lexeme(buffer.Contents()))];
        case IntegerType => calls := [IntegerEvent(ScanInteger(Lexeme(buffer.Contents())))];
        case StringType => calls := [StringEvent(buffer.Contents())];
        case NullType => calls := [NullEvent];
        case TrueType => calls := [TrueEvent];
        case FalseType => calls := [FalseEvent];
      }
      log := log + calls;
      buffer.Clear();
    }

    /** One hexadecimal digit of an escape, by the arithmetic of `decode_unicode_char`. */
    method HexAt(i: nat) returns (x: int)
      requires Wired() && i < buffer.count && IsHex(buffer.Contents()[i])
      ensures x == HexValue(buffer.Contents()[i])
    {
      x := buffer.data[i];
      if x >= 97 {
        x := x - (97 - 10);
      } else if x >= 65 {
        x := x - (65 - 10);
      } else {
        x := x - 0x30;
      }
      assert x < 16;
    }

    /** Writes `uc` as a lead byte and `trail` further bytes. */
    method PushEncoded(uc: int, trail: nat)
      requires Wired() && 0 <= uc <= 0x10FFFF && trail == Utf8.Trail(uc) && buffer.HasSpaceFor(4)
      modifies buffer`count, buffer.data
      ensures Wired() && buffer.Contents() == old(buffer.Contents()) + Utf8.Encode(uc)
      ensures modes.Contents() == old(modes.Contents())
    {
      ghost var kept := buffer.Contents();
      Utf8.EncodeBytes(uc);
      buffer.PushBack(uc / Utf8.Shift(trail) + Utf8.LeadBits(trail));
      var i := trail;
      while i > 0
        invariant 0 <= i <= trail && Wired() && modes.Contents() == old(modes.Contents())
        invariant buffer.count == |kept| + 1 + trail - i && buffer.data == old(buffer.data)
        invariant buffer.Contents() == kept + Utf8.Encode(uc)[..1 + trail - i]
      {
        i := i - 1;
        buffer.PushBack(uc / Utf8.Shift(i) % 0x40 + 0x80);
        assert Utf8.Encode(uc)[..1 + trail - i] == Utf8.Encode(uc)[..trail - i] + [Utf8.Encode(uc)[trail - i]];
      }
    }

    /** The code unit spelled by the last four characters, which are then dropped with the `\u` before them. */
    method TakeUnit() returns (uc: int)
      requires Wired() && HexTail(buffer.Contents(), 4)
      modifies buffer`count, buffer.data
      ensures Wired() && modes.Contents() == old(modes.Contents()) && buffer.HasSpaceFor(6)
      ensures var t := old(buffer.Contents()); var n := |t|;
              && n >= 6 && buffer.Contents() == t[..n - 6]
              && uc == 0x1000 * HexValue(t[n - 4]) + 0x100 * HexValue(t[n - 3])
                       + 0x10 * HexValue(t[n - 2]) + HexValue(t[n - 1])
    {
      assert buffer.count >= 6;
      var n := buffer.count;
      var x0 := HexAt(n - 4);
      var x1 := HexAt(n - 3);
      var x2 := HexAt(n - 2);
      var x3 := HexAt(n - 1);
      uc := 0x1000 * x0 + 0x100 * x1 + 0x10 * x2 + x3;
      buffer.PopBack(6);
    }

    /** `decode_unicode_char`; its asserts on the length and the digits hold by the invariant. */
    method DecodeUnicodeChar() returns (ok: bool)
      requires Wired() && HexTail(buffer.Contents(), 4) && (surrogate != 0 ==> Utf8.IsHigh(surrogate))
      modifies this`surrogate, buffer`count, buffer.data
      ensures Wired() && ok == DecodeUnicode(old(Abs())).Go?
      ensures ok ==> DecodeUnicode(old(Abs())).core == Abs().(state := if surrogate != 0 then D1 else ST)
    {
      ok := true;
      var uc := TakeUnit();
      if surrogate != 0 {
        if Utf8.IsLow(uc) {
          PushEncoded(Utf8.Join(surrogate, uc), 3);
          surrogate := 0;
        } else {
          ok := false;
        }
      } else if Utf8.IsHigh(uc) {
        surrogate := uc;
      } else if Utf8.IsLow(uc) {
        ok := false;
      } else {
        PushEncoded(uc, Utf8.Trail(uc));
      }
    }

    /** The pending value is reported, then the end of a container. */
    method Close(c: int, m: Mode, e: Event) returns (ok: bool, calls: seq<Event>)
      requires Wired() && buffer.count >= 1
      requires (m, e) == (Object, ObjectEnd) || (m, e) == (Array, ArrayEnd)
      modifies this, modes`top, buffer`count, buffer.data
      ensures Did(Act(old(Abs()), c, if m == Object then ObjectClose else ArrayClose), ok, calls, old(log), old(error))
    {
      CloseIs(Abs(), c, m, e);
      hide Act, Flush;
      ghost var s := Abs();
      buffer.PopBack(1);
      assert buffer.Contents() == Chop(s.buf);
      hide Chop;
      calls := ParseParseBuffer();
      Assoc(old(log), calls, [e]);
      calls := calls + [e];
      log := log + [e];
      ok := modes.Pop(m);
      if !ok {
        error := Unbalanced;
        return;
      }
      pending := Nothing;
      state := OK;
    }

    method CloseEmptyObject(c: int) returns (ok: bool, calls: seq<Event>)
      requires Wired()
      modifies this, modes`top, buffer`count, buffer.data
      ensures Did(Act(old(Abs()), c, EmptyObjectEnd), ok, calls, old(log), old(error))
    {
      buffer.Clear();
      calls := [ObjectEnd];
      log := log + [ObjectEnd];
      ok := modes.Pop(Key);
      if ok {
        state := OK;
      }
    }

    method Open(c: int, m: Mode, e: Event) returns (ok: bool, calls: seq<Event>)
      requires Wired() && buffer.count >= 1 && pending == Nothing
      requires (m, e) == (Key, ObjectBegin) || (m, e) == (Array, ArrayBegin)
      modifies this, modes`top, modes.data, buffer`count, buffer.data
      ensures Did(Act(old(Abs()), c, if m == Key then ObjectOpen else ArrayOpen), ok, calls, old(log), old(error))
    {
      OpenIs(Abs(), c, m, e);
      hide Act;
      buffer.PopBack(1);
      calls := [e];
      log := log + [e];
      ok := modes.Push(m);
      if !ok {
        error := NestingDepth;
        return;
      }
      assert pending == Nothing;
      state := if m == Key then OB else AR;
    }

    /** The closing quote: a key or a string value, depending on the mode. */
    method EndString(c: int) returns (ok: bool, calls: seq<Event>)
      requires Wired() && buffer.count >= 1 && modes.top >= 0 && pending == StringType
      modifies this, buffer`count, buffer.data
      ensures Did(Act(old(Abs()), c, StringEnd), ok, calls, old(log), old(error))
    {
      StringEndIs(Abs(), c);
      hide Act, Flush;
      buffer.PopBack(1);
      ok, calls := true, [];
      match modes.Top() {
        case Key =>
          assert pending == StringType;
          pending, state := Nothing, CO;
          calls := [KeyEvent(buffer.Contents())];
          log := log + calls;
          buffer.Clear();
        case Array | Object =>
          assert pending == StringType;
          calls := ParseParseBuffer();
          pending, state := Nothing, OK;
        case Done =>
          ok := false;
      }
    }

    /** A pop followed by a push, as commas and colons in objects do. */
    method Flip(from: Mode, to: Mode) returns (ok: bool)
      requires Wired()
      modifies modes`top, modes.data
      ensures Wired() && ok == (old(modes.Contents()) != [] && Last(old(modes.Contents())) == from)
      ensures ok ==> modes.Contents() == Chop(old(modes.Contents())) + [to]
      ensures buffer.Contents() == old(buffer.Contents())
    {
      ok := modes.Pop(from);
      if ok {
        ok := modes.Push(to);
      }
    }

    /** A comma: in an object it flips the mode back to a key. */
    method Separate(c: int) returns (ok: bool, calls: seq<Event>)
      requires Wired() && buffer.count >= 1 && modes.top >= 0 && pending != StringType
      modifies this, modes`top, modes.data, buffer`count, buffer.data
      ensures Did(Act(old(Abs()), c, Separator), ok, calls, old(log), old(error))
    {
      SeparatorIs(Abs(), c);
      hide Act, Flush;
      ghost var s := Abs();
      buffer.PopBack(1);
      assert buffer.Contents() == Chop(s.buf);
      hide Chop;
      calls := ParseParseBuffer();
      assert pending != StringType;
      var top := modes.Top();
      if top == Object {
        ok := Flip(Object, Key);
        pending, state := Nothing, KE;
      } else if top == Array {
        ok := true;
        pending, state := Nothing, VA;
      } else {
        ok := false;
      }
    }

    /** A colon flips the mode from key to object. */
    method EndKey(c: int) returns (ok: bool, calls: seq<Event>)
      requires Wired() && buffer.count >= 1 && pending == Nothing
      modifies this, modes`top, modes.data, buffer`count, buffer.data
      ensures Did(Act(old(Abs()), c, KeyEnd), ok, calls, old(log), old(error))
    {
      calls := [];
      buffer.PopBack(1);
      ok := Flip(Key, Object);
      if ok {
        assert pending == Nothing;
        state := VA;
      }
    }

    /** The actions that only record what kind of value begins or what comes next. */
    method Note(c: int, code: Code) returns (ok: bool, calls: seq<Event>)
      requires Wired() && code in {Ex, Mx, Zx, Ix, De, Df, Nu, Fa, Tr}
      requires code in {Nu, Fa, Tr} ==> pending == Nothing
      requires code in {De, Df} ==> pending !in {NullType, TrueType, FalseType, StringType}
      requires code == Df ==> buffer.count >= 1 && buffer.Contents()[buffer.count - 1] == 46
      modifies this
      ensures Did(Act(old(Abs()), c, code), ok, calls, old(log), old(error))
    {
      ok, calls := true, [];
      match code {
        case Ex => escaped, state := true, ES;
        case Mx => pending, state := IntegerType, MI;
        case Zx => pending, state := IntegerType, ZE;
        case Ix => pending, state := IntegerType, IT;
        case De => pending, state := FloatType, E1;
        case Df =>
          assert buffer.data[buffer.count - 1] == 46;
          pending, state := FloatType, FX;
        case Nu => pending, state := NullType, N1;
        case Fa => pending, state := FalseType, F1;
        case Tr => pending, state := TrueType, T1;
      }
    }

    /** The action the table gives for a character that is already in the buffer. */
    method Perform(c: int, code: Code) returns (ok: bool, calls: seq<Event>)
      requires Wired() && modes.top >= 0 && ActReady(Abs(), code)
      modifies this, modes`top, modes.data, buffer`count, buffer.data
      ensures Did(Act(old(Abs()), c, code), ok, calls, old(log), old(error))
    {
      PlainIs(Abs(), c, code);
      hide Act, ActReady, DecodeUnicode, SyntaxError;
      match code {
        case To(next) =>
          ok, calls := true, [];
          state := next;
        case Uc =>
          calls := [];
          ok := DecodeUnicodeChar();
          if ok {
            state := if surrogate != 0 then D1 else ST;
          } else {
            error := InvalidUnicode;
          }
        case Sb =>
          ok, calls := true, [];
          buffer.Clear();
          assert pending == Nothing;
          pending, state := StringType, ST;
        case Ex | Mx | Zx | Ix | De | Df | Nu | Fa | Tr => ok, calls := Note(c, code);
        case CommentBegin => ok, calls := false, [];
        case EmptyObjectEnd => ok, calls := CloseEmptyObject(c);
        case ObjectClose => ok, calls := Close(c, Object, ObjectEnd);
        case ArrayClose => ok, calls := Close(c, Array, ArrayEnd);
        case ObjectOpen => ok, calls := Open(c, Key, ObjectBegin);
        case ArrayOpen => ok, calls := Open(c, Array, ArrayBegin);
        case StringEnd => ok, calls := EndString(c);
        case Separator => ok, calls := Separate(c);
        case KeyEnd => ok, calls := EndKey(c);
        case Bad =>
          ok, calls := false, [];
          SetError(c);
      }
    }

    /**
     `JSON_parser_char`: one step of the machine. `calls` are the callback calls
     made on the way, whether or not the character is read.
     */
    method Char(c: int) returns (ok: bool, calls: seq<Event>)
      requires Valid()
      modifies this, modes`top, modes.data, buffer, buffer.data
      ensures Did(Step(old(Abs()), c), ok, calls, old(log), old(error))
      ensures ok ==> Valid()
      ensures buffer.data == old(buffer.data) || fresh(buffer.data)
    {
      hide Act, Transition, ClassOf, AddChar, ActReady;
      ok, calls := false, [];
      if c < 0 {
        error := InvalidChar;
        return;
      }
      var column := ClassOf(c);
      if column.None? {
        SetError(c);
        return;
      }
      ghost var s := Abs();
      assert escaped ==> buffer.Contents() != [];
      ok := AddToBuffer(c, column.value);
      if !ok {
        return;
      }
      AlwaysReady(s, c, column.value);
      ok, calls := Perform(c, Transition(state, column.value));
      if ok {
        StepInv(s, c);
      }
    }

    /** `JSON_parser_done`. */
    method DoneParsing() returns (ok: bool)
      requires Valid()
      modifies this`error, modes`top
      ensures ok == Finished(old(Abs()))
    {
      if state == OK || state == GO {
        ok := modes.Pop(Done);
        if ok {
          assert old(modes.Contents())[old(modes.top)] == Done;
          return;
        }
      }
      error := Unbalanced;
      ok := false;
    }
  }
}

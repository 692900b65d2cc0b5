/**
 Which bytes `GoodBeginning` of Com/MsgSocket.cpp takes for a header, as a
 grammar: the tag and three numbers, each as far as sscanf reads it.
 */
module BipGrammar {
  import opened Basics
  import opened BipFrames
  import opened BipHeader

  /** A number: white space, a sign, `0x`, and digits. */
  datatype Field = Field(blanks: Bytes, sign: Bytes, prefix: Bytes, digits: Bytes)

  predicate AllHex(t: Bytes) { forall i :: 0 <= i < |t| ==> IsHex(t[i]) }

  /** At most eight characters, the white space not counted. */
  predicate FieldOk(f: Field) {
    && (forall i :: 0 <= i < |f.blanks| ==> f.blanks[i] == 0x20 || 0x09 <= f.blanks[i] <= 0x0D)
    && (f.sign == [] || f.sign == [0x2B] || f.sign == [0x2D])
    && (f.prefix == [] || f.prefix == [0x30, 0x78] || f.prefix == [0x30, 0x58])
    && f.digits != [] && AllHex(f.digits)
    && |f.sign| + |f.prefix| + |f.digits| <= 8
  }

  function FieldText(f: Field): Bytes { f.blanks + f.sign + f.prefix + f.digits }

  /** The number modulo 2^32. */
  function FieldValue(f: Field): int
    requires FieldOk(f)
  {
    var n := HexNumber(f.digits);
    if f.sign == [0x2D] && n > 0 then 0x1_0000_0000 - n else n
  }

  /** It is followed by a byte that cannot belong to it, by nothing, or has all its characters. */
  predicate Whole(f: Field, rest: Bytes) {
    || |f.sign| + |f.prefix| + |f.digits| == 8
    || rest == []
    || (!IsHex(rest[0]) && !(f.prefix == [] && f.digits == [0x30] && (rest[0] == 0x78 || rest[0] == 0x58)))
  }

  /** The tag, three such numbers, and anything behind them. */
  ghost predicate IsHeader(b: Bytes, h: Header) {
    exists f1: Field, f2: Field, f3: Field, rest: Bytes :: Spells(b, h, f1, f2, f3, rest)
  }

  predicate Spells(b: Bytes, h: Header, f1: Field, f2: Field, f3: Field, rest: Bytes) {
    && FieldOk(f1) && FieldOk(f2) && FieldOk(f3)
    && b == TAG_START + (FieldText(f1) + (FieldText(f2) + (FieldText(f3) + rest)))
    && Whole(f1, FieldText(f2) + (FieldText(f3) + rest)) && Whole(f2, FieldText(f3) + rest) && Whole(f3, rest)
    && h == Header(FieldValue(f1), FieldValue(f2), FieldValue(f3))
  }

  // ---- Reading a number ----

  lemma {:induction false} BlanksRead(numbers: seq<word>, blanks: Bytes, more: Bytes)
    requires |numbers| < 3 && forall i :: 0 <= i < |blanks| ==> IsBlank(blanks[i])
    ensures ReadAll(Between(numbers), blanks + more) == ReadAll(Between(numbers), more)
    decreases |blanks|
  {
    if blanks == [] {
      assert blanks + more == more;
    } else {
      var all := blanks + more;
      assert all[0] == blanks[0] && all[1..] == blanks[1..] + more;
      BlanksRead(numbers, blanks[1..], more);
      ReadFirst(Between(numbers), all);
      assert Read(Between(numbers), all[0]) == Between(numbers);
      hide ReadAll, Read;
    }
  }

  /** The shape of a number with these digits behind what there was before them. */
  function ShapeAfter(start: Shape, t: Bytes): Shape
    requires AllHex(t)
  {
    if t == [] then start else if start.Empty? && t == [0x30] then Zero else Digits(HexNumber(t))
  }

  /** The scanner behind these digits. */
  function Behind(numbers: seq<word>, negative: bool, start: Shape, left: nat, t: Bytes): Scanner
    requires AllHex(t) && |t| <= left
  {
    if |t| == left then EndNumber(numbers, negative, ShapeAfter(start, t))
    else InNumber(numbers, negative, ShapeAfter(start, t), left - |t|)
  }

  lemma ShapeNext(start: Shape, u: Bytes, c: byte)
    requires (start.Empty? || start.Prefix?) && AllHex(u) && IsHex(c)
    ensures ShapeAfter(start, u + [c])
         == if ShapeAfter(start, u).Empty? && c == ZERO then Zero
            else Digits(16 * Magnitude(ShapeAfter(start, u)) + HexValue(c))
  {
    assert (u + [c])[..|u|] == u;
    assert Magnitude(ShapeAfter(start, u)) == HexNumber(u);
    assert u + [c] == [0x30] <==> u == [] && c == 0x30;
  }

  lemma {:induction false} DigitsTaken(numbers: seq<word>, negative: bool, start: Shape, left: nat, t: Bytes)
    requires |numbers| < 3 && (start.Empty? || start.Prefix?) && 0 < |t| <= left && AllHex(t)
    ensures ReadAll(InNumber(numbers, negative, start, left), t) == Behind(numbers, negative, start, left, t)
    decreases |t|
  {
    hide ReadAll, Read, ShapeAfter, EndNumber;
    var s, n := InNumber(numbers, negative, start, left), |t| - 1;
    var u, c := t[..n], t[n];
    assert t == u + [c];
    if n > 0 {
      DigitsTaken(numbers, negative, start, left, u);
    } else {
      NoneTaken(s, start);
    }
    ReadConcat(s, u, [c]);
    OneTaken(numbers, negative, start, left, u, c);
  }

  lemma NoneTaken(s: Scanner, start: Shape)
    requires start.Empty? || start.Prefix?
    ensures ReadAll(s, []) == s && ShapeAfter(start, []) == start
  {
  }

  lemma OneTaken(numbers: seq<word>, negative: bool, start: Shape, left: nat, u: Bytes, c: byte)
    requires |numbers| < 3 && (start.Empty? || start.Prefix?) && AllHex(u) && IsHex(c) && |u| < left
    ensures ReadAll(InNumber(numbers, negative, ShapeAfter(start, u), left - |u|), [c])
         == Behind(numbers, negative, start, left, u + [c])
  {
    ShapeNext(start, u, c);
    hide ShapeAfter, EndNumber, Magnitude, ReadAll;
    ReadFirst(InNumber(numbers, negative, ShapeAfter(start, u), left - |u|), [c]);
    NoneTaken(Read(InNumber(numbers, negative, ShapeAfter(start, u), left - |u|), c), start);
    assert [c][1..] == [];
  }

  /** A number with digits ends at the first byte that does not belong to it, or with the string. */
  lemma NumberEnds(s: Scanner, rest: Bytes)
    requires s.InNumber? && HasDigits(s.shape)
    requires rest == [] || (!IsHex(rest[0]) && !(s.shape.Zero? && (rest[0] == 0x78 || rest[0] == 0x58)))
    ensures End(ReadAll(s, rest)) == End(ReadAll(EndNumber(s.numbers, s.negative, s.shape), rest))
  {
    if rest != [] {
      ReadFirst(s, rest);
      ReadFirst(EndNumber(s.numbers, s.negative, s.shape), rest);
      EndsHere(s, rest[0], rest[1..]);
    }
    hide ReadAll;
  }

  lemma EndsHere(s: Scanner, c: byte, more: Bytes)
    requires s.InNumber? && HasDigits(s.shape)
    requires !IsHex(c) && !(s.shape.Zero? && (c == 0x78 || c == 0x58))
    ensures var r := EndNumber(s.numbers, s.negative, s.shape); Read(s, c) == Read(r, c)
  {
    hide Value;
  }

  /** What a number leaves behind: the next one is due, or the header is there. */
  function Next(numbers: seq<word>, v: int): Scanner
    requires |numbers| < 3 && 0 <= v < WORD
  {
    if |numbers| < 2 then Between(numbers + [v]) else Matched(Header(numbers[0], numbers[1], v))
  }

  lemma NextIs(numbers: seq<word>, f: Field)
    requires |numbers| < 3 && FieldOk(f)
    ensures 0 <= FieldValue(f) < WORD
    ensures EndNumber(numbers, f.sign == [0x2D], Digits(HexNumber(f.digits))) == Next(numbers, FieldValue(f))
    ensures f.digits == [0x30] ==> EndNumber(numbers, f.sign == [0x2D], Zero) == Next(numbers, FieldValue(f))
  {
    WordDigits();
    Power16Grows(|f.digits|, 8);
    ValueIs(f.sign == [0x2D], Digits(HexNumber(f.digits)));
    ValueIs(f.sign == [0x2D], Zero);
    if f.digits == [0x30] {
      assert f.digits[..0] == [];
    }
    hide Value, Power16;
  }

  lemma SignRead(numbers: seq<word>, sign: Bytes, more: Bytes)
    requires |numbers| < 3 && (sign == [] || sign == [0x2B] || sign == [0x2D]) && more != [] && IsHex(more[0])
    ensures ReadAll(Between(numbers), sign + more)
         == ReadAll(InNumber(numbers, sign == [0x2D], Empty, 8 - |sign|), more)
  {
    var all := sign + more;
    ReadFirst(Between(numbers), all);
    if sign == [] {
      assert all == more;
      ReadFirst(InNumber(numbers, false, Empty, 8), more);
      assert Read(Between(numbers), more[0]) == Read(InNumber(numbers, false, Empty, 8), more[0]);
    } else {
      assert all[0] == sign[0] && all[1..] == more;
      assert Read(Between(numbers), sign[0]) == InNumber(numbers, sign[0] == 0x2D, Empty, 7);
    }
    hide ReadAll, Read;
  }

  lemma PrefixRead(numbers: seq<word>, negative: bool, left: nat, x: byte, more: Bytes)
    requires |numbers| < 3 && left >= 7 && (x == 0x78 || x == 0x58)
    ensures ReadAll(InNumber(numbers, negative, Empty, left), [0x30, x] + more)
         == ReadAll(InNumber(numbers, negative, Prefix, left - 2), more)
  {
    var all := [0x30, x] + more;
    var s := InNumber(numbers, negative, Empty, left);
    var z := InNumber(numbers, negative, Zero, left - 1);
    ReadFirst(s, all);
    ReadFirst(z, all[1..]);
    assert all[1..][1..] == more && all[1..][0] == x;
    assert Read(s, 0x30) == z && Read(z, x) == InNumber(numbers, negative, Prefix, left - 2);
    hide ReadAll, Read;
  }

  /** The digits, and the end of the number. */
  lemma DigitsRead(numbers: seq<word>, f: Field, rest: Bytes)
    requires |numbers| < 3 && FieldOk(f) && Whole(f, rest)
    ensures 0 <= FieldValue(f) < WORD
    ensures var s := InNumber(numbers, f.sign == [0x2D], if f.prefix == [] then Empty else Prefix,
                              8 - |f.sign| - |f.prefix|);
            End(ReadAll(s, f.digits + rest)) == End(ReadAll(Next(numbers, FieldValue(f)), rest))
  {
    NextIs(numbers, f);
    hide ReadAll, End, Next, FieldValue, EndNumber, Read;
    var negative, start, left := f.sign == [0x2D], if f.prefix == [] then Empty else Prefix, 8 - |f.sign| - |f.prefix|;
    DigitsTaken(numbers, negative, start, left, f.digits);
    ReadConcat(InNumber(numbers, negative, start, left), f.digits, rest);
    if |f.digits| < left {
      NumberEnds(InNumber(numbers, negative, ShapeAfter(start, f.digits), left - |f.digits|), rest);
    }
  }

  lemma TextInParts(f: Field, rest: Bytes)
    ensures FieldText(f) + rest == f.blanks + (f.sign + (f.prefix + (f.digits + rest)))
  {
  }

  /** A number is read to its end, whatever follows it. */
  lemma FieldRead(numbers: seq<word>, f: Field, rest: Bytes)
    requires |numbers| < 3 && FieldOk(f) && Whole(f, rest)
    ensures 0 <= FieldValue(f) < WORD
    ensures End(ReadAll(Between(numbers), FieldText(f) + rest)) == End(ReadAll(Next(numbers, FieldValue(f)), rest))
  {
    DigitsRead(numbers, f, rest);
    hide ReadAll, End, Next, FieldValue, Read, FieldText, Whole;
    var more := f.prefix + (f.digits + rest);
    TextInParts(f, rest);
    BlanksRead(numbers, f.blanks, f.sign + more);
    SignRead(numbers, f.sign, more);
    if f.prefix == [] {
      assert more == f.digits + rest;
    } else {
      PrefixRead(numbers, f.sign == [0x2D], 8 - |f.sign|, f.prefix[1], f.digits + rest);
      assert f.prefix == [0x30, f.prefix[1]];
    }
  }

  // ---- Finding a number ----

  lemma {:induction false} HexPrefix(t: Bytes, left: nat) returns (k: nat)
    ensures k <= |t| && k <= left && AllHex(t[..k]) && (k == left || k == |t| || !IsHex(t[k]))
    decreases left
  {
    if left == 0 || t == [] || !IsHex(t[0]) {
      k := 0;
    } else {
      var m := HexPrefix(t[1..], left - 1);
      k := m + 1;
      assert t[..k] == [t[0]] + t[1..][..m];
    }
  }

  lemma DigitsFound(numbers: seq<word>, negative: bool, start: Shape, left: nat, t: Bytes)
      returns (digits: Bytes, rest: Bytes)
    requires |numbers| < 3 && (start.Empty? || start.Prefix?) && left > 0
    requires End(ReadAll(InNumber(numbers, negative, start, left), t)).Matched?
    ensures t == digits + rest && digits != [] && AllHex(digits) && |digits| <= left
    ensures |digits| == left || rest == [] || !IsHex(rest[0])
  {
    var k := HexPrefix(t, left);
    digits, rest := t[..k], t[k..];
    if k == 0 {
      NoDigits(numbers, negative, start, left, t);
    }
  }

  lemma NoDigits(numbers: seq<word>, negative: bool, start: Shape, left: nat, t: Bytes)
    requires |numbers| < 3 && (start.Empty? || start.Prefix?) && (t == [] || !IsHex(t[0]))
    ensures !End(ReadAll(InNumber(numbers, negative, start, left), t)).Matched?
  {
    var s := InNumber(numbers, negative, start, left);
    if t != [] {
      assert Read(s, t[0]) == Failed;
      ReadFirst(s, t);
      OverStays(Failed, t[1..]);
    }
  }

  lemma BodyFound(numbers: seq<word>, sign: Bytes, t: Bytes) returns (f: Field, rest: Bytes)
    requires |numbers| < 3 && (sign == [] || sign == [0x2B] || sign == [0x2D])
    requires End(ReadAll(InNumber(numbers, sign == [0x2D], Empty, 8 - |sign|), t)).Matched?
    ensures FieldOk(f) && Whole(f, rest) && f.blanks == [] && f.sign == sign && sign + t == FieldText(f) + rest
  {
    hide ReadAll, End, Read, FieldText;
    var negative, left := sign == [0x2D], 8 - |sign|;
    var prefix, digits;
    if |t| >= 2 && t[0] == 0x30 && (t[1] == 0x78 || t[1] == 0x58) {
      prefix := t[..2];
      assert prefix == [0x30, t[1]] && t == [0x30, t[1]] + t[2..];
      PrefixRead(numbers, negative, left, t[1], t[2..]);
      digits, rest := DigitsFound(numbers, negative, Prefix, left - 2, t[2..]);
    } else {
      prefix := [];
      digits, rest := DigitsFound(numbers, negative, Empty, left, t);
    }
    f := Field([], sign, prefix, digits);
    assert t == prefix + digits + rest;
    BodyText(sign, prefix, digits, rest);
  }

  lemma BodyText(sign: Bytes, prefix: Bytes, digits: Bytes, rest: Bytes)
    ensures sign + (prefix + digits + rest) == FieldText(Field([], sign, prefix, digits)) + rest
  {
    assert sign + (prefix + digits + rest) == [] + sign + prefix + digits + rest;
  }

  lemma {:induction false} FieldFound(numbers: seq<word>, t: Bytes) returns (f: Field, rest: Bytes)
    requires |numbers| < 3 && End(ReadAll(Between(numbers), t)).Matched?
    ensures FieldOk(f) && Whole(f, rest) && t == FieldText(f) + rest
    decreases |t|
  {
    FirstOfField(numbers, t);
    hide ReadAll, End, Read, FieldOk, Whole;
    var c, more := t[0], t[1..];
    if IsBlank(c) {
      var g;
      g, rest := FieldFound(numbers, more);
      f := g.(blanks := [c] + g.blanks);
      MoreBlanks(g, c, rest);
      assert t == [c] + more;
    } else if c == PLUS || c == MINUS {
      f, rest := BodyFound(numbers, [c], more);
      assert t == [c] + more;
    } else {
      f, rest := BodyFound(numbers, [], t);
      assert [] + t == t;
    }
  }

  lemma MoreBlanks(g: Field, c: byte, rest: Bytes)
    requires FieldOk(g) && Whole(g, rest) && IsBlank(c)
    ensures var f := g.(blanks := [c] + g.blanks);
            FieldOk(f) && Whole(f, rest) && FieldText(f) + rest == [c] + (FieldText(g) + rest)
  {
    var f := g.(blanks := [c] + g.blanks);
    assert FieldText(f) + rest == [c] + (FieldText(g) + rest);
  }

  /** What a header that goes on with a number begins with. */
  lemma FirstOfField(numbers: seq<word>, t: Bytes)
    requires |numbers| < 3 && End(ReadAll(Between(numbers), t)).Matched?
    ensures t != []
    ensures IsBlank(t[0]) ==> ReadAll(Between(numbers), t) == ReadAll(Between(numbers), t[1..])
    ensures t[0] == PLUS || t[0] == MINUS ==>
              ReadAll(Between(numbers), t) == ReadAll(InNumber(numbers, [t[0]] == [0x2D], Empty, 7), t[1..])
    ensures !IsBlank(t[0]) && t[0] != PLUS && t[0] != MINUS ==>
              ReadAll(Between(numbers), t) == ReadAll(InNumber(numbers, false, Empty, 8), t)
  {
    assert ReadAll(Between(numbers), []) == Between(numbers);
    if t != [] {
      ReadFirst(Between(numbers), t);
      ReadFirst(InNumber(numbers, false, Empty, 8), t);
      FirstByte(numbers, t[0]);
      OverStays(Failed, t[1..]);
    }
    hide ReadAll, Read;
  }

  lemma FirstByte(numbers: seq<word>, c: byte)
    requires |numbers| < 3
    ensures var r := Read(Between(numbers), c);
            && (IsBlank(c) ==> r == Between(numbers))
            && (c == PLUS || c == MINUS ==> r == InNumber(numbers, [c] == [0x2D], Empty, 7))
            && (!IsBlank(c) && c != PLUS && c != MINUS && !IsHex(c) ==> r == Failed)
            && (IsHex(c) ==> r == Read(InNumber(numbers, false, Empty, 8), c))
  {
    assert [c] == [0x2D] <==> c == 0x2D by { assert [c][0] == c; }
  }

  // ---- Headers ----

  /** Three numbers and nothing else are recognised, with these values. */
  lemma ThreeRead(h: Header, f1: Field, f2: Field, f3: Field, rest: Bytes)
    requires FieldOk(f1) && FieldOk(f2) && FieldOk(f3)
    requires Whole(f1, FieldText(f2) + (FieldText(f3) + rest)) && Whole(f2, FieldText(f3) + rest) && Whole(f3, rest)
    ensures End(ReadAll(Between([]), FieldText(f1) + (FieldText(f2) + (FieldText(f3) + rest))))
         == Matched(Header(FieldValue(f1), FieldValue(f2), FieldValue(f3)))
  {
    FieldRead([], f1, FieldText(f2) + (FieldText(f3) + rest));
    var v1 := FieldValue(f1);
    assert [] + [v1] == [v1];
    FieldRead([v1], f2, FieldText(f3) + rest);
    var v2 := FieldValue(f2);
    assert [v1] + [v2] == [v1, v2];
    FieldRead([v1, v2], f3, rest);
    OverStays(Matched(Header(v1, v2, FieldValue(f3))), rest);
    hide ReadAll, FieldValue, FieldText, FieldOk, Whole;
  }

  /** Where three numbers are read, they can be found. */
  lemma ThreeFound(t: Bytes) returns (f1: Field, f2: Field, f3: Field, rest: Bytes)
    requires End(ReadAll(Between([]), t)).Matched?
    ensures FieldOk(f1) && FieldOk(f2) && FieldOk(f3)
    ensures t == FieldText(f1) + (FieldText(f2) + (FieldText(f3) + rest))
    ensures Whole(f1, FieldText(f2) + (FieldText(f3) + rest)) && Whole(f2, FieldText(f3) + rest) && Whole(f3, rest)
  {
    var t2, t3;
    f1, t2 := FieldFound([], t);
    FieldRead([], f1, t2);
    var v1 := FieldValue(f1);
    assert [] + [v1] == [v1];
    f2, t3 := FieldFound([v1], t2);
    FieldRead([v1], f2, t3);
    var v2 := FieldValue(f2);
    assert [v1] + [v2] == [v1, v2];
    f3, rest := FieldFound([v1, v2], t3);
    hide ReadAll, FieldValue, FieldText, FieldOk, Whole;
  }

  /** The bytes begin with a header exactly if they are spelled like one. */
  lemma HeadersExactly(b: Bytes, h: Header)
    requires |b| >= 36
    ensures GoodBeginning(b) == Good(h) <==> IsHeader(b, h)
  {
    TextRead(b, 0);
    assert TAG_START[0..] == TAG_START;
    assert GoodBeginning(b) == Good(h) <==> b[..7] == TAG_START && End(ReadAll(Between([]), b[7..])) == Matched(h);
    hide GoodBeginning, ReadAll, End, FieldText, FieldOk, Whole, FieldValue;
    if GoodBeginning(b) == Good(h) {
      var f1, f2, f3, rest := ThreeFound(b[7..]);
      ThreeRead(h, f1, f2, f3, rest);
      assert b == b[..7] + b[7..];
      assert Spells(b, h, f1, f2, f3, rest);
    }
    if f1: Field, f2: Field, f3: Field, rest: Bytes :| Spells(b, h, f1, f2, f3, rest) {
      ThreeRead(h, f1, f2, f3, rest);
      assert b[7..] == FieldText(f1) + (FieldText(f2) + (FieldText(f3) + rest)) && b[..7] == TAG_START;
    }
  }
}

/**
 How `GoodBeginning` of Com/MsgSocket.cpp reads a header: sscanf with the
 format "BIP/1.0 %08x %08x %08x", byte by byte, as section 7.21.6.2 of ISO/IEC
 9899:2011 defines it. It takes more than what this code writes, and it may
 need more than the 36 bytes of a header.
 */
module BipHeader {
  import opened Basics
  import opened BipFrames

  type word = x: int | 0 <= x < WORD

  const PLUS: byte := 43
  const MINUS: byte := 45
  const ZERO: byte := 48
  const ONE: byte := 49

  /** isspace. */
  predicate IsBlank(c: byte) { c == SPACE || 9 <= c <= 13 }

  // ---- One byte ----

  /** What has been read of a number, after its sign: nothing, a zero, the prefix `0x`, or digits. */
  datatype Shape = Empty | Zero | Prefix | Digits(value: nat)

  /**
   Where sscanf stands: in the text, between numbers, in a number that may still
   get `left` characters, or at its end.
   */
  datatype Scanner =
    | InText(at: nat)
    | Between(numbers: seq<word>)
    | InNumber(numbers: seq<word>, negative: bool, shape: Shape, left: nat)
    | Matched(header: Header)
    | Failed

  function Magnitude(s: Shape): nat { if s.Digits? then s.value else 0 }

  predicate HasDigits(s: Shape) { s.Zero? || s.Digits? }

  /** The number as an `unsigned int`. */
  function Value(negative: bool, s: Shape): word {
    var m: int := Magnitude(s);
    (if negative then -m else m) % WORD
  }

  lemma ValueIs(negative: bool, s: Shape)
    requires Magnitude(s) < WORD
    ensures Value(negative, s) == if negative && Magnitude(s) > 0 then WORD - Magnitude(s) else Magnitude(s)
  {
  }

  /** A number is at its end. */
  function EndNumber(numbers: seq<word>, negative: bool, s: Shape): Scanner {
    var vs := numbers + [Value(negative, s)];
    if !HasDigits(s) then Failed
    else if |vs| < 3 then Between(vs)
    else Matched(Header(vs[0], vs[1], vs[2]))
  }

  function AddDigit(numbers: seq<word>, negative: bool, s: Shape, left: nat, c: byte): Scanner
    requires IsHex(c)
  {
    var t := if s.Empty? && c == ZERO then Zero else Digits(16 * Magnitude(s) + HexValue(c));
    if left <= 1 then EndNumber(numbers, negative, t) else InNumber(numbers, negative, t, left - 1)
  }

  /** A byte where white space or a number may stand. */
  function Begin(numbers: seq<word>, c: byte): Scanner {
    if IsBlank(c) then Between(numbers)
    else if c == PLUS || c == MINUS then InNumber(numbers, c == MINUS, Empty, 7)
    else if IsHex(c) then AddDigit(numbers, false, Empty, 8, c)
    else Failed
  }

  /** The end of the string. */
  function End(s: Scanner): Scanner {
    match s
    case Matched(_) => s
    case InNumber(numbers, negative, shape, _) =>
      var r := EndNumber(numbers, negative, shape);
      if r.Matched? then r else Failed
    case _ => Failed
  }

  predicate Over(s: Scanner) { s.Matched? || s.Failed? }

  function Read(s: Scanner, c: byte): Scanner {
    if Over(s) then s
    else if c == NUL then End(s)
    else
      match s
      case InText(at) =>
        if at >= 7 || c != TAG_START[at] then Failed else if at == 6 then Between([]) else InText(at + 1)
      case Between(numbers) => Begin(numbers, c)
      case InNumber(numbers, negative, shape, left) =>
        if IsHex(c) then AddDigit(numbers, negative, shape, left, c)
        else if shape.Zero? && (c == 120 || c == 88) && left > 1 then InNumber(numbers, negative, Prefix, left - 1)
        else
          var r := EndNumber(numbers, negative, shape);
          if r.Between? then Begin(r.numbers, c) else r
      case _ => s
  }

  function ReadAll(s: Scanner, b: Bytes): Scanner
    decreases |b|
  {
    if b == [] then s else ReadAll(Read(s, b[0]), b[1..])
  }

  function After(b: Bytes): Scanner { ReadAll(InText(0), b) }

  datatype Parsed = Good(header: Header) | Bad

  /** `GoodBeginning`: all three numbers are there. */
  function GoodBeginning(b: Bytes): (r: Parsed)
    ensures r.Good? ==> HeaderOk(r.header) && |b| >= TAG_SIZE && StartsTag(b)
  {
    if |b| < TAG_SIZE then Bad
    else
      var s := End(After(b));
      TextRead(b, 0);
      KeptByAll(InText(0), b);
      if s.Matched? then Good(s.header) else Bad
  }

  // ---- Runs ----

  lemma {:induction false} ReadConcat(s: Scanner, a: Bytes, b: Bytes)
    ensures ReadAll(s, a + b) == ReadAll(ReadAll(s, a), b)
    decreases |a|
  {
    hide Read;
    if a == [] {
      assert a + b == b;
    } else {
      assert (a + b)[0] == a[0] && (a + b)[1..] == a[1..] + b;
      ReadConcat(Read(s, a[0]), a[1..], b);
    }
  }

  lemma {:induction false} OverStays(s: Scanner, b: Bytes)
    requires Over(s)
    ensures ReadAll(s, b) == s
    decreases |b|
  {
    if b != [] {
      OverStays(s, b[1..]);
    }
  }

  lemma ReadFirst(s: Scanner, b: Bytes)
    requires b != []
    ensures ReadAll(s, b) == ReadAll(Read(s, b[0]), b[1..])
  {
  }

  lemma TextStep(at: nat, c: byte)
    requires at < 7
    ensures Read(InText(at), c)
         == if c != TAG_START[at] then Failed else if at == 6 then Between([]) else InText(at + 1)
  {
  }

  /** The text has to be there to the last character. */
  lemma {:induction false} TextRead(b: Bytes, at: nat)
    requires at < 7 && |b| >= 7 - at
    ensures ReadAll(InText(at), b)
         == if b[..7 - at] == TAG_START[at..] then ReadAll(Between([]), b[7 - at..]) else Failed
    decreases 7 - at
  {
    var t := TAG_START[at..];
    Heads(b, t);
    Tails(TAG_START, at);
    ReadFirst(InText(at), b);
    TextStep(at, b[0]);
    hide ReadAll, Read;
    var more := b[1..];
    if b[0] != t[0] {
      OverStays(Failed, more);
    } else if at < 6 {
      TextRead(more, at + 1);
    } else {
      assert TAG_START[7..] == [] == more[..0];
    }
  }

  lemma Heads<T>(b: seq<T>, t: seq<T>)
    requires t != [] && |b| >= |t|
    ensures b[..|t|] == t <==> b[0] == t[0] && b[1..][..|t| - 1] == t[1..]
    ensures b[|t|..] == b[1..][|t| - 1..]
  {
    if b[0] == t[0] && b[1..][..|t| - 1] == t[1..] {
      assert b[..|t|] == [b[0]] + b[1..][..|t| - 1];
    }
    if b[..|t|] == t {
      assert t[1..] == b[..|t|][1..] == b[1..][..|t| - 1] && t[0] == b[..|t|][0];
    }
  }

  lemma Tails<T>(s: seq<T>, i: nat)
    requires i < |s|
    ensures s[i..][0] == s[i] && s[i..][1..] == s[i + 1..]
  {
  }

  /** What every scanner satisfies: the width of a number bounds it. */
  predicate Kept(s: Scanner) {
    match s
    case InText(at) => at < 7
    case Between(numbers) => |numbers| < 3
    case InNumber(numbers, negative, shape, left) =>
      && |numbers| < 3 && 1 <= left <= 8 && (negative ==> left <= 7) && (shape.Empty? ==> left >= 7)
      && (shape.Zero? ==> left >= 6) && (shape.Prefix? ==> left >= 5)
      && Magnitude(shape) < Power16(if negative then 7 - left else 8 - left)
    case Matched(h) => HeaderOk(h)
    case Failed => true
  }

  lemma KeptByOne(s: Scanner, c: byte)
    requires Kept(s)
    ensures Kept(Read(s, c))
  {
    if s.InNumber? && !IsHex(c) {
      EndKept(s);
      hide Power16, Magnitude;
    }
  }

  lemma EndKept(s: Scanner)
    requires Kept(s) && s.InNumber?
    ensures Kept(EndNumber(s.numbers, s.negative, s.shape))
  {
  }

  lemma {:induction false} KeptByAll(s: Scanner, b: Bytes)
    requires Kept(s)
    ensures Kept(ReadAll(s, b)) && Kept(End(ReadAll(s, b)))
    decreases |b|
  {
    if b != [] {
      KeptByOne(s, b[0]);
      KeptByAll(Read(s, b[0]), b[1..]);
    }
  }

  // ---- A printed header ----

  /** The shape that the digits read so far have. */
  function ShapeOf(t: Bytes): Shape
    requires forall i :: 0 <= i < |t| ==> IsHex(t[i])
  {
    if t == [] then Empty else if t == [ZERO] then Zero else Digits(HexNumber(t))
  }

  lemma ShapeMore(u: Bytes, c: byte)
    requires (forall i :: 0 <= i < |u| ==> IsHex(u[i])) && IsHex(c)
    ensures ShapeOf(u + [c])
         == if ShapeOf(u).Empty? && c == ZERO then Zero else Digits(16 * Magnitude(ShapeOf(u)) + HexValue(c))
  {
    assert (u + [c])[..|u|] == u;
    assert Magnitude(ShapeOf(u)) == HexNumber(u);
    assert u + [c] == [ZERO] <==> u == [] && c == ZERO;
  }

  lemma {:induction false} DigitsRead(numbers: seq<word>, t: Bytes)
    requires |numbers| < 3 && |t| <= 8 && forall i :: 0 <= i < |t| ==> IsHex(t[i])
    ensures ReadAll(InNumber(numbers, false, Empty, 8), t)
         == if |t| < 8 then InNumber(numbers, false, ShapeOf(t), 8 - |t|) else EndNumber(numbers, false, ShapeOf(t))
    decreases |t|
  {
    if t != [] {
      var n := |t| - 1;
      var u, c := t[..n], t[n];
      assert t == u + [c];
      DigitsRead(numbers, u);
      ReadConcat(InNumber(numbers, false, Empty, 8), u, [c]);
      ShapeMore(u, c);
      ReadFirst(InNumber(numbers, false, ShapeOf(u), 8 - n), [c]);
      hide ShapeOf, EndNumber;
      assert [c][1..] == [];
    }
  }

  /** A blank and eight digits are one number. */
  lemma NumberRead(numbers: seq<word>, n: word, rest: Bytes)
    requires |numbers| < 3
    ensures ReadAll(Between(numbers), [SPACE] + Hex(n, 8) + rest)
         == ReadAll(EndNumber(numbers, false, Digits(n)), rest)
  {
    var t := Hex(n, 8);
    WordDigits();
    HexRoundTrip(n, 8);
    DigitsRead(numbers, t);
    var all := [SPACE] + t + rest;
    assert all[0] == SPACE && all[1..] == t + rest && (t + rest)[0] == t[0];
    assert ReadAll(Between(numbers), all) == ReadAll(Between(numbers), t + rest);
    assert Read(Between(numbers), t[0]) == Read(InNumber(numbers, false, Empty, 8), t[0]);
    assert ReadAll(Between(numbers), t + rest) == ReadAll(InNumber(numbers, false, Empty, 8), t + rest);
    ReadConcat(InNumber(numbers, false, Empty, 8), t, rest);
    assert ShapeOf(t) == Digits(n);
  }

  lemma EndIs(numbers: seq<word>, n: word)
    requires |numbers| < 3
    ensures EndNumber(numbers, false, Digits(n))
         == if |numbers| < 2 then Between(numbers + [n]) else Matched(Header(numbers[0], numbers[1], n))
  {
  }

  /** A printed header is read to its end within its 36 bytes. */
  lemma HeaderRead(h: Header)
    requires HeaderOk(h)
    ensures After(HeaderBytes(h)) == Matched(h)
  {
    HeaderParts(h);
    TextRead(HeaderBytes(h), 0);
    NumbersRead(h.pid, h.mid, h.length);
    assert TAG_START[0..] == TAG_START;
    hide ReadAll, Hex, HeaderBytes;
  }

  lemma HeaderParts(h: Header)
    requires HeaderOk(h)
    ensures HeaderBytes(h)[..7] == TAG_START
    ensures HeaderBytes(h)[7..]
         == [SPACE] + Hex(h.pid, 8) + ([SPACE] + Hex(h.mid, 8) + ([SPACE] + Hex(h.length, 8) + TAG_END))
  {
    hide Hex;
  }

  lemma NumbersRead(pid: word, mid: word, length: word)
    ensures var t := [SPACE] + Hex(pid, 8) + ([SPACE] + Hex(mid, 8) + ([SPACE] + Hex(length, 8) + TAG_END));
            ReadAll(Between([]), t) == Matched(Header(pid, mid, length))
  {
    hide ReadAll, Hex, Read, EndNumber, Value;
    var r2 := [SPACE] + Hex(length, 8) + TAG_END;
    NumberRead([], pid, [SPACE] + Hex(mid, 8) + r2);
    EndIs([], pid);
    assert [] + [pid] == [pid] && [pid] + [mid] == [pid, mid];
    NumberRead([pid], mid, r2);
    EndIs([pid], mid);
    NumberRead([pid, mid], length, TAG_END);
    EndIs([pid, mid], length);
    OverStays(Matched(Header(pid, mid, length)), TAG_END);
  }

  /** A printed header is recognised, whatever follows it. */
  lemma HeaderRoundTrip(h: Header, rest: Bytes)
    requires HeaderOk(h)
    ensures GoodBeginning(HeaderBytes(h) + rest) == Good(h)
  {
    HeaderRead(h);
    ReadConcat(InText(0), HeaderBytes(h), rest);
    OverStays(Matched(h), rest);
  }

  // ---- When later bytes cannot change the verdict ----

  /** sscanf has come to its end within these bytes. */
  predicate Decided(b: Bytes) { Over(After(b)) }

  lemma DecidedMore(b: Bytes, c: Bytes)
    requires |b| >= TAG_SIZE && Decided(b)
    ensures GoodBeginning(b + c) == GoodBeginning(b) && After(b + c) == After(b)
  {
    ReadConcat(InText(0), b, c);
    OverStays(After(b), c);
    hide After;
  }

  /** A header that bytes to come could still complete can be completed by these. */
  const ONES: Bytes := [ONE, SPACE, ONE, SPACE, ONE]

  lemma OnesComplete(s: Scanner)
    requires Kept(s) && !Over(s) && !s.InText?
    ensures End(ReadAll(s, ONES)).Matched?
  {
    var r := Read(Read(s, ONE), SPACE);
    var t := Read(Read(r, ONE), SPACE);
    FiveRead(s, ONE, SPACE, ONE, SPACE, ONE);
    OneAndBlank(s);
    if r.Between? {
      OneAndBlank(r);
      LastOne(t);
    }
    hide Read, ReadAll;
  }

  /** A one and a blank end the next number. */
  lemma OneAndBlank(s: Scanner)
    requires Kept(s) && (s.Between? || s.InNumber?)
    ensures var r := Read(Read(s, ONE), SPACE);
            if |s.numbers| == 2 then r.Matched? else r.Between? && |r.numbers| == |s.numbers| + 1
  {
  }

  lemma LastOne(t: Scanner)
    requires t.Matched? || (t.Between? && |t.numbers| == 2)
    ensures End(Read(t, ONE)).Matched?
  {
  }

  lemma FiveRead(s: Scanner, a: byte, b: byte, c: byte, d: byte, e: byte)
    ensures ReadAll(s, [a, b, c, d, e]) == Read(Read(Read(Read(Read(s, a), b), c), d), e)
  {
    hide Read;
    assert [a, b, c, d, e][1..] == [b, c, d, e] && [b, c, d, e][1..] == [c, d, e];
    assert [c, d, e][1..] == [d, e] && [d, e][1..] == [e] && [e][1..] == [];
    assert ReadAll(s, [a, b, c, d, e]) == ReadAll(Read(s, a), [b, c, d, e]);
    assert ReadAll(Read(s, a), [b, c, d, e]) == ReadAll(Read(Read(s, a), b), [c, d, e]);
    var t := Read(Read(s, a), b);
    assert ReadAll(t, [c, d, e]) == ReadAll(Read(t, c), [d, e]);
    assert ReadAll(Read(t, c), [d, e]) == ReadAll(Read(Read(t, c), d), [e]);
  }

  lemma {:induction false} InTextIs(b: Bytes, at: nat)
    requires at < 7 && ReadAll(InText(at), b).InText?
    ensures |b| < 7
  {
    if |b| >= 7 - at {
      TextRead(b, at);
      if b[..7 - at] == TAG_START[at..] {
        NoTextAgain(Between([]), b[7 - at..]);
      }
    }
  }

  lemma {:induction false} NoTextAgain(s: Scanner, b: Bytes)
    requires !s.InText?
    ensures !ReadAll(s, b).InText?
    decreases |b|
  {
    if b != [] {
      NoTextAgain(Read(s, b[0]), b[1..]);
    }
  }

  /** The verdict is final exactly if sscanf has come to its end. */
  lemma DecidedExactly(b: Bytes)
    requires |b| >= TAG_SIZE
    ensures Decided(b) <==> forall c :: GoodBeginning(b + c) == GoodBeginning(b)
  {
    if Decided(b) {
      forall c
        ensures GoodBeginning(b + c) == GoodBeginning(b)
      {
        DecidedMore(b, c);
      }
    } else {
      var c := Changes(b);
      assert GoodBeginning(b + c) != GoodBeginning(b);
    }
  }

  lemma Changes(b: Bytes) returns (c: Bytes)
    requires |b| >= TAG_SIZE && !Decided(b)
    ensures GoodBeginning(b + c) != GoodBeginning(b)
  {
    var s := After(b);
    KeptByAll(InText(0), b);
    if s.InText? {
      InTextIs(b, 0);
    }
    if End(s).Matched? {
      c := [ONE];
      ReadConcat(InText(0), b, c);
      assert ReadAll(s, c) == Read(s, ONE) by { assert c[1..] == []; }
      OneMoreDigit(s);
    } else {
      c := ONES;
      ReadConcat(InText(0), b, c);
      OnesComplete(s);
    }
  }

  lemma OneMoreDigit(s: Scanner)
    requires Kept(s) && s.InNumber? && End(s).Matched?
    ensures End(Read(s, ONE)).Matched? && End(Read(s, ONE)) != End(s)
  {
    var m := Magnitude(s.shape);
    NarrowNumber(s);
    ValueIs(s.negative, s.shape);
    ValueIs(s.negative, Digits(16 * m + 1));
    hide Value, Power16;
    assert EndNumber(s.numbers, s.negative, s.shape)
        == Matched(Header(s.numbers[0], s.numbers[1], Value(s.negative, s.shape)));
    assert End(Read(s, ONE)) == EndNumber(s.numbers, s.negative, Digits(16 * m + 1));
  }

  /** A number that may still get a digit has seven of them at most, and six behind a minus sign. */
  lemma NarrowNumber(s: Scanner)
    requires Kept(s) && s.InNumber?
    ensures Magnitude(s.shape) < if s.negative then 0x100_0000 else 0x1000_0000
  {
    Power16Grows(if s.negative then 7 - s.left else 8 - s.left, if s.negative then 6 else 7);
    assert Power16(6) == 0x100_0000 && Power16(7) == 0x1000_0000;
  }

  lemma {:induction false} Power16Grows(j: nat, k: nat)
    requires j <= k
    ensures Power16(j) <= Power16(k)
    decreases k - j
  {
    if j < k {
      Power16Grows(j + 1, k);
    }
  }

  // ---- When 36 bytes are enough ----

  /**
   These 36 bytes settle what the loop will do: sscanf is at its end, or it is in
   the third number and the loop will wait until that number ends, or will never
   see another length than one which it cannot handle.
   */
  predicate Firm(w: Bytes)
    requires |w| == TAG_SIZE
  {
    var s := After(w);
    Over(s) || (s.InNumber? && |s.numbers| == 2 && HasDigits(s.shape) && FirmNumber(s))
  }

  /** A length that grows faster than the bytes arrive, or one that is far beyond them because it is negative. */
  predicate FirmNumber(s: Scanner)
    requires s.InNumber?
  {
    var m := Magnitude(s.shape);
    if s.negative then m > TAG_SIZE + END_SIZE || (m <= 1 && s.left <= 1) else m > 0 || s.left <= 2
  }

  /** However many bytes are there, they never look like a header. */
  predicate NoHeader(b: Bytes) { forall n :: TAG_SIZE <= n <= |b| ==> GoodBeginning(b[..n]).Bad? }

  predicate Steady(b: Bytes)
    requires |b| >= TAG_SIZE
  {
    Firm(b[..TAG_SIZE]) || NoHeader(b)
  }

  lemma SteadyPrefix(b: Bytes, c: Bytes)
    requires |b| >= TAG_SIZE && Steady(b + c)
    ensures Steady(b)
  {
    assert (b + c)[..TAG_SIZE] == b[..TAG_SIZE];
    if NoHeader(b + c) {
      forall n | TAG_SIZE <= n <= |b|
        ensures GoodBeginning(b[..n]).Bad?
      {
        assert (b + c)[..n] == b[..n];
      }
    }
  }

  /** In the digits of the third number. */
  predicate InThird(s: Scanner) { Kept(s) && s.InNumber? && |s.numbers| == 2 && s.shape.Digits? }

  /** The scanner at the end of a third number of this magnitude. */
  function Third(s: Scanner, m: nat): Scanner
    requires s.InNumber? && |s.numbers| == 2
  {
    Matched(Header(s.numbers[0], s.numbers[1], Value(s.negative, Digits(m))))
  }

  lemma ThirdRead(s: Scanner, c: byte)
    requires s.InNumber? && |s.numbers| == 2 && s.shape.Digits?
    ensures IsHex(c) ==>
              var m := 16 * s.shape.value + HexValue(c);
              Read(s, c) == if s.left <= 1 then Third(s, m) else InNumber(s.numbers, s.negative, Digits(m), s.left - 1)
    ensures !IsHex(c) ==> Read(s, c) == Third(s, s.shape.value)
    ensures End(s) == Third(s, s.shape.value)
  {
  }

  lemma ThirdStep(s: Scanner, c: byte)
    requires InThird(s)
    ensures var r := Read(s, c); var m := s.shape.value;
            || r.Matched?
            || (InThird(r) && r.negative == s.negative && r.left == s.left - 1
                  && r.shape.value >= m + if m > 0 then 1 else 0)
  {
    KeptByOne(s, c);
    ThirdRead(s, c);
    hide Value, Read, Power16;
  }

  lemma ThirdEnd(s: Scanner)
    requires InThird(s)
    ensures End(s).Matched? && End(s).header.length == Value(s.negative, s.shape)
    ensures s.negative && s.shape.value > 0 ==>
              End(s).header.length == WORD - s.shape.value > WORD - 0x1000_0000
    ensures !s.negative ==> End(s).header.length == s.shape.value < 0x1000_0000
    ensures s.shape.value == 0 ==> End(s).header.length == 0
  {
    NarrowNumber(s);
    ThirdRead(s, NUL);
    ValueIs(s.negative, s.shape);
    hide Value, Read, Power16;
  }

  /** The value grows with every digit until sscanf is at its end. */
  lemma {:induction false} ThirdNumber(s: Scanner, t: Bytes)
    requires InThird(s)
    ensures var r := ReadAll(s, t); var m := s.shape.value;
            || r.Matched?
            || (InThird(r) && r.negative == s.negative && r.left + |t| == s.left
                  && r.shape.value >= m + if m > 0 then |t| else 0)
    decreases |t|
  {
    if t != [] {
      ThirdStep(s, t[0]);
      hide Read, InThird;
      var r := Read(s, t[0]);
      if r.Matched? {
        OverStays(r, t[1..]);
      } else {
        ThirdNumber(r, t[1..]);
      }
    }
  }
}

/**
 `\u` escapes inside a string: every scalar value can be written, what is
 stored is its UTF-8 encoding, and a surrogate without its partner is refused.
 */
module JsonEscapes {
  import opened Basics
  import opened JsonTypes
  import opened JsonMachine
  import opened JsonGrammar
  import opened JsonRuns
  import JsonComplete
  import Utf8

  /** `0` to `9`, and `A` to `F` or `a` to `f` for ten to fifteen. */
  function HexDigit(v: int, upper: bool): (c: int)
    requires 0 <= v < 16
    ensures IsHex(c) && HexValue(c) == v
  {
    if v < 10 then 48 + v else if upper then 55 + v else 87 + v
  }

  /** The four digits of a code unit, each in the case that is asked for. */
  function Hex4(u: int, upper: seq<bool>): (d: Text)
    requires 0 <= u < 0x1_0000 && |upper| == 4
    ensures FourHex(d)
  {
    [HexDigit(u / 0x1000, upper[0]), HexDigit(u / 0x100 % 16, upper[1]), HexDigit(u / 0x10 % 16, upper[2]),
     HexDigit(u % 16, upper[3])]
  }

  /** There is no other digit than these. */
  lemma DigitSpelled(c: int) returns (upper: bool)
    requires IsHex(c)
    ensures c == HexDigit(HexValue(c), upper)
  {
    upper := c < 97;
  }

  /** All that four digits can be is a code unit spelled in some way. */
  lemma EverySpelling(d: Text) returns (upper: seq<bool>)
    requires FourHex(d)
    ensures |upper| == 4 && 0 <= Unit(d) < 0x1_0000 && d == Hex4(Unit(d), upper)
  {
    var a := DigitSpelled(d[0]);
    var b := DigitSpelled(d[1]);
    var e := DigitSpelled(d[2]);
    var f := DigitSpelled(d[3]);
    upper := [a, b, e, f];
    UnitDigits(Unit(d), HexValue(d[0]), HexValue(d[1]), HexValue(d[2]), HexValue(d[3]));
    hide HexDigit, HexValue;
  }

  lemma UnitDigits(u: int, a: int, b: int, c: int, d: int)
    requires 0 <= a < 16 && 0 <= b < 16 && 0 <= c < 16 && 0 <= d < 16 && u == 0x1000 * a + 0x100 * b + 0x10 * c + d
    ensures u / 0x1000 == a && u / 0x100 % 16 == b && u / 0x10 % 16 == c && u % 16 == d && 0 <= u < 0x1_0000
  {
    assert u / 0x10 == 0x100 * a + 0x10 * b + c;
    assert u / 0x100 == 0x10 * a + b;
  }

  lemma UnitOfHex4(u: int, upper: seq<bool>)
    requires 0 <= u < 0x1_0000 && |upper| == 4
    ensures Unit(Hex4(u, upper)) == u
  {
    FourDigits(u, u / 0x10, u / 0x100, u / 0x1000);
    var d := Hex4(u, upper);
    assert HexValue(d[0]) == u / 0x1000 && HexValue(d[1]) == u / 0x100 % 16;
    assert HexValue(d[2]) == u / 0x10 % 16 && HexValue(d[3]) == u % 16;
    hide HexDigit, HexValue, Hex4;
  }

  lemma FourDigits(u: int, a: int, b: int, c: int)
    requires a == u / 0x10 && b == u / 0x100 && c == u / 0x1000
    ensures u == 0x1000 * c + 0x100 * (b % 16) + 0x10 * (a % 16) + u % 16
  {
    var b1 := a / 0x10;
    var c1 := b1 / 0x10;
    assert b1 == b by { Quotient0x100(u, b1); }
    assert c1 == c by { Quotient0x1000(u, c1); }
  }

  lemma Quotient0x100(u: int, q: int)
    requires 0x100 * q <= u < 0x100 * q + 0x100
    ensures u / 0x100 == q
  {
  }

  lemma Quotient0x1000(u: int, q: int)
    requires 0x1000 * q <= u < 0x1000 * q + 0x1000
    ensures u / 0x1000 == q
  {
  }

  /**
   How section 7 of RFC 8259 escapes a scalar value: one escape, or a pair of
   surrogates, with each digit in either case.
   */
  function EscapeOf(u: int, upper: seq<bool>, lower: seq<bool>): Item
    requires Utf8.IsScalar(u) && |upper| == |lower| == 4
  {
    if u < 0x1_0000 then Unicode(Hex4(u, upper)) else Surrogates(Hex4(Utf8.High(u), upper), Hex4(Utf8.Low(u), lower))
  }

  /** Inside a string, the escape of any scalar value adds exactly its UTF-8 encoding to the text. */
  lemma EscapeReads(modes: seq<Mode>, buf: Text, depth: int, log: seq<Event>, u: int,
                    upper: seq<bool>, lower: seq<bool>)
    requires Utf8.IsScalar(u) && |upper| == |lower| == 4
    ensures var b := Utf8.Encode(u);
            && Run(Quoted(modes, buf, depth, log), ItemText(EscapeOf(u, upper, lower)))
            == Go(Quoted(modes, buf + b, depth, log))
            && Utf8.Decode(b) == Utf8.Scalar(u)
  {
    Utf8.EncodesExactly(u, Utf8.Encode(u));
    if u < 0x1_0000 {
      UnitOfHex4(u, upper);
    } else {
      UnitOfHex4(Utf8.High(u), upper);
      UnitOfHex4(Utf8.Low(u), lower);
      Utf8.PairsJoin(Utf8.High(u), Utf8.Low(u), u);
    }
    hide Run, Step, Utf8.Encode, Utf8.Decode;
    ItemRun(modes, buf, depth, log, EscapeOf(u, upper, lower));
  }

  /** A low surrogate that no high one precedes is refused at its last digit. */
  lemma LowAloneRefused(modes: seq<Mode>, buf: Text, depth: int, log: seq<Event>, d: Text)
    requires FourHex(d) && Utf8.IsLow(Unit(d))
    ensures Run(Quoted(modes, buf, depth, log), [BACKSLASH, 117] + d) == Halt(InvalidUnicode, log)
  {
    hide Step, DecodeUnicode;
    EscapeU(modes, buf, depth, log);
    FourHexRun(modes, 0, buf + [92, 117], depth, log, d);
    DecodeUnit(modes, 0, buf, depth, log, d);
    RunConcat(Quoted(modes, buf, depth, log), [92, 117], d);
  }

  predicate LowEscape(t: Text) {
    |t| == 6 && t[..2] == [BACKSLASH, 117] && FourHex(t[2..]) && Utf8.IsLow(Unit(t[2..]))
  }

  /**
   After a high surrogate the next six characters are read exactly if they
   escape a low surrogate, and then the pair has become the UTF-8 encoding of
   the code point it stands for.
   */
  lemma HighNeedsLow(modes: seq<Mode>, buf: Text, depth: int, log: seq<Event>, h: Text, t: Text)
    requires FourHex(h) && Utf8.IsHigh(Unit(h)) && |t| == 6
    ensures var r := Run(Quoted(modes, buf, depth, log), [BACKSLASH, 117] + h + t);
            && (r.Go? <==> LowEscape(t))
            && (LowEscape(t) ==>
                 var u := Utf8.Join(Unit(h), Unit(t[2..]));
                 && r == Go(Quoted(modes, buf + Utf8.Encode(u), depth, log))
                 && Utf8.Decode(Utf8.Encode(u)) == Utf8.Scalar(u) && u >= 0x1_0000)
  {
    hide Step, DecodeUnicode, Utf8.Encode, Utf8.Decode;
    var s, d1 := Quoted(modes, buf, depth, log), Hexing(D1, modes, Unit(h), buf, depth, log);
    EscapeU(modes, buf, depth, log);
    DecodeUnit(modes, 0, buf, depth, log, h);
    FourHexLeads(modes, 0, buf, depth, log, h, d1);
    Then(s, [92, 117], Hexing(U1, modes, 0, buf + [92, 117], depth, log), h, d1);
    RunConcat(s, [92, 117] + h, t);
    AfterHigh(modes, Unit(h), buf, depth, log, t);
    if LowEscape(t) {
      var l := Unit(t[2..]);
      var u := Utf8.Join(Unit(h), l);
      Utf8.PairsJoin(Unit(h), l, u);
      Utf8.EncodesExactly(u, Utf8.Encode(u));
    }
  }

  lemma AfterHigh(modes: seq<Mode>, high: int, buf: Text, depth: int, log: seq<Event>, t: Text)
    requires Utf8.IsHigh(high) && |t| == 6
    ensures var r := Run(Hexing(D1, modes, high, buf, depth, log), t);
            && (r.Go? <==> LowEscape(t))
            && (LowEscape(t) ==> r == Go(Quoted(modes, buf + Utf8.Encode(Utf8.Join(high, Unit(t[2..]))), depth, log)))
  {
    hide Step, DecodeUnicode, Utf8.Encode;
    var d1 := Hexing(D1, modes, high, buf, depth, log);
    var u1 := Hexing(U1, modes, high, buf + [92, 117], depth, log);
    if t[..2] == [92, 117] {
      SecondEscape(modes, high, buf, depth, log);
      RunConcat(d1, [92, 117], t[2..]);
      assert t == [92, 117] + t[2..];
      assert Run(d1, t) == Run(u1, t[2..]);
      if Run(u1, t[2..]).Go? {
        HexRead(u1, t[2..]);
      }
      if FourHex(t[2..]) {
        FourHexRun(modes, high, buf + [92, 117], depth, log, t[2..]);
        DecodeUnit(modes, high, buf, depth, log, t[2..]);
      }
    } else if Run(d1, t).Go? {
      JsonComplete.SecondBackslash(d1, t[0]);
      JsonComplete.DoubleStep(modes, high, buf, depth, log);
      var d2 := Hexing(D2, modes, high, buf + [92], depth, log);
      assert Run(d1, t) == Run(d2, t[1..]);
      assert Step(d2, t[1..][0]).Go?;
      JsonComplete.SecondU(d2, t[1..][0]);
    }
  }

  /** Only digits are read where digits are due. */
  lemma {:induction false} HexRead(s: Core, t: Text)
    requires s.state in {U1, U2, U3, U4} && !s.escaped && s.pending == StringType && Run(s, t).Go?
    requires |t| == (if s.state == U1 then 4 else if s.state == U2 then 3 else if s.state == U3 then 2 else 1)
    ensures forall i :: 0 <= i < |t| ==> IsHex(t[i])
    decreases |t|
  {
    hide Step;
    JsonComplete.HexOnly(s, t[0]);
    if s.state != U4 {
      JsonRuns.HexMoves(t[0]);
      JsonRuns.Move(s, t[0], JsonComplete.NextHex(s.state));
      HexRead(Step(s, t[0]).core, t[1..]);
    }
  }
}

/**
 UTF-16 surrogate pairs and the UTF-8 encoder of `decode_unicode_char`, with
 the decoder of section 3 of RFC 3629 as an independent reference.
 */
module Utf8 {
  predicate IsHigh(u: int) { 0xD800 <= u < 0xDC00 }

  predicate IsLow(u: int) { 0xDC00 <= u < 0xE000 }

  /** A Unicode scalar value. */
  predicate IsScalar(u: int) { 0 <= u <= 0x10FFFF && !IsHigh(u) && !IsLow(u) }

  /** DECODE_SURROGATE_PAIR. */
  function Join(hi: int, lo: int): int {
    (hi % 0x400) * 0x400 + lo % 0x400 + 0x10000
  }

  /**
   The bytes the parser writes: a lead byte holding the high bits and
   `trail` bytes of six bits each. The lead bits and the payload never overlap,
   so the source's bitwise or is an addition (`Utf8Bits.BitwiseLead`).
   */
  function Encode(u: int): (bytes: seq<int>) {
    if u < 0x80 then [u]
    else if u < 0x800 then [u / 0x40 + 0xC0, u % 0x40 + 0x80]
    else if u < 0x10000 then [u / 0x1000 + 0xE0, u / 0x40 % 0x40 + 0x80, u % 0x40 + 0x80]
    else [u / 0x40000 + 0xF0, u / 0x1000 % 0x40 + 0x80, u / 0x40 % 0x40 + 0x80, u % 0x40 + 0x80]
  }

  /** How many bytes follow the lead byte. */
  function Trail(u: int): nat {
    if u < 0x80 then 0 else if u < 0x800 then 1 else if u < 0x10000 then 2 else 3
  }

  /** `utf8_lead_bits`. */
  function LeadBits(trail: nat): int {
    if trail == 0 then 0 else if trail == 1 then 0xC0 else if trail == 2 then 0xE0 else 0xF0
  }

  /** Two to the power of six times `n`: dividing by it is shifting by so many bits. */
  function Shift(n: nat): (p: int)
    ensures p > 0
  {
    if n == 0 then 1 else if n == 1 then 0x40 else if n == 2 then 0x1000 else 0x40000
  }

  /** The bytes of the encoder, one by one. */
  lemma EncodeBytes(u: int)
    requires 0 <= u <= 0x10FFFF
    ensures var t := Trail(u); var e := Encode(u);
            && |e| == t + 1 && e[0] == u / Shift(t) + LeadBits(t)
            && forall k :: 0 <= k < t ==> e[t - k] == u / Shift(k) % 0x40 + 0x80
  {
  }

  // ---- The reference decoder ----

  datatype Decoded = Scalar(code: int) | Malformed

  predicate IsTail(b: int) { 0x80 <= b <= 0xBF }

  /** The production UTF8-char of section 4 of RFC 3629, with the bits of the table in its section 3. */
  function Decode(b: seq<int>): Decoded {
    if |b| == 1 && 0 <= b[0] <= 0x7F then
      Scalar(b[0])
    else if |b| == 2 && 0xC2 <= b[0] <= 0xDF && IsTail(b[1]) then
      Scalar(0x40 * (b[0] - 0xC0) + (b[1] - 0x80))
    else if |b| == 3 && 0xE0 <= b[0] <= 0xEF && IsTail(b[1]) && IsTail(b[2])
      && (b[0] == 0xE0 ==> b[1] >= 0xA0) && (b[0] == 0xED ==> b[1] <= 0x9F) then
      Scalar(0x1000 * (b[0] - 0xE0) + 0x40 * (b[1] - 0x80) + (b[2] - 0x80))
    else if |b| == 4 && 0xF0 <= b[0] <= 0xF4 && IsTail(b[1]) && IsTail(b[2]) && IsTail(b[3])
      && (b[0] == 0xF0 ==> b[1] >= 0x90) && (b[0] == 0xF4 ==> b[1] <= 0x8F) then
      Scalar(0x40000 * (b[0] - 0xF0) + 0x1000 * (b[1] - 0x80) + 0x40 * (b[2] - 0x80) + (b[3] - 0x80))
    else
      Malformed
  }

  /** The parser's bytes are the UTF-8 encoding of the scalar values, and of nothing else. */
  lemma EncodesExactly(u: int, b: seq<int>)
    ensures IsScalar(u) && b == Encode(u) <==> Decode(b) == Scalar(u)
  {
    if IsScalar(u) && b == Encode(u) {
      DecodesEncoded(u);
    } else if Decode(b) == Scalar(u) {
      EncodesDecoded(b);
    }
  }

  lemma DecodesEncoded(u: int)
    requires IsScalar(u)
    ensures Decode(Encode(u)) == Scalar(u)
  {
    if 0x800 <= u < 0x10000 {
      DecodesThree(u);
      hide Encode, Decode;
    } else if 0x10000 <= u {
      DecodesFour(u);
      hide Encode, Decode;
    }
  }

  lemma DecodesThree(u: int)
    requires IsScalar(u) && 0x800 <= u < 0x10000
    ensures Decode(Encode(u)) == Scalar(u)
  {
    var a, b, c := u / 0x1000, u / 0x40 % 0x40, u % 0x40;
    assert u == 0x1000 * a + 0x40 * b + c;
  }

  lemma DecodesFour(u: int)
    requires IsScalar(u) && 0x10000 <= u
    ensures Decode(Encode(u)) == Scalar(u)
  {
    var a, b, c, d := u / 0x40000, u / 0x1000 % 0x40, u / 0x40 % 0x40, u % 0x40;
    FourDigits(u);
    FourBytes(a, b, c, d);
    hide Decode;
  }

  lemma FourDigits(u: int)
    requires 0x10000 <= u <= 0x10FFFF
    ensures u == 0x40000 * (u / 0x40000) + 0x1000 * (u / 0x1000 % 0x40) + 0x40 * (u / 0x40 % 0x40) + u % 0x40
  {
  }

  lemma FourBytes(a: int, b: int, c: int, d: int)
    requires 0 <= a <= 4 && 0 <= b < 0x40 && 0 <= c < 0x40 && 0 <= d < 0x40
    requires (a == 0 ==> b >= 0x10) && (a == 4 ==> b <= 0xF)
    ensures Decode([a + 0xF0, b + 0x80, c + 0x80, d + 0x80]) == Scalar(0x40000 * a + 0x1000 * b + 0x40 * c + d)
  {
  }

  lemma EncodesDecoded(b: seq<int>)
    requires Decode(b).Scalar?
    ensures IsScalar(Decode(b).code) && b == Encode(Decode(b).code)
  {
    var u := Decode(b).code;
    if |b| >= 2 {
      Digit(u, |b| - 1, b);
    }
    if |b| == 3 {
      assert b[0] == 0xED ==> u < 0xD800;
      assert b[0] > 0xED ==> u >= 0xE000;
    }
  }

  /** Base-64 digits: the payloads of the bytes of a decoded sequence. */
  lemma Digit(u: int, n: nat, b: seq<int>)
    requires 1 <= n <= 3 && |b| == n + 1 && forall i :: 1 <= i <= n ==> IsTail(b[i])
    requires u == if n == 1 then 0x40 * (b[0] - 0xC0) + (b[1] - 0x80)
                  else if n == 2 then 0x1000 * (b[0] - 0xE0) + 0x40 * (b[1] - 0x80) + (b[2] - 0x80)
                  else 0x40000 * (b[0] - 0xF0) + 0x1000 * (b[1] - 0x80) + 0x40 * (b[2] - 0x80) + (b[3] - 0x80)
    ensures u % 0x40 == b[n] - 0x80
    ensures n == 1 ==> u / 0x40 == b[0] - 0xC0
    ensures n == 2 ==> u / 0x40 % 0x40 == b[1] - 0x80 && u / 0x1000 == b[0] - 0xE0
    ensures n == 3 ==> u / 0x40 % 0x40 == b[2] - 0x80 && u / 0x1000 % 0x40 == b[1] - 0x80 && u / 0x40000 == b[0] - 0xF0
  {
    if n == 1 {
      Divide(b[0] - 0xC0, b[1] - 0x80, u);
    } else if n == 2 {
      Divide(0x40 * (b[0] - 0xE0) + b[1] - 0x80, b[2] - 0x80, u);
      Divide(b[0] - 0xE0, b[1] - 0x80, u / 0x40);
    } else {
      Divide(0x1000 * (b[0] - 0xF0) + 0x40 * (b[1] - 0x80) + b[2] - 0x80, b[3] - 0x80, u);
      Divide(0x40 * (b[0] - 0xF0) + b[1] - 0x80, b[2] - 0x80, u / 0x40);
      Divide(b[0] - 0xF0, b[1] - 0x80, u / 0x1000);
    }
  }

  lemma Divide(q: int, r: int, u: int)
    requires 0 <= r < 0x40 && u == 0x40 * q + r
    ensures u / 0x40 == q && u % 0x40 == r
  {
  }

  // ---- Surrogate pairs ----

  function High(u: int): int { 0xD800 + (u - 0x10000) / 0x400 }

  function Low(u: int): int { 0xDC00 + (u - 0x10000) % 0x400 }

  /** Joining a pair is a bijection between pairs and the code points above 0xFFFF. */
  lemma PairsJoin(h: int, l: int, u: int)
    ensures IsHigh(h) && IsLow(l) && Join(h, l) == u <==> 0x10000 <= u <= 0x10FFFF && h == High(u) && l == Low(u)
    ensures IsHigh(h) && IsLow(l) ==> Join(h, l) == 0x10000 + 0x400 * (h - 0xD800) + (l - 0xDC00)
  {
    if IsHigh(h) && IsLow(l) {
      assert h % 0x400 == h - 0xD800 && l % 0x400 == l - 0xDC00;
    }
    if 0x10000 <= u <= 0x10FFFF && h == High(u) && l == Low(u) {
      assert h % 0x400 == h - 0xD800 && l % 0x400 == l - 0xDC00;
    }
  }
}

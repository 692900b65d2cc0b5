/** The bytes of a BIP message, as Com/MsgSocket.cpp writes them. */
module BipFrames {
  import opened Basics

  type byte = x: int | 0 <= x < 256

  type Bytes = seq<byte>

  const TAG_SIZE := 36
  const END_SIZE := 2
  /** `tag_start1`, "BIP/1.0", and `tag_end`. */
  const TAG_START: Bytes := [66, 73, 80, 47, 49, 46, 48]
  const TAG_END: Bytes := [13, 10]
  const SPACE: byte := 32
  const NUL: byte := 0
  const WORD := 0x1_0000_0000

  /** The three numbers of a header: the peer, the message and the length of the payload. */
  datatype Header = Header(pid: int, mid: int, length: int)

  predicate HeaderOk(h: Header) { 0 <= h.pid < WORD && 0 <= h.mid < WORD && 0 <= h.length < WORD }

  // ---- "%08x" ----

  function Digit(v: int): (d: byte)
    requires 0 <= v < 16
  {
    if v < 10 then 48 + v else 87 + v
  }

  function Power16(k: nat): (p: int)
    ensures p > 0
  {
    if k == 0 then 1 else 16 * Power16(k - 1)
  }

  /** The last `k` hexadecimal digits of `n`. */
  function Hex(n: nat, k: nat): (t: Bytes)
    ensures |t| == k && forall i :: 0 <= i < k ==> IsHex(t[i])
    decreases k
  {
    if k == 0 then [] else Hex(n / 16, k - 1) + [Digit(n % 16)]
  }

  function HexNumber(t: Bytes): (n: int)
    requires forall i :: 0 <= i < |t| ==> IsHex(t[i])
    ensures 0 <= n < Power16(|t|)
  {
    if t == [] then 0 else 16 * HexNumber(t[..|t| - 1]) + HexValue(t[|t| - 1])
  }

  lemma {:induction false} HexRoundTrip(n: nat, k: nat)
    requires n < Power16(k)
    ensures HexNumber(Hex(n, k)) == n
    decreases k
  {
    if k > 0 {
      HexRoundTrip(n / 16, k - 1);
      var t := Hex(n, k);
      assert t[..k - 1] == Hex(n / 16, k - 1);
      assert HexValue(Digit(n % 16)) == n % 16;
    }
  }

  lemma WordDigits()
    ensures Power16(8) == WORD
  {
    assert Power16(4) == 0x1_0000;
    assert Power16(5) == 0x10_0000;
    assert Power16(6) == 0x100_0000;
    assert Power16(7) == 0x1000_0000;
  }

  // ---- Headers and frames ----

  /** The header `tag_str` prints. */
  function HeaderBytes(h: Header): (t: Bytes)
    requires HeaderOk(h)
    ensures |t| == TAG_SIZE
  {
    TAG_START + [SPACE] + Hex(h.pid, 8) + [SPACE] + Hex(h.mid, 8) + [SPACE] + Hex(h.length, 8) + TAG_END
  }

  /** "BIP/1.0" is here. */
  predicate StartsTag(b: Bytes) { |b| >= 7 && b[..7] == TAG_START }

  /** A message as the sender means it. */
  datatype Frame = Frame(pid: int, mid: int, data: Bytes)

  function HeaderOf(f: Frame): Header { Header(f.pid, f.mid, |f.data|) }

  /** The bytes of a message on the wire. */
  function Wire(f: Frame): (t: Bytes)
    requires HeaderOk(HeaderOf(f))
    ensures |t| == TAG_SIZE + |f.data| + END_SIZE
  {
    HeaderBytes(HeaderOf(f)) + f.data + TAG_END
  }

  // ---- The layout of a message, byte by byte ----

  /** Eight lower-case digits, the most significant first. */
  lemma {:induction false} HexPlaces(n: nat, k: nat, i: nat)
    requires i < k
    ensures var d := Hex(n, k)[k - 1 - i];
            (0x30 <= d <= 0x39 || 0x61 <= d <= 0x66) && HexValue(d) == n / Power16(i) % 16
    decreases k
  {
    if i > 0 {
      HexPlaces(n / 16, k - 1, i - 1);
      assert Hex(n, k)[k - 1 - i] == Hex(n / 16, k - 1)[k - 1 - i];
      Quotients(n, Power16(i - 1));
      hide Hex;
    }
  }

  lemma Quotients(n: nat, p: nat)
    requires p > 0
    ensures n / 16 / p == n / (16 * p)
  {
    var q, r := n / 16 / p, n / 16 % p;
    var s := n % 16;
    assert n / 16 == q * p + r && n == 16 * (n / 16) + s;
    assert n == q * (16 * p) + (16 * r + s);
    DividesTo(n, 16 * p, q, 16 * r + s);
  }

  lemma DividesTo(n: int, d: int, q: int, r: int)
    requires d > 0 && n == q * d + r && 0 <= r < d
    ensures n / d == q
  {
    var e := n / d - q;
    assert n == n / d * d + n % d;
    assert e * d == r - n % d;
    Multiples(e, d);
  }

  lemma Multiples(e: int, d: int)
    requires d > 0
    ensures (e >= 1 ==> e * d >= d) && (e <= -1 ==> e * d <= -d)
  {
  }

  /** "BIP/1.0", the three numbers with a blank before each of them, and the end of a line. */
  lemma HeaderLayout(h: Header)
    requires HeaderOk(h)
    ensures var t := HeaderBytes(h);
            && t[..8] == [0x42, 0x49, 0x50, 0x2F, 0x31, 0x2E, 0x30, 0x20] && t[8..16] == Hex(h.pid, 8) && t[16] == 0x20
            && t[17..25] == Hex(h.mid, 8) && t[25] == 0x20 && t[26..34] == Hex(h.length, 8) && t[34..] == [0x0D, 0x0A]
  {
    hide Hex;
  }

  /** The header with the length of the payload, the payload, and the end of a line. */
  lemma WireLayout(f: Frame)
    requires HeaderOk(HeaderOf(f))
    ensures var t, n := Wire(f), |f.data|;
            t[..36] == HeaderBytes(Header(f.pid, f.mid, n)) && t[36..36 + n] == f.data && t[36 + n..] == [0x0D, 0x0A]
  {
    hide HeaderBytes;
  }
}

/** The masks and shifts of `decode_unicode_char` in Json/JSON_parser.cpp, against the arithmetic of Utf8. */
module Utf8Bits {
  /**
   The source shifts, masks and ors 32-bit words; on the code points it encodes
   this is the arithmetic of `Encode`: the lead bits and the shifted bits do not
   overlap.
   */
  lemma BitwiseTrail(w: bv32)
    ensures (w & 0x3F) | 0x80 == w % 0x40 + 0x80
    ensures w >> 6 == w / 0x40 && w >> 12 == w / 0x1000 && w >> 18 == w / 0x40000
  {
  }

  lemma BitwiseLead(w: bv32)
    ensures w < 0x800 ==> (w >> 6) | 0xC0 == w / 0x40 + 0xC0
    ensures w < 0x1_0000 ==> (w >> 12) | 0xE0 == w / 0x1000 + 0xE0
    ensures w <= 0x10_FFFF ==> (w >> 18) | 0xF0 == w / 0x40000 + 0xF0
  {
  }

  /** IS_HIGH_SURROGATE, IS_LOW_SURROGATE and DECODE_SURROGATE_PAIR. */
  lemma BitwisePair(h: bv32, l: bv32)
    ensures h & 0xFC00 == 0xD800 && h < 0x1_0000 <==> 0xD800 <= h < 0xDC00
    ensures l & 0xFC00 == 0xDC00 && l < 0x1_0000 <==> 0xDC00 <= l < 0xE000
    ensures ((h & 0x3FF) << 10) + (l & 0x3FF) + 0x1_0000 == (h % 0x400) * 0x400 + l % 0x400 + 0x1_0000
  {
  }
}

/** What several parts of the model share. */
module Basics {
  datatype Option<+T> = None | Some(value: T)

  function Max(a: nat, b: nat): nat { if a < b then b else a }

  predicate IsHex(c: int) { 48 <= c <= 57 || 65 <= c <= 70 || 97 <= c <= 102 }

  /** The value of a hexadecimal digit, as RFC 8259 section 7 reads it. */
  function HexValue(c: int): (v: int)
    requires IsHex(c)
    ensures 0 <= v < 16
  {
    if c >= 97 then c - 87 else if c >= 65 then c - 55 else c - 48
  }

  lemma Assoc<T>(a: seq<T>, b: seq<T>, c: seq<T>)
    ensures a + (b + c) == a + b + c
  {
  }

  lemma NoneAfter<T>(a: seq<T>)
    ensures a + [] == a
  {
  }

  lemma SplitLast<T>(s: seq<T>)
    requires s != []
    ensures s == s[..|s| - 1] + [s[|s| - 1]]
  {
  }
}

/**
 `ValueFromKey` of Com/ComTools.cpp: the value on the first line that starts
 with a key and a colon. The source jumps between labels; the loops below are
 named after them.
 */
module KeyValue {
  import opened Basics

  predicate IsBlank(c: char) { c == ' ' || c == '\t' }

  predicate IsEnd(c: char) { c == '\r' || c == '\n' }

  // ---- What is meant ----

  /** A line starts here. */
  predicate LineStart(a: string, p: int) { p == 0 || (0 < p <= |a| && a[p - 1] == '\n') }

  predicate HeadAt(a: string, key: string, p: int) {
    0 <= p && p + |key| + 1 <= |a| && a[p..p + |key|] == key && a[p + |key|] == ':'
  }

  predicate KeyLine(a: string, key: string, p: int) { 0 <= p && LineStart(a, p) && HeadAt(a, key, p) }

  /** The first line with this key. */
  predicate FirstKeyLine(a: string, key: string, p: int) {
    KeyLine(a, key, p) && forall q :: 0 <= q < p ==> !KeyLine(a, key, q)
  }

  function AfterBlanks(t: string): (u: string)
    ensures |u| <= |t| && (u != [] ==> !IsBlank(u[0]))
  {
    if t != [] && IsBlank(t[0]) then AfterBlanks(t[1..]) else t
  }

  function UpToEnd(t: string): (u: string)
    ensures u <= t && forall i :: 0 <= i < |u| ==> !IsEnd(u[i])
  {
    if t == [] || IsEnd(t[0]) then [] else [t[0]] + UpToEnd(t[1..])
  }

  /** The value behind the colon: after blanks, one character of any kind, and what follows it up to an end of line. */
  function Data(t: string): string {
    var u := AfterBlanks(t);
    if u == [] then [] else [u[0]] + UpToEnd(u[1..])
  }

  lemma {:induction false} UpToEndIs(v: string, rest: string)
    requires (forall i :: 0 <= i < |v| ==> !IsEnd(v[i])) && (rest == [] || IsEnd(rest[0]))
    ensures UpToEnd(v + rest) == v
    decreases |v|
  {
    if v == [] {
      assert v + rest == rest;
    } else {
      assert (v + rest)[1..] == v[1..] + rest;
      UpToEndIs(v[1..], rest);
    }
  }

  /**
   A value behind any number of blanks and tabs is read back from its line
   exactly if it starts with neither and contains no end of line other than as
   its first character.
   */
  lemma {:induction false} DataReadBack(blanks: string, v: string, rest: string)
    requires v != [] && (rest == [] || rest[0] == '\r' || rest[0] == '\n')
    requires forall i :: 0 <= i < |blanks| ==> blanks[i] == ' ' || blanks[i] == '\t'
    ensures Data(blanks + v + rest) == v <==>
              v[0] != ' ' && v[0] != '\t' && forall i :: 1 <= i < |v| ==> v[i] != '\r' && v[i] != '\n'
    decreases |blanks|
  {
    if blanks == [] {
      assert blanks + v + rest == v + rest;
      DataReadHere(v, rest);
    } else {
      assert (blanks + v + rest)[1..] == blanks[1..] + v + rest;
      DataReadBack(blanks[1..], v, rest);
    }
  }

  lemma DataReadHere(v: string, rest: string)
    requires v != [] && (rest == [] || IsEnd(rest[0]))
    ensures Data(v + rest) == v <==> !IsBlank(v[0]) && forall i :: 1 <= i < |v| ==> !IsEnd(v[i])
  {
    if !IsBlank(v[0]) {
      assert AfterBlanks(v + rest) == v + rest;
      assert (v + rest)[1..] == v[1..] + rest;
      if forall i :: 1 <= i < |v| ==> !IsEnd(v[i]) {
        UpToEndIs(v[1..], rest);
        assert v == [v[0]] + v[1..];
      }
    }
  }

  /** An empty value takes the next line with it: its line break is the first character of the value. */
  lemma EmptyValueTakesNextLine(next: string)
    requires forall i :: 0 <= i < |next| ==> !IsEnd(next[i])
    ensures Data("\n" + next) == "\n" + next
  {
    assert ("\n" + next)[1..] == next;
    assert next + [] == next;
    UpToEndIs(next, []);
  }

  // ---- Line by line ----

  /** The first line break from here on, or the length. */
  function Break(a: string, i: int): (j: int)
    requires 0 <= i <= |a|
    ensures i <= j <= |a| && (j < |a| ==> a[j] == '\n') && '\n' !in a[i..j]
    decreases |a| - i
  {
    if i == |a| || a[i] == '\n' then i
    else
      var j := Break(a, i + 1);
      assert a[i..j] == [a[i]] + a[i + 1..j];
      j
  }

  /** The lines from `p` on; what a key without a colon has matched is not looked at again. */
  function Lookup(a: string, key: string, p: int): string
    requires 0 <= p <= |a|
    decreases |a| - p
  {
    var matched := p + |key| + 1 <= |a| && a[p..p + |key|] == key;
    if matched && a[p + |key|] == ':' then Data(a[p + |key| + 1..])
    else
      var j := Break(a, if matched then p + |key| else p);
      if j == |a| then [] else Lookup(a, key, j + 1)
  }

  /** The value on the line at `p`. */
  function ValueAt(a: string, key: string, p: int): string
    requires HeadAt(a, key, p)
  {
    Data(a[p + |key| + 1..])
  }

  predicate NoneBefore(a: string, key: string, p: int) { forall q :: 0 <= q < p ==> !KeyLine(a, key, q) }

  /** The value on the first line with the key, or nothing. */
  ghost predicate IsFirstValue(a: string, key: string, v: string) {
    && (forall q :: FirstKeyLine(a, key, q) ==> v == ValueAt(a, key, q))
    && ((forall q :: !KeyLine(a, key, q)) ==> v == [])
  }

  /**
   A key that has matched without a colon can cover the start of the line that
   is meant: behind one of its line breaks it begins again, and no colon is due
   where the match ends.
   */
  predicate HidesAt(key: string, d: int) {
    1 <= d <= |key| && key[d - 1] == '\n' && key[d..] == key[..|key| - d] && key[|key| - d] != ':'
  }

  ghost predicate Hides(key: string) { exists d :: HidesAt(key, d) }

  /** Unless the key can cover its own line, the line-by-line search finds what is meant. */
  lemma {:induction false} LookupIsFirst(a: string, key: string, p: int)
    requires !Hides(key) && 0 <= p <= |a| && LineStart(a, p) && NoneBefore(a, key, p)
    ensures IsFirstValue(a, key, Lookup(a, key, p))
    decreases |a| - p
  {
    LookupStep(a, key, p);
    if HeadAt(a, key, p) {
      FoundHere(a, key, p);
    } else {
      var from := Checked(a, key, p);
      NothingInLine(a, key, p, from);
      hide HeadAt, NoneBefore, IsFirstValue, Lookup, Checked, Hides;
      var j := Break(a, from);
      if j < |a| {
        LookupIsFirst(a, key, j + 1);
      }
    }
  }

  /** How far a line without the key and a colon has been looked at. */
  function Checked(a: string, key: string, p: int): (from: int)
    requires 0 <= p <= |a|
    ensures p <= from <= |a|
  {
    if p + |key| + 1 <= |a| && a[p..p + |key|] == key then p + |key| else p
  }

  lemma LookupStep(a: string, key: string, p: int)
    requires 0 <= p <= |a|
    ensures HeadAt(a, key, p) ==> Lookup(a, key, p) == ValueAt(a, key, p)
    ensures !HeadAt(a, key, p) ==>
      var j := Break(a, Checked(a, key, p)); Lookup(a, key, p) == if j == |a| then [] else Lookup(a, key, j + 1)
  {
    hide Data, Break;
  }

  lemma FoundHere(a: string, key: string, p: int)
    requires KeyLine(a, key, p) && NoneBefore(a, key, p)
    ensures IsFirstValue(a, key, ValueAt(a, key, p))
  {
    hide ValueAt, HeadAt, LineStart;
    forall q | FirstKeyLine(a, key, q)
      ensures q == p
    {
    }
  }

  lemma NothingInLine(a: string, key: string, p: int, from: int)
    requires 0 <= p <= from <= |a| && !Hides(key) && from == Checked(a, key, p)
    requires NoneBefore(a, key, p) && !HeadAt(a, key, p)
    ensures NoneBefore(a, key, Break(a, from) + 1)
    ensures Break(a, from) == |a| ==> IsFirstValue(a, key, [])
  {
    var j := Break(a, from);
    forall q | 0 <= q <= j
      ensures !KeyLine(a, key, q)
    {
      if p < q <= from {
        if KeyLine(a, key, q) {
          CoveredLine(a, key, p, q);
        }
      } else if from < q {
        assert a[q - 1] == a[from..j][q - 1 - from];
      }
    }
  }

  lemma CoveredLine(a: string, key: string, p: int, q: int)
    requires 0 <= p < q <= p + |key| < |a| && a[p..p + |key|] == key && !HeadAt(a, key, p) && KeyLine(a, key, q)
    ensures HidesAt(key, q - p)
  {
    var d := q - p;
    assert a[q - 1] == a[p..p + |key|][d - 1];
    assert a[p + |key|] == a[q..q + |key|][|key| - d];
    forall i | 0 <= i < |key| - d
      ensures key[d + i] == key[i]
    {
      assert a[p..p + |key|][d + i] == a[q + i] == a[q..q + |key|][i];
    }
  }

  /** The search is right for every text exactly if the key cannot cover its own line. */
  lemma SearchIsExact(key: string)
    ensures (forall a :: IsFirstValue(a, key, Lookup(a, key, 0))) <==> !Hides(key)
  {
    if Hides(key) {
      var a := HiddenText(key);
      assert !IsFirstValue(a, key, Lookup(a, key, 0));
    } else {
      forall a
        ensures IsFirstValue(a, key, Lookup(a, key, 0))
      {
        LookupIsFirst(a, key, 0);
      }
    }
  }

  /** A text whose line with the key is missed. */
  lemma HiddenText(key: string) returns (a: string)
    requires Hides(key)
    ensures !IsFirstValue(a, key, Lookup(a, key, 0))
  {
    var d :| HidesAt(key, d);
    a := key[..d] + key + ":5";
    Overlap(key, d, a);
    Missed(a, key, d);
    hide KeyLine, HeadAt, IsFirstValue, Lookup, HidesAt;
    ValueMeant(a, key, d);
  }

  lemma ValueMeant(a: string, key: string, d: int)
    requires KeyLine(a, key, d) && d + |key| + 1 < |a| && a[|a| - 1] == '5'
    ensures !IsFirstValue(a, key, [])
  {
    var q := FirstLine(a, key, d);
    NotEmpty(a[q + |key| + 1..]);
    hide LineStart, Data;
    assert ValueAt(a, key, q) != [];
  }

  lemma NoHeadBehind(a: string, key: string)
    requires |a| <= 2 * |key| + 2 && a != [] && a[|a| - 1] == '5'
    ensures forall p :: |key| < p ==> !HeadAt(a, key, p)
  {
  }

  lemma Missed(a: string, key: string, d: int)
    requires 0 <= d <= |key| && |a| == d + |key| + 2 && a[|a| - 1] == '5'
    requires !HeadAt(a, key, 0) && Checked(a, key, 0) == |key|
    ensures Lookup(a, key, 0) == []
  {
    hide HeadAt, Lookup, Checked;
    LookupStep(a, key, 0);
    NoHeadBehind(a, key);
    var j := Break(a, |key|);
    if j < |a| {
      LookupNone(a, key, j + 1);
    }
  }

  lemma Overlap(key: string, d: int, a: string)
    requires HidesAt(key, d) && a == key[..d] + key + ":5"
    ensures KeyLine(a, key, d) && !HeadAt(a, key, 0) && Checked(a, key, 0) == |key|
    ensures |a| == d + |key| + 2 && a[|a| - 1] == '5'
  {
    var n := |key|;
    assert a[d..d + n] == key;
    forall i | 0 <= i < n
      ensures a[i] == key[i]
    {
      if i >= d {
        assert key[d..][i - d] == key[..n - d][i - d];
      }
    }
    assert a[0..n] == key;
    assert a[n] == key[n - d];
  }

  lemma {:induction false} FirstLine(a: string, key: string, p: int) returns (q: int)
    requires KeyLine(a, key, p)
    ensures q <= p && FirstKeyLine(a, key, q)
    decreases p
  {
    q := p;
    if o :| 0 <= o < p && KeyLine(a, key, o) {
      q := FirstLine(a, key, o);
    }
  }

  lemma {:induction false} NotEmpty(t: string)
    requires t != [] && !IsBlank(t[|t| - 1])
    ensures Data(t) != []
    decreases |t|
  {
    if IsBlank(t[0]) {
      NotEmpty(t[1..]);
    }
  }

  lemma {:induction false} LookupNone(a: string, key: string, p: int)
    requires 0 <= p <= |a| && forall q :: p <= q ==> !HeadAt(a, key, q)
    ensures Lookup(a, key, p) == []
    decreases |a| - p
  {
    LookupStep(a, key, p);
    var j := Break(a, Checked(a, key, p));
    hide HeadAt, Lookup, Checked;
    if j < |a| {
      LookupNone(a, key, j + 1);
    }
  }

  lemma WithoutBreak(key: string)
    ensures '\n' !in key ==> !Hides(key)
  {
  }

  // ---- The scanner ----

  /** The loop over the labels, each of which is a method below. */
  method ValueFromKey(a: string, key: string) returns (v: string)
    ensures v == Lookup(a, key, 0)
    ensures !Hides(key) ==> IsFirstValue(a, key, v)
    ensures '\n' !in key ==> IsFirstValue(a, key, v)
  {
    hide IsFirstValue, Hides, Lookup, HeadAt, Checked, Data, Break;
    WithoutBreak(key);
    if !Hides(key) {
      LookupIsFirst(a, key, 0);
    }
    var idx, len := 0, |a|;
    while true
      invariant 0 <= idx && 0 <= len && idx + len == |a|
      invariant Lookup(a, key, idx) == Lookup(a, key, 0)
      decreases len
    {
      LookupStep(a, key, idx);
      var found, more;
      idx, len, found := AtLineStart(a, key, idx, len);
      if found {
        break;
      }
      idx, len, more := EatLine(a, idx, len);
      if !more {
        return [];
      }
    }
    v := EatSpaces(a, idx, len);
  }

  /** `line_start`: goes past the key and the colon, or past the key alone, or nowhere. */
  method AtLineStart(a: string, key: string, from: int, rest: int) returns (idx: int, len: int, found: bool)
    requires 0 <= from && 0 <= rest && from + rest == |a|
    ensures 0 <= len <= rest && idx + len == |a| && found == HeadAt(a, key, from)
    ensures idx == if found then from + |key| + 1 else Checked(a, key, from)
  {
    idx, len, found := from, rest, false;
    if len >= |key| + 1 && a[idx..idx + |key|] == key {
      idx, len := idx + |key|, len - |key|;
      if a[idx] == ':' {
        idx, len, found := idx + 1, len - 1, true;
      }
    }
  }

  /** The rest of a line without the key; whether there is another one. */
  method EatLine(a: string, from: int, rest: int) returns (idx: int, len: int, more: bool)
    requires 0 <= from && 0 <= rest && from + rest == |a|
    ensures 0 <= idx && 0 <= len && idx + len == |a|
    ensures more == (Break(a, from) < |a|) && (more ==> idx == Break(a, from) + 1)
  {
    idx, len := from, rest;
    while len > 0 && a[idx] != '\n'
      invariant 0 <= len && from <= idx && idx + len == |a| && Break(a, idx) == Break(a, from)
    {
      idx, len := idx + 1, len - 1;
    }
    more := len > 0;
    if more {
      idx, len := idx + 1, len - 1;
    }
  }

  lemma BlankStep(a: string, i: int)
    requires 0 <= i <= |a|
    ensures AfterBlanks(a[i..]) == if i < |a| && IsBlank(a[i]) then AfterBlanks(a[i + 1..]) else a[i..]
  {
    if i < |a| {
      assert a[i..][1..] == a[i + 1..];
    }
  }

  method EatSpaces(a: string, from: int, rest: int) returns (v: string)
    requires 0 <= from && 0 <= rest && from + rest == |a|
    ensures v == Data(a[from..])
  {
    hide AfterBlanks, Data, UpToEnd;
    var idx, len := from, rest;
    BlankStep(a, idx);
    while len > 0 && IsBlank(a[idx])
      invariant from <= idx && 0 <= len && idx + len == |a| && AfterBlanks(a[idx..]) == AfterBlanks(a[from..])
      invariant AfterBlanks(a[idx..]) == if idx < |a| && IsBlank(a[idx]) then AfterBlanks(a[idx + 1..]) else a[idx..]
    {
      idx, len := idx + 1, len - 1;
      BlankStep(a, idx);
    }
    if len == 0 {
      NoData(a[from..]);
      return [];
    }
    v := EatData(a, idx, idx + 1, len - 1);
    DataFrom(a, from, idx);
  }

  lemma NoData(t: string)
    requires AfterBlanks(t) == []
    ensures Data(t) == []
  {
  }

  lemma DataFrom(a: string, from: int, idx: int)
    requires 0 <= from <= idx < |a| && AfterBlanks(a[from..]) == a[idx..]
    ensures Data(a[from..]) == a[idx..idx + 1] + UpToEnd(a[idx + 1..])
  {
    assert a[idx..][1..] == a[idx + 1..];
  }

  lemma DataStep(a: string, start: int, i: int)
    requires 0 <= start <= i < |a| && !IsEnd(a[i])
    ensures a[start..i] + UpToEnd(a[i..]) == a[start..i + 1] + UpToEnd(a[i + 1..])
  {
    Taken(a[i..]);
    hide UpToEnd;
    assert a[i..][1..] == a[i + 1..];
    assert a[start..i + 1] == a[start..i] + [a[i]];
    Assoc(a[start..i], [a[i]], UpToEnd(a[i + 1..]));
  }

  lemma Taken(t: string)
    requires t != [] && !IsEnd(t[0])
    ensures UpToEnd(t) == [t[0]] + UpToEnd(t[1..])
  {
  }

  method EatData(a: string, start: int, from: int, rest: int) returns (v: string)
    requires 0 <= start <= from && 0 <= rest && from + rest == |a|
    ensures v == a[start..from] + UpToEnd(a[from..])
  {
    var idx, len := from, rest;
    while len > 0 && !IsEnd(a[idx])
      invariant from <= idx && 0 <= len && idx + len == |a|
      invariant a[start..idx] + UpToEnd(a[idx..]) == a[start..from] + UpToEnd(a[from..])
    {
      hide UpToEnd;
      DataStep(a, start, idx);
      idx, len := idx + 1, len - 1;
    }
    v := a[start..idx];
  }
}

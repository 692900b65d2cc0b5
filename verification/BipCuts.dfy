/**
 Why BipScan asks that 36 bytes settle what happens at a tag: wherever they do
 not, some bytes that follow are handled differently if they arrive in two pieces.
 */
module BipCuts {
  import opened BipFrames
  import opened BipHeader
  import opened BipScan

  const Z: byte := 122
  const TWO_ZEROS: Bytes := [ZERO, ZERO]
  const TWO_EFFS: Bytes := [102, 102]
  /** A last digit, then a payload of 15 bytes counted from the end of a header, and the end of a message. */
  const REST: Bytes := [102, Z, Z, Z, Z, Z, Z, Z, Z, Z, Z, Z, Z, 13, 10]

  lemma FeedTwo(a: Bytes, b: Bytes)
    ensures Feed([a, b]) == Then(Scan(a), b)
  {
    assert [a, b][..1] == [a] && [a][..0] == [];
    assert [] + a == a;
    PrependNothing(Scan(a));
    assert Feed([a]) == Then(Feed([]), a) == Scan(a);
  }

  /** Two pieces can be told from one at every tag whose 36 bytes do not settle what happens. */
  lemma CutsMatter(w: Bytes) returns (c1: Bytes, c2: Bytes)
    requires |w| == TAG_SIZE && !Firm(w)
    ensures c2 != [] && Feed([w + c1, c2]) != Scan(w + c1 + c2)
  {
    var s := After(w);
    KeptByAll(InText(0), w);
    TextRead(w, 0);
    if s.InText? {
      InTextIs(w, 0);
    }
    if s.InNumber? && |s.numbers| == 2 && HasDigits(s.shape) && s.negative && (Magnitude(s.shape) > 0 || s.left == 2) {
      c1, c2 := Digits1(Magnitude(s.shape)), TWO_EFFS;
      CutInNegative(w, s, c1);
    } else if s.InNumber? && |s.numbers| == 2 {
      c1, c2 := TWO_ZEROS, REST;
      CutInThird(w, s);
    } else {
      c1 := if s.Between? || HasDigits(s.shape) then [SPACE] else [ONE];
      c2 := ONES;
      CutBeforeThird(w, s, c1[0]);
    }
  }

  /** The first piece makes the loop go round for ever, the whole does not. */
  lemma CutBeforeThird(w: Bytes, s: Scanner, c: byte)
    requires |w| == TAG_SIZE && StartsTag(w) && s == After(w) && Kept(s)
    requires s.Between? || (s.InNumber? && |s.numbers| < 2)
    requires c == if s.Between? || HasDigits(s.shape) then SPACE else ONE
    ensures Feed([w + [c], ONES]) != Scan(w + [c] + ONES)
  {
    var x := w + [c];
    ReadConcat(InText(0), w, [c]);
    assert ReadAll(s, [c]) == Read(s, c) by { assert [c][1..] == []; }
    KeptByOne(s, c);
    ReadConcat(InText(0), x, ONES);
    OnesComplete(Read(s, c));
    OneRead(s, c);
    assert x[..7] == w[..7] && (x + ONES)[..7] == w[..7];
    Verdict(x);
    Verdict(x + ONES);
    hide ReadAll, Read, End, Kept, MoveToMessage, GoodBeginning;
    NoProgress(x);
    FeedTwo(x, ONES);
    Ends(x + ONES);
  }

  /** No third number is begun. */
  lemma OneRead(s: Scanner, c: byte)
    requires Kept(s) && (s.Between? || (s.InNumber? && |s.numbers| < 2))
    requires c == if s.Between? || HasDigits(s.shape) then SPACE else ONE
    ensures var r := Read(s, c); !Over(r) && !r.InText? && !End(r).Matched?
  {
  }

  /** A header that is there leaves less than another one behind. */
  lemma Ends(b: Bytes)
    requires |b| < 2 * TAG_SIZE && GoodBeginning(b).Good?
    ensures !Scan(b).Stuck?
  {
    hide GoodBeginning, MoveToMessage;
  }

  /** The first piece has a message of no length, the whole one of length 15 or more. */
  lemma CutInThird(w: Bytes, s: Scanner)
    requires |w| == TAG_SIZE && s == After(w) && Kept(s) && s.InNumber? && |s.numbers| == 2
    requires HasDigits(s.shape) ==> Magnitude(s.shape) == 0 && s.left >= 3
    ensures Feed([w + TWO_ZEROS, REST]) != Scan(w + TWO_ZEROS + REST)
  {
    var x := w + TWO_ZEROS;
    var pid, mid := s.numbers[0], s.numbers[1];
    Verdicts(w, s);
    FeedTwo(x, REST);
    hide GoodBeginning, REST, After;
    FirstPiece(w, pid, mid);
    if s.negative {
      BeyondReach(x + REST, WORD - 15);
    } else {
      WholeMessage(w, pid, mid);
    }
  }

  /** The first piece has a length that cannot be handled, the whole one that only waits. */
  lemma CutInNegative(w: Bytes, s: Scanner, c1: Bytes)
    requires |w| == TAG_SIZE && s == After(w) && Kept(s) && s.InNumber? && |s.numbers| == 2 && s.negative
    requires s.shape.Digits? && c1 == Digits1(s.shape.value)
    requires if s.shape.value == 0 then s.left == 2 else s.shape.value <= TAG_SIZE + END_SIZE && !FirmNumber(s)
    ensures Feed([w + c1, TWO_EFFS]) != Scan(w + c1 + TWO_EFFS)
  {
    var x := w + c1;
    var r := ReadAll(s, c1);
    ReadConcat(InText(0), w, c1);
    ThirdNumber(s, c1);
    FirstDigit(s);
    ThirdEnd(r);
    FeedTwo(x, TWO_EFFS);
    BeyondReach(x, WORD - r.shape.value);
    ReadConcat(InText(0), x, TWO_EFFS);
    TwoEffs(r);
    hide GoodBeginning, After, ReadAll, End;
    assert Endless(GoodBeginning(x + TWO_EFFS));
    Vain(x + TWO_EFFS);
  }

  /** What makes the number one whose message seems to be there. */
  function Digits1(m: nat): Bytes { if m == 0 then [51] else if m == 1 then [ZERO] else [] }

  lemma FirstDigit(s: Scanner)
    requires InThird(s) && s.negative
    requires if s.shape.value == 0 then s.left == 2 else s.shape.value <= TAG_SIZE + END_SIZE && !FirmNumber(s)
    ensures var r := ReadAll(s, Digits1(s.shape.value));
            InThird(r) && r.negative && 2 <= r.shape.value <= TAG_SIZE + END_SIZE
  {
    var t := Digits1(s.shape.value);
    if t != [] {
      ThirdRead(s, t[0]);
      ThirdStep(s, t[0]);
      assert t[1..] == [];
      hide Read;
    }
  }

  lemma Vain(b: Bytes)
    requires Endless(GoodBeginning(b)) && TAG_SIZE <= |b| < 100
    ensures Scan(b).Waiting?
  {
    hide GoodBeginning, MoveToMessage;
  }

  lemma TwoEffs(r: Scanner)
    requires InThird(r) && r.negative && 2 <= r.shape.value <= TAG_SIZE + END_SIZE
    ensures var h := End(ReadAll(r, TWO_EFFS));
            h.Matched? && WORD - 0x1_0000 <= h.header.length < WRAPPED_LENGTH
  {
    var m := if r.left == 1 then 16 * r.shape.value + 15 else 256 * r.shape.value + 255;
    EffsRead(r, m);
    ReadFirst(r, TWO_EFFS);
    ReadFirst(Read(r, 102), TWO_EFFS[1..]);
    ValueIs(true, Digits(m));
    hide ReadAll, Read, End, Value;
  }

  lemma EffsRead(r: Scanner, m: nat)
    requires InThird(r) && m == if r.left == 1 then 16 * r.shape.value + 15 else 256 * r.shape.value + 255
    ensures End(Read(Read(r, 102), 102)) == Third(r, m)
  {
    var r1 := Read(r, 102);
    ThirdRead(r, 102);
    if r.left > 1 {
      ThirdRead(r1, 102);
      if r.left > 2 {
        ThirdRead(Read(r1, 102), NUL);
      }
    }
    hide Value;
  }

  lemma Verdicts(w: Bytes, s: Scanner)
    requires |w| == TAG_SIZE && s == After(w) && Kept(s) && s.InNumber? && |s.numbers| == 2
    requires HasDigits(s.shape) ==> Magnitude(s.shape) == 0 && s.left >= 3
    ensures GoodBeginning(w + TWO_ZEROS) == Good(Header(s.numbers[0], s.numbers[1], 0))
    ensures GoodBeginning(w + TWO_ZEROS + REST)
         == Good(Header(s.numbers[0], s.numbers[1], if s.negative then WORD - 15 else 15))
  {
    var r := TwoZeros(s);
    ReadConcat(InText(0), w, TWO_ZEROS);
    ReadConcat(InText(0), w + TWO_ZEROS, REST);
    RestRead(r);
    ThirdRead(r, NUL);
    ValueIs(r.negative, r.shape);
    hide ReadAll, Read, End, Value, REST, GoodBeginning, Kept;
    Verdict(w + TWO_ZEROS);
    Verdict(w + TWO_ZEROS + REST);
    MatchedEnds(After(w + TWO_ZEROS + REST));
  }

  lemma Verdict(b: Bytes)
    requires |b| >= TAG_SIZE
    ensures GoodBeginning(b) == if End(After(b)).Matched? then Good(End(After(b)).header) else Bad
  {
    hide End, After;
  }

  lemma MatchedEnds(s: Scanner)
    requires s.Matched?
    ensures End(s) == s
  {
  }


  lemma BeyondReach(b: Bytes, n: int)
    requires GoodBeginning(b).Good? && GoodBeginning(b).header.length == n
    requires WRAPPED_LENGTH <= n < WORD && |b| >= n - WRAPPED_LENGTH
    ensures Scan(b) == Excess([])
  {
    hide GoodBeginning, MoveToMessage;
  }

  lemma FirstPiece(w: Bytes, pid: word, mid: word)
    requires |w| == TAG_SIZE && GoodBeginning(w + TWO_ZEROS) == Good(Header(pid, mid, 0))
    ensures var r := Then(Scan(w + TWO_ZEROS), REST); r.Waiting? && r.events == if mid == 0 then [Link(pid, [])] else []
  {
    hide GoodBeginning, MoveToMessage;
    var x := w + TWO_ZEROS;
    assert x[TAG_SIZE..] == TWO_ZEROS && x[TAG_SIZE..TAG_SIZE] == [] && x[38..] == [] && x[36..38] == TWO_ZEROS;
    assert Iterate(x) == if mid != 0 then Next(TWO_ZEROS, []) else Next([], [Link(pid, [])]);
    assert Scan(TWO_ZEROS) == Waiting([], TWO_ZEROS) && Scan([]) == Waiting([], []);
    assert Scan(TWO_ZEROS + REST).Waiting? && Scan(TWO_ZEROS + REST).events == [];
    assert Scan([] + REST).Waiting? && Scan([] + REST).events == [];
  }

  lemma WholeMessage(w: Bytes, pid: word, mid: word)
    requires |w| == TAG_SIZE && GoodBeginning(w + TWO_ZEROS + REST) == Good(Header(pid, mid, 15))
    ensures exists data: Bytes ::
              |data| == 15 && Scan(w + TWO_ZEROS + REST).events == [EventOf(Header(pid, mid, 15), data)]
  {
    hide GoodBeginning, MoveToMessage;
    var y := w + TWO_ZEROS + REST;
    var data := y[TAG_SIZE..51];
    assert y[51..53] == TAG_END && y[53..] == [];
    assert Iterate(y) == Next([], [EventOf(Header(pid, mid, 15), data)]);
    assert Scan([]) == Waiting([], []);
  }

  lemma TwoZeros(s: Scanner) returns (r: Scanner)
    requires Kept(s) && s.InNumber? && |s.numbers| == 2
    requires HasDigits(s.shape) ==> Magnitude(s.shape) == 0 && s.left >= 3
    ensures r == ReadAll(s, TWO_ZEROS) && r.InNumber? && r.numbers == s.numbers && r.negative == s.negative
    ensures r.shape == Digits(0) && r.left >= 1
  {
    r := Read(Read(s, ZERO), ZERO);
    assert TWO_ZEROS[1..] == [ZERO] && [ZERO][1..] == [];
    assert ReadAll(Read(s, ZERO), [ZERO]) == r;
  }

  lemma RestRead(r: Scanner)
    requires r.InNumber? && |r.numbers| == 2 && r.shape == Digits(0) && r.left >= 1
    ensures ReadAll(r, REST) == Matched(Header(r.numbers[0], r.numbers[1], if r.negative then WORD - 15 else 15))
  {
    var r1 := Read(r, 102);
    var r2 := Read(r1, Z);
    ThirdRead(r, 102);
    if r.left > 1 {
      ThirdRead(r1, Z);
    }
    ValueIs(r.negative, Digits(15));
    var more := REST[1..];
    ReadFirst(r, REST);
    ReadFirst(r1, more);
    OverStays(r2, more[1..]);
    hide ReadAll, Read, Value;
  }
}

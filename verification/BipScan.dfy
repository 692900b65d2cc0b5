/**
 What `Receive` of Com/MsgSocket.cpp makes of the bytes in its buffer, as a
 function, and why it does not matter how the bytes arrived.
 */
module BipScan {
  import opened BipFrames
  import opened BipHeader

  /** A SyncLink message, reported as Connected, or a message for the listeners. */
  datatype Event = Link(pid: int, data: Bytes) | Message(pid: int, mid: int, data: Bytes)

  /** The longest payload for which the rounded buffer size stays within a signed int. */
  const MAX_LENGTH := 0x8000_0000 - 1024 - TAG_SIZE - END_SIZE

  /** The size of such a message is beyond a signed int, or beyond an unsigned one. */
  const NEGATIVE_LENGTH := 0x8000_0000 - TAG_SIZE - END_SIZE
  const WRAPPED_LENGTH := WORD - TAG_SIZE - END_SIZE

  /** The size of a message as an `unsigned int`. */
  function Size(h: Header): nat
    requires h.length >= 0
  {
    (TAG_SIZE + h.length + END_SIZE) % WORD
  }

  /**
   A length for which the size of a larger buffer leaves the signed ints, or for
   which the size of the message has wrapped and seems to be there.
   */
  predicate Overlong(p: Parsed, there: nat) {
    && p.Good? && p.header.length >= 0
    && (MAX_LENGTH < p.header.length < NEGATIVE_LENGTH
        || (p.header.length >= WRAPPED_LENGTH && there >= Size(p.header)))
  }

  /** A length for which the size is negative as a signed int: the loop waits, and the buffer does not grow. */
  predicate Endless(p: Parsed) { p.Good? && NEGATIVE_LENGTH <= p.header.length < WRAPPED_LENGTH }

  /** `MoveToMessage`: the first position, 36 bytes before the end at the latest, where a tag starts. */
  function MoveToMessage(b: Bytes, from: nat): (i: nat)
    requires from + TAG_SIZE <= |b|
    ensures from <= i && i + TAG_SIZE <= |b|
    ensures forall k :: from <= k < i ==> !StartsTag(b[k..])
    ensures i + TAG_SIZE < |b| ==> StartsTag(b[i..])
    decreases |b| - from
  {
    if from + TAG_SIZE == |b| || StartsTag(b[from..]) then from else MoveToMessage(b, from + 1)
  }

  /** One round of the loop, on the bytes from `offset` on. */
  datatype Round = Stop(rest: Bytes) | Next(rest: Bytes, out: seq<Event>) | TooLong

  function EventOf(h: Header, data: Bytes): Event {
    if h.mid == 0 then Link(h.pid, data) else Message(h.pid, h.mid, data)
  }

  function Iterate(b: Bytes): (r: Round)
    ensures r.Stop? ==> |r.rest| <= |b|
    ensures r.Next? ==> |r.rest| <= |b|
  {
    if |b| < TAG_SIZE then Stop(b)
    else
      match GoodBeginning(b)
      case Bad =>
        var i := MoveToMessage(b, 0);
        if i + TAG_SIZE == |b| then Stop(b[i..]) else Next(b[i..], [])
      case Good(h) =>
        var end := TAG_SIZE + h.length;
        if Overlong(Good(h), |b|) then TooLong
        else if |b| < Size(h) then Stop(b)
        else if h.mid != 0 && b[end..end + END_SIZE] != TAG_END then Next(b[TAG_SIZE..], [])
        else Next(b[end + END_SIZE..], [EventOf(h, b[TAG_SIZE..end])])
  }

  /**
   How a pass over the buffer ends: it waits for more bytes and keeps `rest`, or
   it goes round for ever at a tag without a header, or it meets a length that is
   outside this model.
   */
  datatype Result = Waiting(events: seq<Event>, rest: Bytes) | Stuck(events: seq<Event>) | Excess(events: seq<Event>)

  function Prepend(es: seq<Event>, r: Result): Result {
    match r
    case Waiting(fs, rest) => Waiting(es + fs, rest)
    case Stuck(fs) => Stuck(es + fs)
    case Excess(fs) => Excess(es + fs)
  }

  function Scan(b: Bytes): Result
    decreases |b|
  {
    match Iterate(b)
    case Stop(rest) => Waiting([], rest)
    case TooLong => Excess([])
    case Next(rest, out) => if |rest| == |b| then Stuck([]) else Prepend(out, Scan(rest))
  }

  /** A pass that found what `r` says, followed by one with the bytes `c` added. */
  function Then(r: Result, c: Bytes): Result {
    if r.Waiting? then Prepend(r.events, Scan(r.rest + c)) else r
  }

  // ---- When the loop does not end ----

  /**
   A round that changes nothing is repeated for ever. It happens exactly at a
   tag with more than 36 bytes behind it that is not the start of a header.
   */
  lemma NoProgress(b: Bytes)
    ensures Iterate(b).Next? && |Iterate(b).rest| == |b| <==> |b| > TAG_SIZE && StartsTag(b) && GoodBeginning(b).Bad?
    ensures Iterate(b).Next? && |Iterate(b).rest| == |b| ==> Iterate(b) == Next(b, [])
  {
    if |b| > TAG_SIZE && GoodBeginning(b).Bad? {
      assert b[0..] == b;
    }
  }

  // ---- Passes compose ----

  lemma TagPrefix(b: Bytes, c: Bytes, k: nat)
    requires k + 7 <= |b|
    ensures StartsTag((b + c)[k..]) <==> StartsTag(b[k..])
  {
    assert (b + c)[k..][..7] == b[k..][..7];
  }

  lemma {:induction false} MoveInPrefix(b: Bytes, c: Bytes, from: nat)
    requires from + TAG_SIZE <= |b|
    ensures var i := MoveToMessage(b, from);
            if i + TAG_SIZE < |b| then MoveToMessage(b + c, from) == i
            else MoveToMessage(b + c, from) == MoveToMessage(b + c, i)
    decreases |b| - from
  {
    if from + TAG_SIZE < |b| {
      TagPrefix(b, c, from);
      if !StartsTag(b[from..]) {
        MoveInPrefix(b, c, from + 1);
      }
    }
  }

  lemma {:induction false} MoveInSuffix(b: Bytes, k: nat, from: nat)
    requires k + from + TAG_SIZE <= |b|
    ensures MoveToMessage(b, k + from) == k + MoveToMessage(b[k..], from)
    decreases |b| - from
  {
    if k + from + TAG_SIZE < |b| {
      assert b[k..][from..] == b[k + from..];
      if !StartsTag(b[k + from..]) {
        MoveInSuffix(b, k, from + 1);
      }
    }
  }

  /** Where 36 bytes settle what the loop will do, a round that does not wait has found the end of the header. */
  lemma FirmRound(b: Bytes)
    requires |b| >= TAG_SIZE && Firm(b[..TAG_SIZE]) && !Iterate(b).Stop?
    ensures Decided(b)
  {
    hide Iterate, Decided;
    if !Decided(b) {
      PendingWaits(b);
    }
  }

  lemma PendingWaits(b: Bytes)
    requires |b| >= TAG_SIZE && Firm(b[..TAG_SIZE]) && !Decided(b)
    ensures Iterate(b).Stop?
  {
    var w, t := b[..TAG_SIZE], b[TAG_SIZE..];
    var s := After(w);
    assert b == w + t;
    ReadConcat(InText(0), w, t);
    KeptByAll(InText(0), w);
    hide ReadAll, End, MoveToMessage;
    if Over(s) {
      OverStays(s, t);
    } else {
      ThirdNumber(s, t);
      var r := ReadAll(s, t);
      ThirdEnd(r);
      PendingLength(s.negative, s.shape.value, s.left, |t|, r.shape.value, End(r).header);
      hide Overlong, Size, FirmNumber, InThird;
    }
  }

  /** While a third number that is firm has not ended, its message is not there. */
  lemma PendingLength(negative: bool, m: nat, left: nat, more: nat, n: nat, h: Header)
    requires if negative then m > TAG_SIZE + END_SIZE || (m <= 1 && left <= 1) else m > 0 || left <= 2
    requires left > more && n >= m + (if m > 0 then more else 0) && (more == 0 ==> n == m) && left <= 8
    requires h.length == (if negative && n > 0 then WORD - n else n) && n < 0x1000_0000
    ensures !Overlong(Good(h), TAG_SIZE + more) && TAG_SIZE + more < Size(h)
  {
  }

  /** A round that does not stop does the same with more bytes behind it. */
  lemma IterateMore(b: Bytes, c: Bytes)
    requires !Iterate(b).Stop? && Steady(b + c)
    ensures Iterate(b + c) == match Iterate(b) case TooLong => TooLong case Next(rest, out) => Next(rest + c, out)
  {
    SameVerdict(b, c);
    hide GoodBeginning, MoveToMessage, StartsTag, Steady;
    if GoodBeginning(b).Bad? {
      var i := MoveToMessage(b, 0);
      MoveInPrefix(b, c, 0);
      assert (b + c)[i..] == b[i..] + c;
    } else {
      GoodMore(b, c, GoodBeginning(b).header);
    }
  }

  lemma SameVerdict(b: Bytes, c: Bytes)
    requires !Iterate(b).Stop? && Steady(b + c)
    ensures GoodBeginning(b) == GoodBeginning(b + c)
  {
    hide GoodBeginning, MoveToMessage;
    assert (b + c)[..TAG_SIZE] == b[..TAG_SIZE];
    if Firm(b[..TAG_SIZE]) {
      FirmRound(b);
      DecidedMore(b, c);
    } else {
      assert (b + c)[..|b|] == b && (b + c)[..|b + c|] == b + c;
    }
  }

  lemma GoodMore(b: Bytes, c: Bytes, h: Header)
    requires !Iterate(b).Stop? && GoodBeginning(b) == GoodBeginning(b + c) == Good(h)
    ensures Iterate(b + c) == match Iterate(b) case TooLong => TooLong case Next(rest, out) => Next(rest + c, out)
  {
    hide GoodBeginning, MoveToMessage;
    if !Overlong(Good(h), |b|) {
      var end := TAG_SIZE + h.length;
      assert (b + c)[end..end + END_SIZE] == b[end..end + END_SIZE];
      assert (b + c)[TAG_SIZE..end] == b[TAG_SIZE..end];
      assert (b + c)[TAG_SIZE..] == b[TAG_SIZE..] + c;
      assert (b + c)[end + END_SIZE..] == b[end + END_SIZE..] + c;
    }
  }

  lemma PrependNothing(r: Result)
    ensures Prepend([], r) == r
  {
  }

  lemma PrependTwice(xs: seq<Event>, ys: seq<Event>, r: Result)
    ensures Prepend(xs, Prepend(ys, r)) == Prepend(xs + ys, r)
  {
    match r
    case Waiting(fs, _) => assert xs + (ys + fs) == xs + ys + fs;
    case Stuck(fs) => assert xs + (ys + fs) == xs + ys + fs;
    case Excess(fs) => assert xs + (ys + fs) == xs + ys + fs;
  }

  /** Bytes before the last 36 in which no tag starts do not matter. */
  lemma SkipGarbage(b: Bytes, k: nat)
    requires 0 < k && k + TAG_SIZE < |b| && forall j :: 0 <= j < k ==> !StartsTag(b[j..])
    ensures Scan(b) == Scan(b[k..])
  {
    var x := b[k..];
    assert b[0..] == b;
    NoTagBefore(b, 0, k);
    MoveInSuffix(b, k, 0);
    assert GoodBeginning(b).Bad?;
    hide GoodBeginning, MoveToMessage, StartsTag;
    if StartsTag(x) {
      MoveAtTag(x);
      assert Iterate(b) == Next(x, []);
      PrependNothing(Scan(x));
    } else {
      SameRound(b, k);
    }
  }

  lemma NoHeaderHere(x: Bytes)
    requires !StartsTag(x)
    ensures GoodBeginning(x).Bad?
  {
    hide StartsTag;
  }

  /** The search goes on from the end of the garbage. */
  lemma SameRound(b: Bytes, k: nat)
    requires 0 < k && k + TAG_SIZE < |b| && GoodBeginning(b).Bad? && !StartsTag(b[k..])
    requires MoveToMessage(b, 0) == k + MoveToMessage(b[k..], 0)
    ensures Scan(b) == Scan(b[k..])
  {
    hide MoveToMessage, StartsTag;
    var x := b[k..];
    var i := MoveToMessage(x, 0);
    NoHeaderHere(x);
    hide GoodBeginning;
    assert b[k + i..] == x[i..];
    assert Iterate(b) == Iterate(x);
    hide Iterate;
  }

  lemma MoveAtTag(x: Bytes)
    requires |x| >= TAG_SIZE && StartsTag(x)
    ensures MoveToMessage(x, 0) == 0
  {
    assert x[0..] == x;
  }

  lemma {:induction false} NoTagBefore(b: Bytes, from: nat, k: nat)
    requires from <= k && k + TAG_SIZE <= |b| && forall j :: from <= j < k ==> !StartsTag(b[j..])
    ensures MoveToMessage(b, from) == MoveToMessage(b, k)
    decreases k - from
  {
    if from < k {
      assert !StartsTag(b[from..]);
      NoTagBefore(b, from + 1, k);
    }
  }

  // ---- The positions a pass comes to ----

  /** A round of a pass over `b` begins at position `k`. */
  predicate Reached(b: Bytes, k: nat)
    decreases |b|
  {
    k == 0 ||
    match Iterate(b)
    case Next(rest, _) => |rest| < |b| && |b| - |rest| <= k && Reached(rest, k - (|b| - |rest|))
    case _ => false
  }

  /** Every tag the pass comes to is settled by its 36 bytes, or never becomes a header. */
  predicate Steadily(b: Bytes) { forall k :: 0 <= k && k + TAG_SIZE <= |b| && Reached(b, k) ==> Steady(b[k..]) }

  lemma Suffix(b: Bytes)
    ensures match Iterate(b)
            case TooLong => true
            case Stop(rest) => |rest| <= |b| && rest == b[|b| - |rest|..]
            case Next(rest, out) => |rest| <= |b| && rest == b[|b| - |rest|..] && (out == [] || out == [out[0]])
  {
    hide GoodBeginning, MoveToMessage;
  }

  lemma SteadilyNext(b: Bytes)
    requires Steadily(b)
    ensures |b| >= TAG_SIZE ==> Steady(b)
    ensures Iterate(b).Next? && |Iterate(b).rest| < |b| ==> Steadily(Iterate(b).rest)
  {
    Suffix(b);
    hide Steady, Iterate;
    if |b| >= TAG_SIZE {
      assert Reached(b, 0) && b[0..] == b;
    }
    if Iterate(b).Next? && |Iterate(b).rest| < |b| {
      var rest := Iterate(b).rest;
      var d := |b| - |rest|;
      forall k | 0 <= k && k + TAG_SIZE <= |rest| && Reached(rest, k)
        ensures Steady(rest[k..])
      {
        assert Reached(b, d + k) && b[d + k..] == rest[k..];
      }
    }
  }

  lemma SteadilyFrom(b: Bytes)
    requires |b| >= TAG_SIZE ==> Steady(b)
    requires Iterate(b).Next? && |Iterate(b).rest| < |b| ==> Steadily(Iterate(b).rest)
    ensures Steadily(b)
  {
    Suffix(b);
    hide Steady, Iterate;
    assert b[0..] == b;
    forall k | 0 < k && k + TAG_SIZE <= |b| && Reached(b, k)
      ensures Steady(b[k..])
    {
      var rest := Iterate(b).rest;
      var d := |b| - |rest|;
      assert Reached(rest, k - d) && b[k..] == rest[k - d..];
    }
  }

  lemma {:induction false} SteadilyPrefix(b: Bytes, c: Bytes)
    requires Steadily(b + c)
    ensures Steadily(b)
    decreases |b|
  {
    SteadilyNext(b + c);
    if |b| >= TAG_SIZE {
      SteadyPrefix(b, c);
    }
    if Iterate(b).Next? && |Iterate(b).rest| < |b| {
      IterateMore(b, c);
      hide Iterate, Steady, Steadily;
      SteadilyPrefix(Iterate(b).rest, c);
    }
    hide Iterate, Steady, Steadily;
    SteadilyFrom(b);
  }

  /** One pass over everything is one pass over the first bytes and one over what is left with the others. */
  lemma {:induction false} ScanMore(b: Bytes, c: Bytes)
    requires c != [] && Steadily(b + c)
    ensures Scan(b + c) == Then(Scan(b), c)
    decreases |b|
  {
    SteadilyNext(b + c);
    hide Steady, Steadily;
    match Iterate(b)
    case TooLong =>
      IterateMore(b, c);
    case Next(rest, out) =>
      IterateMore(b, c);
      hide Iterate;
      if |rest| < |b| {
        ScanMore(rest, c);
        if Scan(rest).Waiting? {
          PrependTwice(out, Scan(rest).events, Scan(Scan(rest).rest + c));
        }
      }
    case Stop(rest) =>
      PrependNothing(Scan(rest + c));
      assert Then(Scan(b), c) == Scan(rest + c);
      StopMore(b, c, rest);
  }

  lemma StopMore(b: Bytes, c: Bytes, rest: Bytes)
    requires c != [] && Iterate(b) == Stop(rest)
    ensures Scan(b + c) == Scan(rest + c)
  {
    hide Scan, StartsTag, GoodBeginning;
    if rest != b {
      var k := |b| - TAG_SIZE;
      assert rest + c == (b + c)[k..];
      forall j | 0 <= j < k
        ensures !StartsTag((b + c)[j..])
      {
        TagPrefix(b, c, j);
      }
      SkipGarbage(b + c, k);
    }
  }

  // ---- How the loop ends ----

  /** A tag that is no header, with more than 36 bytes from it on. */
  predicate Headless(b: Bytes) { |b| > TAG_SIZE && StartsTag(b) && GoodBeginning(b).Bad? }

  /** The loop goes round for ever: it comes to such a tag. */
  predicate RunsForEver(b: Bytes) { exists k :: 0 <= k <= |b| && Reached(b, k) && Headless(b[k..]) }

  /** It comes to a length that it cannot handle. */
  predicate Overflows(b: Bytes) {
    exists k :: 0 <= k <= |b| && Reached(b, k) && Overlong(GoodBeginning(b[k..]), |b| - k)
  }

  /** It comes to neither. */
  predicate Passable(b: Bytes) { !RunsForEver(b) && !Overflows(b) }

  /** How a pass ends, read off the positions that it comes to. */
  lemma {:induction false} EndsExactly(b: Bytes)
    ensures Scan(b).Stuck? <==> RunsForEver(b)
    ensures Scan(b).Excess? <==> Overflows(b)
    ensures Scan(b).Waiting? <==> Passable(b)
    decreases |b|
  {
    NoProgress(b);
    Suffix(b);
    EndsHere(b);
    match Iterate(b)
    case TooLong =>
      hide Overlong, Headless;
      LastRound(b);
    case Stop(rest) =>
      hide Overlong, Headless;
      LastRound(b);
    case Next(rest, out) =>
      if |rest| == |b| {
        hide Overlong, Headless;
        LastRound(b);
      } else {
        EndsExactly(rest);
        hide Iterate, Headless, Overlong, RunsForEver, Overflows;
        FurtherRounds(b, rest);
      }
  }

  lemma EndsHere(b: Bytes)
    ensures Headless(b) <==> Iterate(b).Next? && |Iterate(b).rest| == |b|
    ensures Overlong(GoodBeginning(b), |b|) <==> Iterate(b).TooLong?
  {
    NoProgress(b);
    hide GoodBeginning, MoveToMessage;
  }

  /** No other position is reached. */
  lemma LastRound(b: Bytes)
    requires Iterate(b).Next? ==> |Iterate(b).rest| == |b|
    ensures RunsForEver(b) <==> Headless(b)
    ensures Overflows(b) <==> Overlong(GoodBeginning(b), |b|)
  {
    hide Iterate, Headless, Overlong, GoodBeginning;
    assert b[0..] == b && Reached(b, 0);
    assert forall k | 0 <= k :: Reached(b, k) ==> k == 0;
  }

  lemma ReachedNext(b: Bytes, rest: Bytes, k: nat)
    requires Iterate(b).Next? && Iterate(b).rest == rest && |rest| < |b| && 0 < k
    ensures Reached(b, k) <==> |b| - |rest| <= k && Reached(rest, k - (|b| - |rest|))
  {
    hide Iterate;
  }

  lemma FurtherRounds(b: Bytes, rest: Bytes)
    requires Iterate(b).Next? && Iterate(b).rest == rest && |rest| < |b| && rest == b[|b| - |rest|..]
    ensures RunsForEver(b) <==> RunsForEver(rest)
    ensures Overflows(b) <==> Overflows(rest)
  {
    EndsHere(b);
    hide Iterate, Headless, Overlong, GoodBeginning, Reached;
    var d := |b| - |rest|;
    assert b[0..] == b;
    if k :| 0 <= k <= |b| && Reached(b, k) && Headless(b[k..]) {
      ReachedNext(b, rest, k);
      assert Reached(rest, k - d) && b[k..] == rest[k - d..];
    }
    if k :| 0 <= k <= |b| && Reached(b, k) && Overlong(GoodBeginning(b[k..]), |b| - k) {
      ReachedNext(b, rest, k);
      assert Reached(rest, k - d) && b[k..] == rest[k - d..];
    }
    if k :| 0 <= k <= |rest| && Reached(rest, k) && Headless(rest[k..]) {
      ReachedNext(b, rest, d + k);
      assert Reached(b, d + k) && b[d + k..] == rest[k..];
    }
    if k :| 0 <= k <= |rest| && Reached(rest, k) && Overlong(GoodBeginning(rest[k..]), |rest| - k) {
      ReachedNext(b, rest, d + k);
      assert Reached(b, d + k) && b[d + k..] == rest[k..];
    }
  }

  /** Each tag in these bytes, wherever it lies, begins a header. */
  predicate Parsable(b: Bytes) {
    forall k :: 0 <= k && k + TAG_SIZE <= |b| && StartsTag(b[k..])
        ==> GoodBeginning(b[k..]).Good? && !Overlong(GoodBeginning(b[k..]), |b| - k)
  }

  lemma ParsableEnds(b: Bytes)
    requires Parsable(b)
    ensures Passable(b) && Scan(b).Waiting?
  {
    EndsExactly(b);
    hide Reached, Scan;
  }

  // ---- Any chunking ----

  function Concat(chunks: seq<Bytes>): Bytes {
    if chunks == [] then [] else Concat(chunks[..|chunks| - 1]) + chunks[|chunks| - 1]
  }

  /** The passes made when the stream arrives in these pieces. */
  function Feed(chunks: seq<Bytes>): Result {
    if chunks == [] then Waiting([], []) else Then(Feed(chunks[..|chunks| - 1]), chunks[|chunks| - 1])
  }

  /**
   However the stream is cut, what has been reported and what is kept are what
   one pass over it gives, if 36 bytes are enough at each tag the pass comes to.
   */
  lemma {:induction false} ChunksDoNotMatter(chunks: seq<Bytes>)
    requires (forall i :: 0 <= i < |chunks| ==> chunks[i] != []) && Steadily(Concat(chunks))
    ensures Feed(chunks) == Scan(Concat(chunks))
    decreases |chunks|
  {
    if chunks != [] {
      var n := |chunks| - 1;
      SteadilyPrefix(Concat(chunks[..n]), chunks[n]);
      ChunksDoNotMatter(chunks[..n]);
      ScanMore(Concat(chunks[..n]), chunks[n]);
    }
  }
}

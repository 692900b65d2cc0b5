/**
 What the receiver of Com/MsgSocket.cpp reports, against what was sent: every
 frame, in order, even with garbage between them, and nothing that was not
 there.
 */
module BipDelivery {
  import opened BipFrames
  import opened BipHeader
  import opened BipScan

  predicate FrameOk(f: Frame) { HeaderOk(HeaderOf(f)) && |f.data| <= MAX_LENGTH }

  /** What the receiver is to be told of a message: number 0 is an introduction. */
  function Reported(f: Frame): Event { if f.mid == 0 then Link(f.pid, f.data) else Message(f.pid, f.mid, f.data) }

  // ---- One frame ----

  lemma FrameRound(f: Frame, rest: Bytes)
    requires FrameOk(f)
    ensures Iterate(Wire(f) + rest) == Next(rest, [Reported(f)])
  {
    hide GoodBeginning, HeaderBytes, Iterate;
    var h := HeaderOf(f);
    var b := Wire(f) + rest;
    HeaderRoundTrip(h, f.data + TAG_END + rest);
    assert b == HeaderBytes(h) + (f.data + TAG_END + rest);
    Parts(HeaderBytes(h), f.data, TAG_END, rest);
    GoodRound(b, h);
  }

  lemma GoodRound(b: Bytes, h: Header)
    requires GoodBeginning(b) == Good(h) && h.length >= 0 && !Overlong(Good(h), |b|)
    requires |b| >= TAG_SIZE + h.length + END_SIZE
    requires b[TAG_SIZE + h.length..][..END_SIZE] == TAG_END
    ensures Iterate(b) == Next(b[TAG_SIZE + h.length + END_SIZE..], [EventOf(h, b[TAG_SIZE..TAG_SIZE + h.length])])
  {
    hide GoodBeginning, MoveToMessage;
    assert b[TAG_SIZE + h.length..TAG_SIZE + h.length + END_SIZE] == b[TAG_SIZE + h.length..][..END_SIZE];
  }

  lemma Parts<T>(a: seq<T>, b: seq<T>, c: seq<T>, d: seq<T>)
    ensures var s := a + b + c + d; var n := |a| + |b|;
            s[|a|..n] == b && s[n..n + |c|] == c && s[n + |c|..] == d
  {
  }

  /** The unfinished beginning of a frame is kept as it is. */
  lemma PartialRound(f: Frame, n: nat)
    requires FrameOk(f) && n < |Wire(f)|
    ensures Iterate(Wire(f)[..n]) == Stop(Wire(f)[..n])
  {
    var h := HeaderOf(f);
    var p := Wire(f)[..n];
    if n >= TAG_SIZE {
      HeaderRoundTrip(h, p[TAG_SIZE..]);
      assert p[..TAG_SIZE] == HeaderBytes(h);
      assert p == HeaderBytes(h) + p[TAG_SIZE..];
      hide GoodBeginning, HeaderBytes, MoveToMessage;
    }
  }

  // ---- Garbage ----

  /** No tag lies in these bytes. */
  predicate Clean(g: Bytes) { forall j :: 0 <= j <= |g| ==> !StartsTag(g[j..]) }

  /** A tag never overlaps another one, so garbage without a tag in it hides no tag either. */
  lemma NoTagInGarbage(g: Bytes, rest: Bytes, j: nat)
    requires Clean(g) && j < |g| && (rest == [] || rest[0] == TAG_START[0])
    ensures !StartsTag((g + rest)[j..])
  {
    var b := g + rest;
    if j + 7 <= |g| {
      assert b[j..][..7] == g[j..][..7];
    } else if j + 7 <= |b| {
      assert b[j..][..7][|g| - j] == b[|g|] == rest[0] == TAG_START[0];
      assert forall i :: 1 <= i < 7 ==> TAG_START[i] != TAG_START[0];
    }
  }

  /** Garbage, and then what begins like a frame. */
  lemma GarbageRounds(g: Bytes, f: Frame, n: nat, rest: Bytes)
    requires Clean(g) && FrameOk(f) && n <= |Wire(f)| && (n < |Wire(f)| ==> rest == [])
    ensures forall j :: 0 <= j < |g| ==> !StartsTag((g + (Wire(f)[..n] + rest))[j..])
  {
    var p := Wire(f)[..n] + rest;
    assert Wire(f)[0] == TAG_START[0];
    forall j | 0 <= j < |g|
      ensures !StartsTag((g + p)[j..])
    {
      NoTagInGarbage(g, p, j);
    }
  }

  lemma FrameAfterGarbage(g: Bytes, f: Frame, rest: Bytes)
    requires Clean(g) && FrameOk(f)
    ensures Scan(g + Wire(f) + rest) == Prepend([Reported(f)], Scan(rest))
  {
    var b := g + (Wire(f) + rest);
    assert g + Wire(f) + rest == b;
    assert Wire(f)[..|Wire(f)|] == Wire(f);
    GarbageRounds(g, f, |Wire(f)|, rest);
    FrameRound(f, rest);
    hide Iterate, StartsTag, Wire;
    if g == [] {
      assert b == Wire(f) + rest;
    } else {
      assert b[|g|..] == Wire(f) + rest;
      SkipGarbage(b, |g|);
    }
  }

  /**
   How much garbage is dropped in front of `n` bytes of a frame: all of it once
   there are more than 36 of them, and otherwise all but the last 36 bytes.
   */
  function Dropped(garbage: nat, n: nat): (k: nat)
    ensures k <= garbage
  {
    if garbage + n <= 36 then 0 else if n > 36 then garbage else garbage + n - 36
  }

  /** Garbage and an unfinished frame: the frame is kept, with some of the garbage if it is short. */
  lemma TailKept(g: Bytes, f: Frame, n: nat)
    requires Clean(g) && FrameOk(f) && n < |Wire(f)|
    ensures var b := g + Wire(f)[..n]; Scan(b) == Waiting([], b[Dropped(|g|, n)..])
  {
    var q := Wire(f)[..n];
    var b := g + q;
    PartialRound(f, n);
    GarbageRounds(g, f, n, []);
    assert q + [] == q;
    hide Wire, GoodBeginning, MoveToMessage, StartsTag, Clean, FrameOk;
    assert b[0..] == b && b[|g|..] == q;
    if g != [] && |b| >= TAG_SIZE {
      ShortTail(b, |g|);
    }
  }

  /** A buffer in which no tag starts in the first `k` bytes, and what follows makes the loop wait. */
  lemma ShortTail(b: Bytes, k: nat)
    requires 0 < k <= |b| && TAG_SIZE <= |b| && (forall j :: 0 <= j < k ==> !StartsTag(b[j..]))
          && Iterate(b[k..]) == Stop(b[k..])
    ensures var m := if k + TAG_SIZE < |b| then k else |b| - TAG_SIZE; Scan(b) == Waiting([], b[m..])
  {
    if k + TAG_SIZE < |b| {
      SkipGarbage(b, k);
    } else {
      var m := |b| - TAG_SIZE;
      assert b[0..] == b;
      NoTagBefore(b, 0, m);
      assert GoodBeginning(b).Bad?;
      hide GoodBeginning, StartsTag;
      assert Iterate(b) == Stop(b[m..]);
    }
  }

  // ---- A message whose end is missing ----

  /**
   Where no end of a message stands behind its payload, only its header is
   skipped, and the search goes on in the payload; an introduction is taken
   all the same, with whatever stands there.
   */
  lemma EndMissing(h: Header, data: Bytes, end: Bytes, rest: Bytes)
    requires HeaderOk(h) && |data| == h.length <= MAX_LENGTH && |end| == 2 && end != [0x0D, 0x0A]
    ensures Scan(HeaderBytes(h) + data + end + rest)
         == if h.mid == 0 then Prepend([Link(h.pid, data)], Scan(rest)) else Scan(data + end + rest)
  {
    hide HeaderBytes, GoodBeginning, Iterate;
    var b := HeaderBytes(h) + data + end + rest;
    assert b == HeaderBytes(h) + (data + end + rest);
    HeaderRoundTrip(h, data + end + rest);
    Parts(HeaderBytes(h), data, end, rest);
    BadEndRound(b, h);
    assert b[TAG_SIZE..] == data + end + rest;
    PrependNothing(Scan(data + end + rest));
  }

  lemma BadEndRound(b: Bytes, h: Header)
    requires GoodBeginning(b) == Good(h) && 0 <= h.length <= MAX_LENGTH && |b| >= TAG_SIZE + h.length + END_SIZE
    requires var n := TAG_SIZE + h.length; b[n..n + 2] != TAG_END
    ensures var n := TAG_SIZE + h.length;
            Iterate(b) == if h.mid == 0 then Next(b[n + 2..], [Link(h.pid, b[TAG_SIZE..n])])
                           else Next(b[TAG_SIZE..], [])
  {
    hide GoodBeginning, MoveToMessage;
  }

  // ---- A whole stream ----

  /** A frame and the garbage before it. */
  datatype Piece = Piece(garbage: Bytes, frame: Frame)

  predicate PieceOk(p: Piece) { Clean(p.garbage) && FrameOk(p.frame) }

  function Stream(ps: seq<Piece>): Bytes
    requires forall i :: 0 <= i < |ps| ==> PieceOk(ps[i])
  {
    if ps == [] then [] else assert PieceOk(ps[0]); ps[0].garbage + Wire(ps[0].frame) + Stream(ps[1..])
  }

  function AllReported(ps: seq<Piece>): seq<Event> {
    if ps == [] then [] else [Reported(ps[0].frame)] + AllReported(ps[1..])
  }

  lemma {:induction false} StreamScanned(ps: seq<Piece>, tail: Bytes)
    requires forall i :: 0 <= i < |ps| ==> PieceOk(ps[i])
    ensures Scan(Stream(ps) + tail) == Prepend(AllReported(ps), Scan(tail))
    decreases |ps|
  {
    hide Scan, Wire, Clean;
    if ps == [] {
      assert Stream(ps) + tail == tail;
      PrependNothing(Scan(tail));
    } else {
      assert PieceOk(ps[0]);
      var g, f, more := ps[0].garbage, ps[0].frame, Stream(ps[1..]) + tail;
      assert Stream(ps) + tail == g + Wire(f) + more;
      FrameAfterGarbage(g, f, more);
      StreamScanned(ps[1..], tail);
      PrependTwice([Reported(f)], AllReported(ps[1..]), Scan(tail));
    }
  }

  // ---- At the tags of such a stream 36 bytes are enough ----

  lemma NoTagIsFirm(b: Bytes)
    requires |b| >= TAG_SIZE && !StartsTag(b)
    ensures Steady(b)
  {
    var w := b[..TAG_SIZE];
    assert w[..7] == b[..7];
    TextRead(w, 0);
  }

  lemma HeaderIsFirm(h: Header, rest: Bytes)
    requires HeaderOk(h)
    ensures Steady(HeaderBytes(h) + rest)
  {
    HeaderRead(h);
    assert (HeaderBytes(h) + rest)[..TAG_SIZE] == HeaderBytes(h);
    hide After, HeaderBytes;
  }

  lemma FrameSteady(f: Frame, rest: Bytes)
    requires FrameOk(f) && Steadily(rest)
    ensures Steadily(Wire(f) + rest)
  {
    hide Iterate, HeaderBytes, Steady, Steadily;
    var h := HeaderOf(f);
    FrameRound(f, rest);
    HeaderIsFirm(h, f.data + TAG_END + rest);
    assert Wire(f) + rest == HeaderBytes(h) + (f.data + TAG_END + rest);
    hide Wire;
    SteadilyFrom(Wire(f) + rest);
  }

  /** Garbage in front, from which the loop moves to `p` if it moves. */
  lemma GarbageSteady(g: Bytes, p: Bytes)
    requires Steadily(p) && (forall j :: 0 <= j < |g| ==> !StartsTag((g + p)[j..]))
    requires |p| > TAG_SIZE ==> StartsTag(p)
    ensures Steadily(g + p)
  {
    var b := g + p;
    assert b[0..] == b && b[|g|..] == p;
    if g == [] {
      assert b == p;
    } else {
      if |b| >= TAG_SIZE {
        NoTagIsFirm(b);
        var m := if |p| > TAG_SIZE then |g| else |b| - TAG_SIZE;
        NoTagBefore(b, 0, m);
        assert GoodBeginning(b).Bad?;
        hide GoodBeginning, Steady, Steadily;
        assert Iterate(b) == if |p| > TAG_SIZE then Next(p, []) else Stop(b[m..]);
      }
      hide Iterate, Steady, Steadily;
      SteadilyFrom(b);
    }
  }

  lemma PieceSteady(p: Piece, more: Bytes)
    requires PieceOk(p) && Steadily(more)
    ensures Steadily(p.garbage + Wire(p.frame) + more)
  {
    var g, f := p.garbage, p.frame;
    FrameSteady(f, more);
    GarbageRounds(g, f, |Wire(f)|, more);
    assert Wire(f)[..|Wire(f)|] == Wire(f) && (Wire(f) + more)[..7] == TAG_START;
    hide Steadily, Clean, Wire;
    GarbageSteady(g, Wire(f) + more);
    assert g + Wire(f) + more == g + (Wire(f) + more);
  }

  lemma {:induction false} StreamSteady(ps: seq<Piece>, tail: Bytes)
    requires (forall i :: 0 <= i < |ps| ==> PieceOk(ps[i])) && Steadily(tail)
    ensures Steadily(Stream(ps) + tail)
    decreases |ps|
  {
    hide Steadily, Clean, Wire;
    if ps == [] {
      assert Stream(ps) + tail == tail;
    } else {
      var p, more := ps[0], Stream(ps[1..]);
      assert PieceOk(p);
      StreamSteady(ps[1..], tail);
      PieceSteady(p, more + tail);
      assert Stream(ps) + tail == p.garbage + Wire(p.frame) + (more + tail);
    }
  }

  lemma TailSteady(g: Bytes, f: Frame, n: nat)
    requires Clean(g) && FrameOk(f) && n < |Wire(f)|
    ensures Steadily(g + Wire(f)[..n])
  {
    var p := Wire(f)[..n];
    PartialRound(f, n);
    if n >= TAG_SIZE {
      HeaderIsFirm(HeaderOf(f), p[TAG_SIZE..]);
      assert p == HeaderBytes(HeaderOf(f)) + p[TAG_SIZE..];
      assert p[..7] == TAG_START;
    }
    GarbageRounds(g, f, n, []);
    assert p + [] == p;
    hide Iterate, Steady, Steadily, Wire, Clean, HeaderBytes;
    SteadilyFrom(p);
    GarbageSteady(g, p);
  }

  /**
   A stream of frames with garbage between them that holds no tag, cut anywhere,
   also inside a frame: exactly its complete frames have been reported, in order,
   and the beginning of the unfinished one is kept.
   */
  lemma FramesDelivered(ps: seq<Piece>, g: Bytes, f: Frame, n: nat, chunks: seq<Bytes>)
    requires (forall i :: 0 <= i < |ps| ==> PieceOk(ps[i])) && Clean(g) && FrameOk(f) && n < |Wire(f)|
    requires (forall i :: 0 <= i < |chunks| ==> chunks[i] != []) && Concat(chunks) == Stream(ps) + (g + Wire(f)[..n])
    ensures Feed(chunks) == Waiting(AllReported(ps), (g + Wire(f)[..n])[Dropped(|g|, n)..])
  {
    hide Scan, Wire, Clean, Steadily;
    var tail := g + Wire(f)[..n];
    TailSteady(g, f, n);
    StreamSteady(ps, tail);
    ChunksDoNotMatter(chunks);
    StreamScanned(ps, tail);
    TailKept(g, f, n);
  }

  // ---- A tag that does not start a header ----

  /**
   Once a tag is reached that never looks like a header, however much of what
   follows is there, the loop never ends: later frames are lost.
   */
  lemma StuckForEver(ps: seq<Piece>, b: Bytes, chunks: seq<Bytes>)
    requires (forall i :: 0 <= i < |ps| ==> PieceOk(ps[i])) && |b| > TAG_SIZE && StartsTag(b) && NoHeader(b)
    requires (forall i :: 0 <= i < |chunks| ==> chunks[i] != []) && Concat(chunks) == Stream(ps) + b
    ensures Feed(chunks) == Stuck(AllReported(ps))
  {
    hide Clean, GoodBeginning;
    assert b[..|b|] == b;
    NoProgress(b);
    SteadilyFrom(b);
    assert Scan(b) == Stuck([]);
    hide Scan, Steadily, NoHeader, Steady;
    StreamSteady(ps, b);
    ChunksDoNotMatter(chunks);
    StreamScanned(ps, b);
    assert AllReported(ps) + [] == AllReported(ps);
  }

  /**
   Behind a header whose length is beyond the signed ints nothing is reported any
   more, and all of it is kept, as long as a signed int can count it.
   */
  lemma WaitsInVain(ps: seq<Piece>, b: Bytes, chunks: seq<Bytes>)
    requires (forall i :: 0 <= i < |ps| ==> PieceOk(ps[i])) && Endless(GoodBeginning(b)) && Steady(b)
    requires |b| < 0x8000_0000 && (forall i :: 0 <= i < |chunks| ==> chunks[i] != [])
    requires Concat(chunks) == Stream(ps) + b
    ensures Feed(chunks) == Waiting(AllReported(ps), b)
  {
    hide Clean, GoodBeginning, MoveToMessage, Steady;
    assert Iterate(b) == Stop(b);
    SteadilyFrom(b);
    assert Scan(b) == Waiting([], b);
    hide Scan, Iterate, Steadily;
    StreamSteady(ps, b);
    ChunksDoNotMatter(chunks);
    StreamScanned(ps, b);
    assert AllReported(ps) + [] == AllReported(ps);
  }

  // ---- Nothing is invented ----

  /**
   A message that is reported as `e` lies in the bytes from `i` to `j`; its last
   number may reach beyond the 36 bytes of its header.
   */
  predicate SpellsAt(b: Bytes, i: nat, j: nat, e: Event) {
    && i <= j <= |b|
    && match GoodBeginning(b[i..])
       case Bad => false
       case Good(h) =>
         && h.length >= 0 && j == i + TAG_SIZE + h.length + END_SIZE
         && e == EventOf(h, b[i + TAG_SIZE..j - END_SIZE])
         && (h.mid != 0 ==> b[j - END_SIZE..j] == TAG_END)
  }

  predicate EndsWith(b: Bytes, rest: Bytes) { |rest| <= |b| && b[|b| - |rest|..] == rest }

  /**
   The events are spelled by messages that lie in the bytes one after the other;
   `rest` is the end of what follows.
   */
  ghost predicate Explained(b: Bytes, es: seq<Event>, rest: Bytes)
    decreases |es|
  {
    if es == [] then EndsWith(b, rest)
    else exists i: nat, j: nat :: SpellsAt(b, i, j, es[0]) && Explained(b[j..], es[1..], rest)
  }

  lemma {:induction false} ExplainedFurther(b: Bytes, k: nat, es: seq<Event>, rest: Bytes)
    requires k <= |b| && Explained(b[k..], es, rest)
    ensures Explained(b, es, rest)
  {
    if es != [] {
      var i: nat, j: nat :| SpellsAt(b[k..], i, j, es[0]) && Explained(b[k..][j..], es[1..], rest);
      SpellsFurther(b, k, i, j, es[0]);
      assert b[k..][j..] == b[k + j..];
      assert SpellsAt(b, k + i, k + j, es[0]) && Explained(b[k + j..], es[1..], rest);
    }
  }

  lemma SpellsFurther(b: Bytes, k: nat, i: nat, j: nat, e: Event)
    requires k <= |b| && SpellsAt(b[k..], i, j, e)
    ensures SpellsAt(b, k + i, k + j, e)
  {
    assert b[k..][i..] == b[k + i..];
    hide GoodBeginning;
    assert b[k..][i + TAG_SIZE..j - END_SIZE] == b[k + i + TAG_SIZE..k + j - END_SIZE];
    assert b[k..][j - END_SIZE..j] == b[k + j - END_SIZE..k + j];
  }

  lemma RoundExplained(b: Bytes, e: Event, rest: Bytes)
    requires Iterate(b) == Next(rest, [e])
    ensures EndsWith(b, rest) && SpellsAt(b, 0, |b| - |rest|, e)
  {
    hide MoveToMessage, GoodBeginning;
    assert b[0..] == b;
  }

  function Kept(r: Result): Bytes { if r.Waiting? then r.rest else [] }

  lemma ExplainedMore(b: Bytes, out: seq<Event>, rest: Bytes, r: Result)
    requires Iterate(b) == Next(rest, out) && EndsWith(b, rest) && (out == [] || out == [out[0]])
    requires Explained(rest, r.events, Kept(r))
    ensures Explained(b, Prepend(out, r).events, Kept(r))
  {
    hide Iterate, SpellsAt;
    var k := |b| - |rest|;
    if out == [] {
      PrependNothing(r);
      ExplainedFurther(b, k, r.events, Kept(r));
    } else {
      RoundExplained(b, out[0], rest);
      var es := [out[0]] + r.events;
      assert Prepend(out, r).events == es && es[0] == out[0] && es[1..] == r.events;
      assert Explained(b[k..], es[1..], Kept(r)) && SpellsAt(b, 0, k, es[0]);
    }
  }

  /** Whatever the bytes, each event was a message in them, in this order and without overlap. */
  lemma {:induction false} NothingInvented(b: Bytes)
    ensures Explained(b, Scan(b).events, Kept(Scan(b)))
    decreases |b|
  {
    Suffix(b);
    hide Iterate;
    assert EndsWith(b, []);
    match Iterate(b)
    case TooLong =>
    case Stop(rest) =>
    case Next(rest, out) =>
      if |rest| < |b| {
        NothingInvented(rest);
        ExplainedMore(b, out, rest, Scan(rest));
      }
  }
}

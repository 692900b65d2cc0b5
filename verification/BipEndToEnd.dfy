/**
 Both ends of a connection of Com/MsgSocket.cpp: what one socket has written,
 by whichever way of sending, is what the other one reports.
 */
module BipEndToEnd {
  import opened Basics
  import opened BipFrames
  import opened BipScan
  import opened BipSocket
  import BipDelivery

  function Bare(fs: seq<Frame>): seq<BipDelivery.Piece> {
    seq(|fs|, i requires 0 <= i < |fs| => BipDelivery.Piece([], fs[i]))
  }

  predicate Sendable(fs: seq<Frame>) { forall i :: 0 <= i < |fs| ==> BipDelivery.FrameOk(fs[i]) }

  lemma ChopAppend<T>(s: seq<T>, x: T)
    ensures (s + [x])[..|s|] == s && (s + [x])[|s|] == x
  {
  }

  lemma SendableMore(fs: seq<Frame>, f: Frame)
    requires Sendable(fs) && BipDelivery.FrameOk(f)
    ensures Sendable(fs + [f])
  {
  }

  lemma BareMore(fs: seq<Frame>, f: Frame)
    ensures Bare(fs + [f]) == Bare(fs) + [BipDelivery.Piece([], f)]
  {
    ChopAppend(fs, f);
  }

  predicate AllOk(ps: seq<BipDelivery.Piece>) { forall i :: 0 <= i < |ps| ==> BipDelivery.PieceOk(ps[i]) }

  lemma BareOk(fs: seq<Frame>)
    requires Sendable(fs)
    ensures AllOk(Bare(fs)) && Logged(WireAll(fs), fs)
  {
    assert forall i :: 0 <= i < |fs| ==> BipDelivery.FrameOk(fs[i]) && HeaderOk(HeaderOf(fs[i]));
  }

  lemma {:induction false} WireIsStream(fs: seq<Frame>)
    requires Sendable(fs)
    ensures AllOk(Bare(fs)) && Logged(WireAll(fs), fs) && WireAll(fs) == BipDelivery.Stream(Bare(fs))
    decreases |fs|
  {
    BareOk(fs);
    if fs != [] {
      var n := |fs| - 1;
      WireIsStream(fs[..n]);
      SplitLast(fs);
      OneMore(fs[..n], fs[n]);
    }
  }

  lemma OneMore(fs: seq<Frame>, f: Frame)
    requires Sendable(fs) && BipDelivery.FrameOk(f) && Logged(WireAll(fs), fs) && AllOk(Bare(fs))
    requires WireAll(fs) == BipDelivery.Stream(Bare(fs))
    ensures Sendable(fs + [f]) && AllOk(Bare(fs + [f])) && Logged(WireAll(fs + [f]), fs + [f])
    ensures WireAll(fs + [f]) == BipDelivery.Stream(Bare(fs + [f]))
  {
    var p := BipDelivery.Piece([], f);
    SendableMore(fs, f);
    BareOk(fs + [f]);
    LoggedMore(WireAll(fs), fs, f);
    assert WireAll(fs + [f]) == WireAll(fs) + Wire(f);
    EmptyClean(f);
    BareMore(fs, f);
    hide *;
    StreamAppend(Bare(fs), p);
    NoGarbage(BipDelivery.Stream(Bare(fs)), Wire(f));
  }

  lemma NoGarbage(s: Bytes, t: Bytes)
    ensures s + [] + t == s + t
  {
  }

  lemma EmptyClean(f: Frame)
    requires BipDelivery.FrameOk(f)
    ensures BipDelivery.PieceOk(BipDelivery.Piece([], f))
  {
  }

  lemma {:induction false} StreamAppend(ps: seq<BipDelivery.Piece>, p: BipDelivery.Piece)
    requires AllOk(ps) && BipDelivery.PieceOk(p)
    ensures AllOk(ps + [p])
    ensures BipDelivery.Stream(ps + [p]) == BipDelivery.Stream(ps) + p.garbage + Wire(p.frame)
    decreases |ps|
  {
    hide Wire;
    if ps == [] {
      assert ([] + [p])[1..] == [];
      assert ps + [p] == [p];
    } else {
      StreamAppend(ps[1..], p);
      assert (ps + [p])[0] == ps[0] && (ps + [p])[1..] == ps[1..] + [p];
    }
  }

  lemma {:induction false} ReportedAll(fs: seq<Frame>)
    requires Sendable(fs)
    ensures BipDelivery.AllReported(Bare(fs)) == seq(|fs|, i requires 0 <= i < |fs| => BipDelivery.Reported(fs[i]))
    decreases |fs|
  {
    if fs != [] {
      ReportedAll(fs[1..]);
      assert Bare(fs)[1..] == Bare(fs[1..]);
    }
  }

  /**
   Whatever one socket has put on the wire, by whichever way of sending and
   however TCP cuts it, the passes of the other one report exactly its messages.
   */
  lemma SentIsReceived(wire: Bytes, sent: seq<Frame>, chunks: seq<Bytes>)
    requires Sendable(sent) && Logged(wire, sent)
    requires Concat(chunks) == wire && forall i :: 0 <= i < |chunks| ==> chunks[i] != []
    ensures Feed(chunks) == Waiting(seq(|sent|, i requires 0 <= i < |sent| => BipDelivery.Reported(sent[i])), [])
  {
    WireIsStream(sent);
    ReportedAll(sent);
    NothingMore(Bare(sent), chunks);
  }

  lemma NothingMore(ps: seq<BipDelivery.Piece>, chunks: seq<Bytes>)
    requires AllOk(ps)
    requires Concat(chunks) == BipDelivery.Stream(ps) && forall i :: 0 <= i < |chunks| ==> chunks[i] != []
    ensures Feed(chunks) == Waiting(BipDelivery.AllReported(ps), [])
  {
    var f := Frame(0, 0, []);
    EmptyOk();
    hide BipDelivery.Stream, BipDelivery.PieceOk, BipDelivery.FrameOk, BipDelivery.Clean, Wire;
    var tail := [] + Wire(f)[..0];
    assert tail == [] && tail[0..] == [];
    assert Concat(chunks) == BipDelivery.Stream(ps) + tail;
    BipDelivery.FramesDelivered(ps, [], f, 0, chunks);
    assert BipDelivery.Dropped(0, 0) == 0;
  }

  lemma EmptyOk()
    ensures BipDelivery.FrameOk(Frame(0, 0, [])) && BipDelivery.Clean([])
  {
  }
}
